/** The reference-counted handle of effects/pointer.h and effects/pointer.cpp.

    A `Shared_Count` is a heap allocation holding a reference count; a
    `Shared_Ptr` is a handle holding a pointer to an object and a pointer to
    its count. Every handle registers its own address with the thread's frame
    registry when it is built and unregisters it when it dies.

    The heap of counts is the class `Heap`: a map from count to its `refs`,
    the counts that are `Shared_Inline_Count`s together with the object stored
    in the same allocation, and the set of live objects. A ghost ledger,
    `owners`, records which handle (or snapshot element) holds each reference;
    `Heap.Valid` ties every count to the number of references held on it,
    which is the ownership invariant the counting has to keep. */
module Pointers {
  import opened Basics

  /** The address of a `Shared_Count` allocation. */
  type CountId = nat

  /** The address of a managed object. */
  type ObjectId = nat

  /** `refs` after `ref()` on `c`; nothing for a null count (nor for one
      that is not allocated, which no caller passes). */
  function Bump(refs: map<CountId, nat>, c: Option<CountId>): map<CountId, nat>
  {
    if c.Some? && c.value in refs then refs[c.value := refs[c.value] + 1] else refs
  }

  /** `refs` after a bare `deref()` on `c` whose answer is ignored: the count
      stays allocated even when it reaches zero. */
  function Decremented(refs: map<CountId, nat>, c: Option<CountId>): map<CountId, nat>
    requires c.Some? ==> c.value in refs && refs[c.value] >= 1
  {
    if c.Some? then refs[c.value := refs[c.value] - 1] else refs
  }

  /** `refs` after a handle holding `c` gives up its reference the way
      `~Shared_Ptr` does: the count is deleted exactly when that was its last
      reference. */
  function Dropped(refs: map<CountId, nat>, c: Option<CountId>): map<CountId, nat>
    requires c.Some? ==> c.value in refs && refs[c.value] >= 1
  {
    if c.None? then refs
    else if refs[c.value] == 1 then refs - {c.value}
    else refs[c.value := refs[c.value] - 1]
  }

  /** The objects freed when a handle holding count `c` and pointing at `obj`
      gives up its reference: nothing unless it was the last one; then a
      `Shared_Inline_Count` frees the object stored in its own allocation (its
      `manual_delete()` is false), and a plain `Shared_Count` has the handle's
      object deleted (`delete` of a null object frees nothing). */
  function Freed(refs: map<CountId, nat>, inlineData: map<CountId, ObjectId>, c: Option<CountId>, obj: Option<ObjectId>): (r: set<ObjectId>)
    requires c.Some? ==> c.value in refs
    ensures |r| <= 1
    ensures r != {} ==> c.Some? && refs[c.value] == 1
    ensures c.Some? && refs[c.value] == 1 && c.value in inlineData ==> r == {inlineData[c.value]}
    ensures c.Some? && refs[c.value] == 1 && c.value !in inlineData ==> r == if obj.Some? then {obj.value} else {}
  {
    if c.None? || refs[c.value] != 1 then {}
    else if c.value in inlineData then {inlineData[c.value]}
    else if obj.Some? then {obj.value}
    else {}
  }

  /** No allocated count is left without a reference: a count is freed
      together with its last reference. */
  predicate NoneAtZero(refs: map<CountId, nat>)
  {
    forall c :: c in refs ==> refs[c] >= 1
  }

  /** `ref()` and the destructor's release both keep every allocated count
      referenced, and the release frees a count exactly when it held its
      last reference. */
  lemma BumpDroppedKeepNoneAtZero(refs: map<CountId, nat>, c: Option<CountId>)
    requires NoneAtZero(refs) && (c.Some? ==> c.value in refs)
    ensures NoneAtZero(Bump(refs, c)) && NoneAtZero(Dropped(refs, c))
    ensures c.Some? ==> (c.value !in Dropped(refs, c) <==> refs[c.value] == 1)
  {
  }

  /** Taking a reference and then releasing one on the same count leaves
      every count as it was: self-assignment and a copy that is destroyed
      again change nothing. */
  lemma BumpThenDropped(refs: map<CountId, nat>, c: Option<CountId>)
    requires c.Some? ==> c.value in refs && refs[c.value] >= 1
    ensures Dropped(Bump(refs, c), c) == refs
  {
    if c.Some? {
      var bumped := Bump(refs, c);
      assert bumped[c.value] == refs[c.value] + 1 >= 2;
      assert Dropped(bumped, c).Keys == refs.Keys;
    }
  }

  /** The leak in the assignments as written: a bare `deref()` of a count's
      last reference leaves it allocated with no reference, where the
      destructor's release would free it together with the object. */
  lemma DecrementedKeepsDeadCount(refs: map<CountId, nat>, inlineData: map<CountId, ObjectId>, c: CountId, obj: ObjectId)
    requires c in refs && refs[c] == 1 && c !in inlineData
    ensures c in Decremented(refs, Some(c)) && Decremented(refs, Some(c))[c] == 0
    ensures !NoneAtZero(Decremented(refs, Some(c)))
    ensures c !in Dropped(refs, Some(c)) && Freed(refs, inlineData, Some(c), Some(obj)) == {obj}
  {
  }

  /** The counts a release of `c` deletes: `c` itself when it held its last
      reference. */
  function Deleted(refs: map<CountId, nat>, c: Option<CountId>): (r: set<CountId>)
    ensures r <= refs.Keys
    ensures c.Some? && c.value in refs && refs[c.value] >= 1 ==> Dropped(refs, c) == Decremented(refs, c) - r
  {
    if c.Some? && c.value in refs && refs[c.value] == 1 then {c.value} else {}
  }

  /** The holders of each count after `h` takes a reference on `c`. */
  ghost function Hold(owners: map<CountId, multiset<object?>>, c: Option<CountId>, h: object?): (r: map<CountId, multiset<object?>>)
    ensures r.Keys == owners.Keys
  {
    if c.Some? && c.value in owners then owners[c.value := owners[c.value] + multiset{h}] else owners
  }

  /** The holders of each count after `h` gives up a reference on `c`, the
      count itself staying allocated. */
  ghost function Unhold(owners: map<CountId, multiset<object?>>, c: Option<CountId>, h: object?): (r: map<CountId, multiset<object?>>)
    ensures r.Keys == owners.Keys
  {
    if c.Some? && c.value in owners then owners[c.value := owners[c.value] - multiset{h}] else owners
  }

  /** The holders of each count after a reference on `c` passes from `from`
      to `to`. */
  ghost function Transferred(owners: map<CountId, multiset<object?>>, c: Option<CountId>, from: object?, to: object?): (r: map<CountId, multiset<object?>>)
    ensures r.Keys == owners.Keys
  {
    if c.Some? && c.value in owners then owners[c.value := owners[c.value] - multiset{from} + multiset{to}] else owners
  }

  /** Taking away no keys leaves a map as it was. */
  lemma RemoveNothing<K, V>(m: map<K, V>)
    ensures m - {} == m
  {
    assert (m - {}).Keys == m.Keys;
  }

  /** Every count's `refs` is the number of references held on it. */
  ghost predicate Ledger(refs: map<CountId, nat>, owners: map<CountId, multiset<object?>>)
  {
    owners.Keys == refs.Keys && forall c :: c in refs ==> refs[c] == |owners[c]|
  }

  lemma LedgerUpdate(refs: map<CountId, nat>, owners: map<CountId, multiset<object?>>, c: CountId, m: multiset<object?>)
    requires Ledger(refs, owners)
    ensures Ledger(refs[c := |m|], owners[c := m])
  {
  }

  /** Giving up a held reference keeps the ledger, and there was one to give. */
  lemma LedgerDeref(refs: map<CountId, nat>, owners: map<CountId, multiset<object?>>, c: CountId, h: object?)
    requires Ledger(refs, owners) && c in refs && h in owners[c]
    ensures refs[c] >= 1
    ensures Ledger(refs[c := refs[c] - 1], owners[c := owners[c] - multiset{h}])
  {
    var rest := owners[c] - multiset{h};
    assert owners[c] == rest + multiset{h};
    LedgerUpdate(refs, owners, c, rest);
  }

  lemma LedgerRemove(refs: map<CountId, nat>, owners: map<CountId, multiset<object?>>, c: CountId)
    requires Ledger(refs, owners)
    ensures Ledger(refs - {c}, owners - {c})
  {
  }

  /** Removing a key undoes any update at that key. */
  lemma UpdateThenRemove<K, V>(m: map<K, V>, k: K, v: V)
    ensures m[k := v] - {k} == m - {k}
  {
    assert (m[k := v] - {k}).Keys == (m - {k}).Keys;
  }

  /** After `a` takes a reference on `c` and then gives up the one it held on
      `prev` the way the destructor does, `c` is still allocated and both `a`
      and any other holder `b` of `c` still hold it. */
  lemma StillHeld(refs0: map<CountId, nat>, owners0: map<CountId, multiset<object?>>,
                  prev: Option<CountId>, c: CountId, a: object?, b: object?)
    requires Ledger(refs0, owners0) && c in refs0 && b in owners0[c]
    requires prev.Some? ==> prev.value in refs0 && a in owners0[prev.value]
    ensures c !in Deleted(Bump(refs0, Some(c)), prev)
    ensures var owners2 := Unhold(Hold(owners0, Some(c), a), prev, a) - Deleted(Bump(refs0, Some(c)), prev);
            c in owners2 && a in owners2[c] && b in owners2[c]
  {
    var owners1 := Hold(owners0, Some(c), a);
    if prev == Some(c) {
      assert Bump(refs0, Some(c))[c] >= 2;
      assert Unhold(owners1, prev, a)[c] == owners0[c] + multiset{a} - multiset{a};
    }
  }

  /** Adding a fresh key and removing it again gives the map back. */
  lemma AddThenRemove<K, V>(m: map<K, V>, k: K, v: V)
    requires k !in m
    ensures m[k := v] - {k} == m
  {
    assert (m[k := v] - {k}).Keys == m.Keys;
  }

  /** The heap: every live `Shared_Count` and its `refs`, and the live objects. */
  class Heap {
    var refs: map<CountId, nat>
    /** The counts that are `Shared_Inline_Count`s, with the object they embed. */
    var inlineData: map<CountId, ObjectId>
    var objects: set<ObjectId>
    /** Next unused address; stands for the allocator. */
    var nextId: nat
    /** Who holds each reference: one entry per reference, a handle or a snapshot element. */
    ghost var owners: map<CountId, multiset<object?>>

    ghost predicate Valid()
      reads this
    {
      && Ledger(refs, owners)
      && inlineData.Keys <= refs.Keys
      && (forall c :: c in refs ==> c < nextId)
      && (forall c :: c in inlineData ==> inlineData[c] < nextId)
      && (forall o :: o in objects ==> o < nextId)
    }

    constructor ()
      ensures Valid()
      ensures refs == map[] && inlineData == map[] && objects == {} && owners == map[]
    {
      refs, inlineData, objects, nextId := map[], map[], {}, 0;
      owners := map[];
    }

    /** `new T(...)`: a fresh object outside any count. */
    method NewObject() returns (o: ObjectId)
      requires Valid()
      modifies this
      ensures Valid()
      ensures o !in old(objects) && objects == old(objects) + {o}
      ensures refs == old(refs) && inlineData == old(inlineData) && owners == old(owners)
    {
      o := nextId;
      objects := objects + {o};
      nextId := nextId + 1;
    }

    /** `new Shared_Count()`: a fresh count whose `refs` starts at 1, the one
        reference being held by `owner`. */
    method NewCount(ghost owner: object?) returns (c: CountId)
      requires Valid()
      modifies this
      ensures Valid()
      ensures c !in old(refs) && c !in inlineData
      ensures refs == old(refs)[c := 1]
      ensures owners == old(owners)[c := multiset{owner}]
      ensures inlineData == old(inlineData) && objects == old(objects)
    {
      c := nextId;
      LedgerUpdate(refs, owners, c, multiset{owner});
      refs := refs[c := 1];
      owners := owners[c := multiset{owner}];
      nextId := nextId + 1;
    }

    /** `new Shared_Inline_Count<T>(args...)`: one allocation holding a fresh
        count (`refs` = 1, held by `owner`) and a fresh object. */
    method NewInlineCount(ghost owner: object?) returns (c: CountId, o: ObjectId)
      requires Valid()
      modifies this
      ensures Valid()
      ensures c !in old(refs) && o !in old(objects)
      ensures refs == old(refs)[c := 1]
      ensures owners == old(owners)[c := multiset{owner}]
      ensures inlineData == old(inlineData)[c := o]
      ensures objects == old(objects) + {o}
    {
      c := NewCount(owner);
      o := NewObject();
      inlineData := inlineData[c := o];
    }

    /** `Shared_Count::ref()`: one more reference, now held by `owner`. */
    method Ref(c: CountId, ghost owner: object?)
      requires Valid() && c in refs
      modifies this
      ensures Valid()
      ensures refs == Bump(old(refs), Some(c))
      ensures owners == old(owners)[c := old(owners)[c] + multiset{owner}]
      ensures inlineData == old(inlineData) && objects == old(objects)
    {
      LedgerUpdate(refs, owners, c, owners[c] + multiset{owner});
      refs := refs[c := refs[c] + 1];
      owners := owners[c := owners[c] + multiset{owner}];
    }

    /** `Shared_Count::deref()`: `owner` gives up its reference; the answer is
        true exactly when no reference is left. The count itself stays
        allocated: freeing it is the caller's business. */
    method Deref(c: CountId, ghost owner: object?) returns (zero: bool)
      requires Valid() && c in refs && owner in owners[c]
      modifies this
      ensures Valid()
      ensures old(refs)[c] >= 1
      ensures refs == Decremented(old(refs), Some(c))
      ensures zero <==> old(refs)[c] == 1
      ensures owners == old(owners)[c := old(owners)[c] - multiset{owner}]
      ensures inlineData == old(inlineData) && objects == old(objects)
    {
      LedgerDeref(refs, owners, c, owner);
      refs := refs[c := refs[c] - 1];
      owners := owners[c := owners[c] - multiset{owner}];
      zero := refs[c] == 0;
    }

    /** `Shared_Count::manual_delete()`: whether the holder must delete the
        object itself; false for a `Shared_Inline_Count`, whose object is part
        of the count's own allocation. */
    predicate ManualDelete(c: CountId)
      reads this
    {
      c !in inlineData
    }

    /** What `~Shared_Ptr` does with a non-null count: `owner` gives up its
        reference, and when that was the last one the count is freed. */
    method Release(c: CountId, obj: Option<ObjectId>, ghost owner: object?)
      requires Valid() && c in refs && owner in owners[c]
      modifies this
      ensures Valid()
      ensures refs == Dropped(old(refs), Some(c))
      ensures objects == old(objects) - Freed(old(refs), old(inlineData), Some(c), obj)
      ensures inlineData == old(inlineData) - Deleted(old(refs), Some(c))
      ensures owners == Unhold(old(owners), Some(c), owner) - Deleted(old(refs), Some(c))
    {
      var zero := Deref(c, owner);
      if zero {
        UpdateThenRemove(old(owners), c, old(owners)[c] - multiset{owner});
        UpdateThenRemove(old(refs), c, 0);
        Free(c, obj);
      } else {
        RemoveNothing(owners);
        RemoveNothing(inlineData);
      }
    }

    /** The freeing half of `~Shared_Ptr`, for a count with no reference
        left: the handle's object is deleted when `manual_delete()` says so,
        then the count is deleted, and a `Shared_Inline_Count` takes its
        embedded object with it. */
    method Free(c: CountId, obj: Option<ObjectId>)
      requires Valid() && c in refs && refs[c] == 0
      modifies this
      ensures Valid()
      ensures refs == old(refs) - {c} && owners == old(owners) - {c}
      ensures inlineData == old(inlineData) - {c}
      ensures objects == old(objects) - (if c in old(inlineData) then {old(inlineData)[c]} else if obj.Some? then {obj.value} else {})
    {
      if ManualDelete(c) && obj.Some? {
        objects := objects - {obj.value};
      }
      if c in inlineData {
        objects := objects - {inlineData[c]};
      }
      LedgerRemove(refs, owners, c);
      refs := refs - {c};
      owners := owners - {c};
      inlineData := inlineData - {c};
    }

    /** A reference on `c` changes holder without changing `refs`: a move. */
    ghost method Transfer(c: CountId, from: object?, to: object?)
      requires Valid() && c in refs && from in owners[c]
      modifies this
      ensures Valid()
      ensures owners == old(owners)[c := old(owners)[c] - multiset{from} + multiset{to}]
      ensures refs == old(refs) && inlineData == old(inlineData) && objects == old(objects)
    {
      assert |owners[c] - multiset{from} + multiset{to}| == |owners[c]| by {
        assert multiset{from} <= owners[c];
      }
      owners := owners[c := owners[c] - multiset{from} + multiset{to}];
    }
    /** Two distinct holders of references on `c` mean at least two references. */
    lemma TwoHolders(c: CountId, a: object?, b: object?)
      requires Valid() && c in refs && a in owners[c] && b in owners[c] && a != b
      ensures refs[c] >= 2
    {
      var rest := owners[c] - multiset{a, b};
      assert owners[c] == multiset{a, b} + rest;
    }
  }

  /** The frame registry of handle addresses (`Handler_Frame::add_shared_ptr`
      and `remove_shared_ptr`), as a set. */
  class Registry {
    var addrs: set<SharedPtr?>

    constructor ()
      ensures addrs == {}
    {
      addrs := {};
    }

    method Add(p: SharedPtr?)
      modifies this
      ensures addrs == old(addrs) + {p}
    {
      addrs := addrs + {p};
    }

    method Remove(p: SharedPtr?)
      modifies this
      ensures addrs == old(addrs) - {p}
    {
      addrs := addrs - {p};
    }
  }

  /** `Shared_Ptr<T>` together with its base `Shared_Ptr_Base`; the handle's
      address is the object's identity. Object types are erased. */
  class SharedPtr {
    var count: Option<CountId>
    var obj: Option<ObjectId>

    /** This handle's count, if any, is alive and holds one reference for it. */
    ghost predicate Valid(heap: Heap)
      reads this, heap
    {
      heap.Valid() && (count.Some? ==> count.value in heap.refs && this in heap.owners[count.value])
    }

    /** `Shared_Ptr()`: the empty handle, registered like every other. */
    constructor Empty(heap: Heap, reg: Registry)
      requires heap.Valid()
      modifies reg
      ensures Valid(heap)
      ensures count == None && obj == None
      ensures this !in old(reg.addrs) && reg.addrs == old(reg.addrs) + {this}
    {
      count, obj := None, None;
      new;
      reg.Add(this);
    }

    /** `Shared_Ptr(T *object)`: a fresh `Shared_Count` with `refs` = 1. */
    constructor FromObject(o: Option<ObjectId>, heap: Heap, reg: Registry)
      requires heap.Valid()
      modifies heap, reg
      ensures Valid(heap)
      ensures obj == o && count.Some? && heap.ManualDelete(count.value)
      ensures count.value !in old(heap.refs) && heap.refs == old(heap.refs)[count.value := 1]
      ensures heap.owners == old(heap.owners)[count.value := multiset{this}]
      ensures heap.inlineData == old(heap.inlineData) && heap.objects == old(heap.objects)
      ensures this !in old(reg.addrs) && reg.addrs == old(reg.addrs) + {this}
    {
      obj := o;
      new;
      var c := heap.NewCount(this);
      count := Some(c);
      reg.Add(this);
    }

    /** `make_shared<T>(args...)`: one `Shared_Inline_Count` allocation holding
        the count (`refs` = 1) and a fresh object, adopted by the handle
        without a further `ref()`. */
    constructor MakeShared(heap: Heap, reg: Registry)
      requires heap.Valid()
      modifies heap, reg
      ensures Valid(heap)
      ensures count.Some? && obj.Some? && !heap.ManualDelete(count.value)
      ensures count.value !in old(heap.refs) && obj.value !in old(heap.objects)
      ensures heap.inlineData == old(heap.inlineData)[count.value := obj.value]
      ensures heap.refs == old(heap.refs)[count.value := 1]
      ensures heap.owners == old(heap.owners)[count.value := multiset{this}]
      ensures heap.objects == old(heap.objects) + {obj.value}
      ensures this !in old(reg.addrs) && reg.addrs == old(reg.addrs) + {this}
    {
      new;
      var c, o := heap.NewInlineCount(this);
      count, obj := Some(c), Some(o);
      reg.Add(this);
    }

    /** The copy constructor: shares the source's object and count and takes
        one more reference when the count is not null. */
    constructor Copy(src: SharedPtr, heap: Heap, reg: Registry)
      requires src.Valid(heap)
      modifies heap, reg
      ensures Valid(heap) && src.Valid(heap)
      ensures count == src.count && obj == src.obj
      ensures heap.refs == Bump(old(heap.refs), count)
      ensures count.Some? ==> heap.owners == old(heap.owners)[count.value := old(heap.owners)[count.value] + multiset{this}]
      ensures count.None? ==> heap.owners == old(heap.owners)
      ensures heap.inlineData == old(heap.inlineData) && heap.objects == old(heap.objects)
      ensures this !in old(reg.addrs) && reg.addrs == old(reg.addrs) + {this}
    {
      count, obj := src.count, src.obj;
      new;
      reg.Add(this);
      if count.Some? {
        heap.Ref(count.value, this);
      }
    }

    /** The move constructor: takes the source's object and count without
        touching `refs` and leaves the source null. */
    constructor Move(src: SharedPtr, heap: Heap, reg: Registry)
      requires src.Valid(heap)
      modifies src, heap, reg
      ensures Valid(heap) && src.Valid(heap)
      ensures count == old(src.count) && obj == old(src.obj)
      ensures src.count == None && src.obj == None
      ensures heap.refs == old(heap.refs)
      ensures count.Some? ==> heap.owners == old(heap.owners)[count.value := old(heap.owners)[count.value] - multiset{src} + multiset{this}]
      ensures count.None? ==> heap.owners == old(heap.owners)
      ensures heap.inlineData == old(heap.inlineData) && heap.objects == old(heap.objects)
      ensures this !in old(reg.addrs) && reg.addrs == old(reg.addrs) + {this}
    {
      count, obj := src.count, src.obj;
      new;
      reg.Add(this);
      if count.Some? {
        heap.Transfer(count.value, src, this);
      }
      src.obj, src.count := None, None;
    }

    /** Gives up this handle's reference, the body of `~Shared_Ptr`: when it
        was the last one the count is deleted, and with it the object it
        embeds, or the handle's object when `manual_delete()` says so. The
        handle's own fields are left as they were. */
    method Release(heap: Heap)
      requires Valid(heap)
      modifies heap
      ensures heap.Valid()
      ensures heap.refs == Dropped(old(heap.refs), count)
      ensures heap.objects == old(heap.objects) - Freed(old(heap.refs), old(heap.inlineData), count, obj)
      ensures heap.inlineData == old(heap.inlineData) - Deleted(old(heap.refs), count)
      ensures heap.owners == Unhold(old(heap.owners), count, this) - Deleted(old(heap.refs), count)
    {
      if count.Some? {
        heap.Release(count.value, obj, this);
      } else {
        RemoveNothing(heap.owners);
        RemoveNothing(heap.inlineData);
      }
    }

    /** `~Shared_Ptr` followed by `~Shared_Ptr_Base`: releases the reference,
        then unregisters the handle's address. */
    method Destroy(heap: Heap, reg: Registry)
      requires Valid(heap)
      modifies heap, reg
      ensures heap.Valid()
      ensures heap.refs == Dropped(old(heap.refs), count)
      ensures heap.objects == old(heap.objects) - Freed(old(heap.refs), old(heap.inlineData), count, obj)
      ensures heap.inlineData == old(heap.inlineData) - Deleted(old(heap.refs), count)
      ensures heap.owners == Unhold(old(heap.owners), count, this) - Deleted(old(heap.refs), count)
      ensures reg.addrs == old(reg.addrs) - {this}
    {
      Release(heap);
      reg.Remove(this);
    }

    /** Copy assignment as the source has it: `ref()` on the source's count,
        `deref()` on the old one with the answer thrown away, then share the
        source's object and count. A count whose last reference this drops is
        never freed: it stays allocated with `refs` = 0. */
    method AssignAsWritten(src: SharedPtr, heap: Heap)
      requires Valid(heap) && src.Valid(heap)
      modifies this, heap
      ensures Valid(heap) && src.Valid(heap)
      ensures count == old(src.count) && obj == old(src.obj)
      ensures heap.refs == Decremented(Bump(old(heap.refs), old(src.count)), old(count))
      ensures heap.owners == Unhold(Hold(old(heap.owners), old(src.count), this), old(count), this)
      ensures heap.inlineData == old(heap.inlineData) && heap.objects == old(heap.objects)
    {
      if src.count.Some? {
        heap.Ref(src.count.value, this);
      }
      if count.Some? {
        var _ := heap.Deref(count.value, this);
      }
      obj, count := src.obj, src.count;
    }

    /** Copy assignment with the dropped reference released as the destructor
        does: `ref()` on the source's count first, so that self-assignment
        cannot free anything, then release the old reference. */
    method Assign(src: SharedPtr, heap: Heap)
      requires Valid(heap) && src.Valid(heap)
      modifies this, heap
      ensures Valid(heap) && src.Valid(heap)
      ensures count == old(src.count) && obj == old(src.obj)
      ensures old(count).Some? ==> old(count).value in Bump(old(heap.refs), old(src.count))
      ensures heap.refs == Dropped(Bump(old(heap.refs), old(src.count)), old(count))
      ensures heap.objects == old(heap.objects) - Freed(Bump(old(heap.refs), old(src.count)), old(heap.inlineData), old(count), old(obj))
      ensures heap.inlineData == old(heap.inlineData) - Deleted(Bump(old(heap.refs), old(src.count)), old(count))
      ensures heap.owners == Unhold(Hold(old(heap.owners), old(src.count), this), old(count), this)
                             - Deleted(Bump(old(heap.refs), old(src.count)), old(count))
    {
      if src.count.Some? {
        StillHeld(heap.refs, heap.owners, count, src.count.value, this, src);
        heap.Ref(src.count.value, this);
      }
      Release(heap);
      obj, count := src.obj, src.count;
    }

    /** Move assignment as the source has it: self-assignment returns at once;
        otherwise `deref()` on the old count with the answer thrown away, take
        the source's object and count, and null the source. */
    method MoveAssignAsWritten(src: SharedPtr, heap: Heap)
      requires Valid(heap) && src.Valid(heap)
      modifies this, src, heap
      ensures Valid(heap) && src.Valid(heap)
      ensures src == this ==> count == old(count) && obj == old(obj) && heap.refs == old(heap.refs) && heap.owners == old(heap.owners)
      ensures src != this ==>
                && count == old(src.count) && obj == old(src.obj)
                && src.count == None && src.obj == None
                && heap.refs == Decremented(old(heap.refs), old(count))
                && heap.owners == Transferred(Unhold(old(heap.owners), old(count), this), old(src.count), src, this)
      ensures heap.inlineData == old(heap.inlineData) && heap.objects == old(heap.objects)
    {
      if src == this {
        return;
      }
      if count.Some? {
        var _ := heap.Deref(count.value, this);
      }
      obj, count := src.obj, src.count;
      if count.Some? {
        heap.Transfer(count.value, src, this);
      }
      src.obj, src.count := None, None;
    }

    /** Move assignment with the dropped reference released as the destructor
        does. */
    method MoveAssign(src: SharedPtr, heap: Heap)
      requires Valid(heap) && src.Valid(heap)
      modifies this, src, heap
      ensures Valid(heap) && src.Valid(heap)
      ensures src == this ==>
                && count == old(count) && obj == old(obj)
                && heap.refs == old(heap.refs) && heap.owners == old(heap.owners)
                && heap.inlineData == old(heap.inlineData) && heap.objects == old(heap.objects)
      ensures src != this ==>
                && count == old(src.count) && obj == old(src.obj)
                && src.count == None && src.obj == None
                && heap.refs == Dropped(old(heap.refs), old(count))
                && heap.objects == old(heap.objects) - Freed(old(heap.refs), old(heap.inlineData), old(count), old(obj))
                && heap.inlineData == old(heap.inlineData) - Deleted(old(heap.refs), old(count))
                && heap.owners == Transferred(Unhold(old(heap.owners), old(count), this) - Deleted(old(heap.refs), old(count)), old(src.count), src, this)
    {
      if src == this {
        return;
      }
      if count.Some? && count == src.count {
        heap.TwoHolders(count.value, this, src);
      }
      Release(heap);
      obj, count := src.obj, src.count;
      if count.Some? {
        heap.Transfer(count.value, src, this);
      }
      src.obj, src.count := None, None;
    }

    /** `get()`. */
    function Get(): Option<ObjectId>
      reads this
    {
      obj
    }

    /** `operator bool`: the handle is true exactly when its object is not null,
        whatever its count. */
    predicate IsSet()
      reads this
    {
      Get().Some?
    }
  }

  /** Building a handle on an object and destroying it again leaves the
      counts, their holders and the registry as they were, and deletes the
      object: the fresh count's only reference was the handle's. */
  method ConstructDestroy(o: ObjectId, heap: Heap, reg: Registry)
    requires heap.Valid() && o in heap.objects
    modifies heap, reg
    ensures heap.Valid()
    ensures heap.refs == old(heap.refs) && heap.owners == old(heap.owners)
    ensures heap.objects == old(heap.objects) - {o}
    ensures reg.addrs == old(reg.addrs)
  {
    var p := new SharedPtr.FromObject(Some(o), heap, reg);
    ghost var c := p.count.value;
    ghost var refs0, owners0 := old(heap.refs), old(heap.owners);
    p.Destroy(heap, reg);
    AddThenRemove(refs0, c, 1);
    AddThenRemove(owners0, c, multiset{p});
  }

  /** Copying a handle and destroying the copy leaves the counts and the
      registry as they were and frees nothing, since the source still holds
      its reference. */
  method CopyDestroy(src: SharedPtr, heap: Heap, reg: Registry)
    requires src.Valid(heap)
    modifies heap, reg
    ensures src.Valid(heap)
    ensures heap.refs == old(heap.refs) && heap.objects == old(heap.objects)
    ensures reg.addrs == old(reg.addrs)
  {
    var p := new SharedPtr.Copy(src, heap, reg);
    if p.count.Some? {
      heap.TwoHolders(p.count.value, src, p);
    }
    p.Destroy(heap, reg);
    BumpThenDropped(old(heap.refs), src.count);
  }

  /** `operator ==`: two handles are equal when they point at the same object;
      their counts play no part. */
  predicate Equal(a: SharedPtr, b: SharedPtr): (r: bool)
    reads a, b
    ensures r ==> (a.IsSet() <==> b.IsSet())
  {
    a.Get() == b.Get()
  }

  /** `operator !=`. */
  predicate NotEqual(a: SharedPtr, b: SharedPtr): (r: bool)
    reads a, b
    ensures !a.IsSet() && !b.IsSet() ==> !r
  {
    a.Get() != b.Get()
  }

  /** A handle is set exactly when it points at an object; `==` and `!=`
      are each other's negation and look only at the objects, so two
      handles on the same object with different counts are equal. */
  lemma Comparisons(a: SharedPtr, b: SharedPtr)
    ensures a.IsSet() <==> a.obj.Some?
    ensures Equal(a, b) <==> a.obj == b.obj
    ensures NotEqual(a, b) <==> !Equal(a, b)
    ensures a.obj == b.obj && a.count != b.count ==> Equal(a, b)
  {
  }
}
