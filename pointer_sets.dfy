/** The pointer snapshot of effects/pointer_set.h.

    A `Pointer_Set` remembers, for every live handle of a frame, the handle's
    address and the count it held at that moment, and takes one reference on
    that count for itself. `restore_to` puts the addresses back into a
    registry and takes one more reference per recorded count; it does not
    change the set, so a snapshot can be restored any number of times. This
    is the accounting that lets one captured stack be resumed more than once. */
module PointerSets {
  import opened Basics
  import opened Pointers

  /** `refs` after `ref()` on every non-null count of `cs`, in order. */
  function Bumped(refs: map<CountId, nat>, cs: seq<Option<CountId>>): (r: map<CountId, nat>)
    ensures r.Keys == refs.Keys
    decreases |cs|
  {
    if cs == [] then refs
    else Bump(Bumped(refs, cs[..|cs| - 1]), cs[|cs| - 1])
  }

  /** `refs` after `n` restores of a snapshot whose counts are `cs`. */
  function Restored(refs: map<CountId, nat>, cs: seq<Option<CountId>>, n: nat): (r: map<CountId, nat>)
    ensures r.Keys == refs.Keys
  {
    if n == 0 then refs else Bumped(Restored(refs, cs, n - 1), cs)
  }

  /** Every non-null count of `cs` is allocated. */
  predicate Live(cs: seq<Option<CountId>>, refs: map<CountId, nat>)
  {
    forall i :: 0 <= i < |cs| && cs[i].Some? ==> cs[i].value in refs
  }

  /** Bumping a list of live counts raises each count by the number of times
      it occurs in the list, which leaves every other count alone. */
  lemma {:induction false} BumpedAt(refs: map<CountId, nat>, cs: seq<Option<CountId>>, c: CountId)
    requires Live(cs, refs) && c in refs
    ensures Bumped(refs, cs)[c] == refs[c] + multiset(cs)[Some(c)]
    decreases |cs|
  {
    if cs != [] {
      var init := cs[..|cs| - 1];
      assert cs == init + [cs[|cs| - 1]];
      BumpedAt(refs, init, c);
    }
  }

  /** Restoring `n` times adds `n` references per occurrence of a count. */
  lemma {:induction false} RestoredAt(refs: map<CountId, nat>, cs: seq<Option<CountId>>, n: nat, c: CountId)
    requires Live(cs, refs) && c in refs
    ensures Restored(refs, cs, n)[c] == refs[c] + n * multiset(cs)[Some(c)]
  {
    if n > 0 {
      var m := multiset(cs)[Some(c)];
      RestoredAt(refs, cs, n - 1, c);
      BumpedAt(Restored(refs, cs, n - 1), cs, c);
      assert n * m == (n - 1) * m + m;
    }
  }

  /** The holders of each count after `h` takes one reference on every
      non-null count of `cs`, in order. */
  ghost function HoldAll(owners: map<CountId, multiset<object?>>, cs: seq<Option<CountId>>, h: object?): (r: map<CountId, multiset<object?>>)
    ensures r.Keys == owners.Keys
    decreases |cs|
  {
    if cs == [] then owners
    else Hold(HoldAll(owners, cs[..|cs| - 1], h), cs[|cs| - 1], h)
  }

  /** `h` gains one reference on a count per occurrence of it in `cs`, and no
      other holder changes. */
  lemma {:induction false} HoldAllAt(owners: map<CountId, multiset<object?>>, cs: seq<Option<CountId>>, h: object?, c: CountId)
    requires c in owners
    ensures HoldAll(owners, cs, h)[c] == owners[c][h := owners[c][h] + multiset(cs)[Some(c)]]
    decreases |cs|
  {
    if cs != [] {
      var init := cs[..|cs| - 1];
      assert cs == init + [cs[|cs| - 1]];
      HoldAllAt(owners, init, h, c);
    }
  }

  /** One recorded handle: its address and the count it held. An `Element`
      is a value: the set's vector holds elements, not pointers to them. */
  datatype Element = Element(pointer: SharedPtr?, count: Option<CountId>)

  /** The element's count, if any, is alive and `holder` holds one of its
      references. */
  ghost predicate Held(e: Element, holder: object?, heap: Heap)
    reads heap
  {
    heap.Valid() && (e.count.Some? ==> e.count.value in heap.refs && holder in heap.owners[e.count.value])
  }

  /** `Element(Shared_Ptr_Base *)`: records the handle and its count and
      takes one reference on a non-null count, held by `holder`. */
  method Capture(ptr: SharedPtr, heap: Heap, ghost holder: object?) returns (e: Element)
    requires heap.Valid() && (ptr.count.Some? ==> ptr.count.value in heap.refs)
    modifies heap
    ensures Held(e, holder, heap)
    ensures e == Element(ptr, ptr.count)
    ensures heap.refs == Bump(old(heap.refs), ptr.count)
    ensures heap.owners == Hold(old(heap.owners), ptr.count, holder)
    ensures heap.inlineData == old(heap.inlineData) && heap.objects == old(heap.objects)
  {
    e := Element(ptr, ptr.count);
    if e.count.Some? {
      heap.Ref(e.count.value, holder);
    }
  }

  /** The copy constructor: the same address and count, one more reference. */
  method Copy(o: Element, heap: Heap, ghost holder: object?) returns (e: Element)
    requires heap.Valid() && (o.count.Some? ==> o.count.value in heap.refs)
    modifies heap
    ensures Held(e, holder, heap)
    ensures e == o
    ensures heap.refs == Bump(old(heap.refs), o.count)
    ensures heap.owners == Hold(old(heap.owners), o.count, holder)
    ensures heap.inlineData == old(heap.inlineData) && heap.objects == old(heap.objects)
  {
    e := o;
    if e.count.Some? {
      heap.Ref(e.count.value, holder);
    }
  }

  /** The move constructor: the new element takes address and count without
      touching `refs`; the source is left with a null address and count. */
  function Move(o: Element): (r: (Element, Element))
    ensures r.0 == o && r.1.pointer == null && r.1.count.None?
  {
    (o, Element(null, None))
  }

  /** Copy assignment: `ref()` on the source's count, then a bare `deref()`
      on the old one whose answer is thrown away, then the source's address
      and count. */
  method Assign(dst: Element, src: Element, heap: Heap, ghost holder: object?) returns (r: Element)
    requires Held(dst, holder, heap) && Held(src, holder, heap)
    modifies heap
    ensures Held(r, holder, heap)
    ensures r == src
    ensures heap.refs == Decremented(Bump(old(heap.refs), src.count), dst.count)
    ensures heap.owners == Unhold(Hold(old(heap.owners), src.count, holder), dst.count, holder)
    ensures heap.inlineData == old(heap.inlineData) && heap.objects == old(heap.objects)
  {
    if src.count.Some? {
      heap.Ref(src.count.value, holder);
    }
    if dst.count.Some? {
      var _ := heap.Deref(dst.count.value, holder);
    }
    r := src;
  }

  /** Move assignment: the two elements trade addresses and counts; no
      `refs` changes. */
  function MoveAssign(dst: Element, src: Element): (r: (Element, Element))
    ensures r.0 == src && r.1 == dst
  {
    (src, dst)
  }

  /** The addresses recorded in `es`, in order. */
  function Addresses(es: seq<Element>): (r: seq<SharedPtr?>)
    ensures |r| == |es| && forall i :: 0 <= i < |es| ==> r[i] == es[i].pointer
  {
    seq(|es|, i requires 0 <= i < |es| => es[i].pointer)
  }

  /** The addresses recorded in `es`, as a set. */
  function AddressSet(es: seq<Element>): (r: set<SharedPtr?>)
    ensures forall i :: 0 <= i < |es| ==> es[i].pointer in r
  {
    set i | 0 <= i < |es| :: es[i].pointer
  }

  /** The counts recorded in `es`, in order. */
  function Counts(es: seq<Element>): (r: seq<Option<CountId>>)
    ensures |r| == |es| && forall i :: 0 <= i < |es| ==> r[i] == es[i].count
  {
    seq(|es|, i requires 0 <= i < |es| => es[i].count)
  }

  /** The holders of each count after every element's handle takes one
      reference on the element's count, in order: what a restore does. */
  ghost function HoldEach(owners: map<CountId, multiset<object?>>, es: seq<Element>): (r: map<CountId, multiset<object?>>)
    ensures r.Keys == owners.Keys
    decreases |es|
  {
    if es == [] then owners
    else Hold(HoldEach(owners, es[..|es| - 1]), es[|es| - 1].count, es[|es| - 1].pointer)
  }

  /** A restore only adds holders: every reference held before is still held. */
  lemma {:induction false} HoldEachGrows(owners: map<CountId, multiset<object?>>, es: seq<Element>, c: CountId)
    requires c in owners
    ensures owners[c] <= HoldEach(owners, es)[c]
    decreases |es|
  {
    if es != [] {
      HoldEachGrows(owners, es[..|es| - 1], c);
    }
  }

  /** Recording one more element bumps its count once and adds `h` once as
      its holder. */
  lemma CaptureStep(refs: map<CountId, nat>, owners: map<CountId, multiset<object?>>, es: seq<Element>, e: Element, h: object?)
    ensures Bumped(refs, Counts(es + [e])) == Bump(Bumped(refs, Counts(es)), e.count)
    ensures HoldAll(owners, Counts(es + [e]), h) == Hold(HoldAll(owners, Counts(es), h), e.count, h)
  {
    var cs := Counts(es + [e]);
    assert cs[..|cs| - 1] == Counts(es) by {
      forall i | 0 <= i < |es|
        ensures cs[i] == Counts(es)[i]
      {
        assert (es + [e])[i] == es[i];
      }
    }
    assert cs[|cs| - 1] == e.count;
  }

  /** One turn of the constructor's loop: `Element(p)` is built and moved
      onto the end of `es`. */
  method CaptureNext(p: SharedPtr, es: seq<Element>, heap: Heap, ghost holder: object?,
                     ghost refs0: map<CountId, nat>, ghost owners0: map<CountId, multiset<object?>>)
    returns (es': seq<Element>)
    requires heap.Valid() && (p.count.Some? ==> p.count.value in heap.refs)
    requires heap.refs == Bumped(refs0, Counts(es)) && heap.owners == HoldAll(owners0, Counts(es), holder)
    modifies heap
    ensures heap.Valid()
    ensures es' == es + [Element(p, p.count)]
    ensures heap.refs == Bumped(refs0, Counts(es')) && heap.owners == HoldAll(owners0, Counts(es'), holder)
    ensures heap.inlineData == old(heap.inlineData) && heap.objects == old(heap.objects)
  {
    var tmp := Capture(p, heap, holder);
    var (e, _) := Move(tmp);
    CaptureStep(refs0, owners0, es, e, holder);
    es' := es + [e];
  }

  /** The loop of the `Pointer_Set` constructor: each handle is captured
      into a temporary element that is then moved onto the end of the
      vector, so each non-null count gains exactly one reference per
      occurrence, held by `holder`. */
  method CaptureAll(c: seq<SharedPtr>, heap: Heap, ghost holder: object?) returns (es: seq<Element>)
    requires heap.Valid()
    requires forall i :: 0 <= i < |c| && c[i].count.Some? ==> c[i].count.value in heap.refs
    modifies heap
    ensures heap.Valid() && heap.refs.Keys == old(heap.refs).Keys
    ensures |es| == |c|
    ensures forall i :: 0 <= i < |c| ==> es[i] == Element(c[i], c[i].count)
    ensures heap.refs == Bumped(old(heap.refs), Counts(es))
    ensures heap.owners == HoldAll(old(heap.owners), Counts(es), holder)
    ensures heap.inlineData == old(heap.inlineData) && heap.objects == old(heap.objects)
  {
    es := [];
    var i := 0;
    while i < |c|
      invariant 0 <= i <= |c| && |es| == i
      invariant heap.Valid()
      invariant forall j :: 0 <= j < i ==> es[j] == Element(c[j], c[j].count)
      invariant heap.refs == Bumped(old(heap.refs), Counts(es))
      invariant heap.owners == HoldAll(old(heap.owners), Counts(es), holder)
      invariant heap.inlineData == old(heap.inlineData) && heap.objects == old(heap.objects)
    {
      es := CaptureNext(c[i], es, heap, holder, old(heap.refs), old(heap.owners));
      i := i + 1;
    }
  }

  /** Restoring one more element bumps its count once, adds its handle
      once as a holder, and adds its address. */
  lemma RestoreStep(refs: map<CountId, nat>, owners: map<CountId, multiset<object?>>, done: seq<Element>, e: Element)
    ensures Bumped(refs, Counts(done + [e])) == Bump(Bumped(refs, Counts(done)), e.count)
    ensures HoldEach(owners, done + [e]) == Hold(HoldEach(owners, done), e.count, e.pointer)
    ensures AddressSet(done + [e]) == AddressSet(done) + {e.pointer}
  {
    CaptureStep(refs, owners, done, e, null);
    assert (done + [e])[..|done|] == done;
    assert (done + [e])[|done|] == e;
  }

  /** The prefix of `es` one element longer. */
  lemma PrefixGrows(es: seq<Element>, i: nat)
    requires i < |es|
    ensures es[..i + 1] == es[..i] + [es[i]]
  {
  }

  /** One turn of the loop of `restore_to`: the element's address goes into
      `to`, and its handle takes one reference on the element's count. */
  method RestoreNext(e: Element, to: Registry, heap: Heap)
    requires heap.Valid() && (e.count.Some? ==> e.count.value in heap.refs)
    modifies to, heap
    ensures heap.Valid()
    ensures heap.refs == Bump(old(heap.refs), e.count) && heap.owners == Hold(old(heap.owners), e.count, e.pointer)
    ensures to.addrs == old(to.addrs) + {e.pointer}
    ensures heap.inlineData == old(heap.inlineData) && heap.objects == old(heap.objects)
  {
    to.Add(e.pointer);
    if e.count.Some? {
      heap.Ref(e.count.value, e.pointer);
    }
  }

  /** The loop of `restore_to`: every address of `es` goes into `to`, and
      every element's handle takes one reference on the element's count. */
  method RestoreAll(es: seq<Element>, to: Registry, heap: Heap)
    requires heap.Valid() && Live(Counts(es), heap.refs)
    modifies to, heap
    ensures heap.Valid()
    ensures to.addrs == old(to.addrs) + AddressSet(es)
    ensures heap.refs == Bumped(old(heap.refs), Counts(es))
    ensures heap.owners == HoldEach(old(heap.owners), es)
    ensures heap.inlineData == old(heap.inlineData) && heap.objects == old(heap.objects)
  {
    var i := 0;
    ghost var done: seq<Element> := [];
    while i < |es|
      invariant 0 <= i <= |es| && done == es[..i]
      invariant heap.Valid()
      invariant to.addrs == old(to.addrs) + AddressSet(done)
      invariant heap.refs == Bumped(old(heap.refs), Counts(done))
      invariant heap.owners == HoldEach(old(heap.owners), done)
      invariant heap.inlineData == old(heap.inlineData) && heap.objects == old(heap.objects)
    {
      assert Counts(es)[i] == es[i].count;
      RestoreStep(old(heap.refs), old(heap.owners), done, es[i]);
      RestoreNext(es[i], to, heap);
      PrefixGrows(es, i);
      done := done + [es[i]];
      i := i + 1;
    }
    assert done == es;
  }

  class PointerSet {
    var elements: seq<Element>

    /** Every recorded non-null count is still allocated, and the set itself
        holds one reference on it per time it is recorded. */
    ghost predicate Valid(heap: Heap)
      reads this, heap
    {
      && heap.Valid()
      && Live(Counts(elements), heap.refs)
      && forall c :: c in heap.owners ==> multiset(Counts(elements))[Some(c)] <= heap.owners[c][this]
    }

    /** `Pointer_Set(const Container &)`: one element per handle, in the
        container's order; every non-null count gains one reference per
        occurrence, held by the set. */
    constructor FromContainer(c: seq<SharedPtr>, heap: Heap)
      requires heap.Valid()
      requires forall i :: 0 <= i < |c| && c[i].count.Some? ==> c[i].count.value in heap.refs
      modifies heap
      ensures Valid(heap)
      ensures |elements| == |c|
      ensures forall i :: 0 <= i < |c| ==> elements[i] == Element(c[i], c[i].count)
      ensures heap.refs == Bumped(old(heap.refs), Counts(elements))
      ensures heap.owners == HoldAll(old(heap.owners), Counts(elements), this)
      ensures heap.inlineData == old(heap.inlineData) && heap.objects == old(heap.objects)
    {
      new;
      elements := CaptureAll(c, heap, this);
      forall k | k in heap.owners
        ensures multiset(Counts(elements))[Some(k)] <= heap.owners[k][this]
      {
        HoldAllAt(old(heap.owners), Counts(elements), this, k);
      }
    }

    /** `restore_to`: every recorded address goes back into `to`, and every
        non-null recorded count gains one reference, now held by the restored
        handle. The set itself is not changed and keeps its own references. */
    method RestoreTo(to: Registry, heap: Heap)
      requires Valid(heap)
      modifies to, heap
      ensures Valid(heap)
      ensures to.addrs == old(to.addrs) + AddressSet(elements)
      ensures heap.refs == Bumped(old(heap.refs), Counts(elements))
      ensures heap.owners == HoldEach(old(heap.owners), elements)
      ensures heap.inlineData == old(heap.inlineData) && heap.objects == old(heap.objects)
    {
      RestoreAll(elements, to, heap);
      forall k | k in heap.owners
        ensures multiset(Counts(elements))[Some(k)] <= heap.owners[k][this]
      {
        HoldEachGrows(old(heap.owners), elements, k);
      }
    }
  }

  /** One count captured: it gains one reference. */
  lemma BumpOne(refs: map<CountId, nat>, c: CountId)
    requires c in refs
    ensures Bumped(refs, [Some(c)]) == refs[c := refs[c] + 1]
  {
    assert [Some(c)][..0] == [];
  }

  /** One count captured by `h`: `h` becomes one more of its holders. */
  lemma HoldOne(owners: map<CountId, multiset<object?>>, c: CountId, h: object?)
    requires c in owners
    ensures HoldAll(owners, [Some(c)], h) == owners[c := owners[c] + multiset{h}]
  {
    assert [Some(c)][..0] == [];
  }

  /** One element restored: its handle is registered and holds one more reference. */
  lemma RestoreOne(owners: map<CountId, multiset<object?>>, p: SharedPtr?, c: CountId)
    requires c in owners
    ensures AddressSet([Element(p, Some(c))]) == {p}
    ensures HoldEach(owners, [Element(p, Some(c))]) == owners[c := owners[c] + multiset{p}]
  {
    var es := [Element(p, Some(c))];
    assert es[..0] == [];
    assert HoldEach(owners, es) == Hold(owners, Some(c), p);
  }

  /** A set whose one element is on `c` holds what it should once `h` owns a reference on `c`. */
  lemma SingleHolding(owners: map<CountId, multiset<object?>>, c: CountId, h: object?)
    requires c in owners && h in owners[c]
    ensures forall k :: k in owners ==> multiset([Some(c)])[Some(k)] <= owners[k][h]
  {
    forall k | k in owners
      ensures multiset([Some(c)])[Some(k)] <= owners[k][h]
    {
      if k != c {
        assert Some(k) !in multiset([Some(c)]);
      }
    }
  }

  /** The ledger after a fresh count on `c`, held by `p`, is captured by `h`. */
  lemma FreshCapture(refs: map<CountId, nat>, owners: map<CountId, multiset<object?>>, c: CountId, p: object?, h: object?)
    ensures Bumped(refs[c := 1], [Some(c)]) == refs[c := 2]
    ensures HoldAll(owners[c := multiset{p}], [Some(c)], h) == owners[c := multiset{p} + multiset{h}]
  {
    BumpOne(refs[c := 1], c);
    HoldOne(owners[c := multiset{p}], c, h);
  }

  /** The first half of the scenario below: a fresh handle on `o`, captured
      into a set at once, so that its count carries two references. */
  method CaptureFresh(o: ObjectId, heap: Heap, reg: Registry) returns (p: SharedPtr, s: PointerSet)
    requires heap.Valid()
    modifies heap, reg
    ensures p.Valid(heap) && s.Valid(heap)
    ensures p.obj == Some(o) && p.count.Some? && p.count.value !in old(heap.refs)
    ensures s.elements == [Element(p, p.count)]
    ensures heap.refs == old(heap.refs)[p.count.value := 2]
    ensures heap.owners == old(heap.owners)[p.count.value := multiset{p as object?} + multiset{s as object?}]
    ensures heap.inlineData == old(heap.inlineData) && heap.objects == old(heap.objects)
    ensures p !in old(reg.addrs) && reg.addrs == old(reg.addrs) + {p}
  {
    p := new SharedPtr.FromObject(Some(o), heap, reg);
    ghost var c := p.count.value;
    s := new PointerSet.FromContainer([p], heap);
    assert s.elements == [Element(p, p.count)];
    assert Counts(s.elements) == [Some(c)];
    FreshCapture(old(heap.refs), old(heap.owners), c, p, s);
  }

  /** The counts through a destroy and a restore of the handle on `c`, while
      a set keeps a second reference: nothing is deleted, the count drops to
      one, and the restore brings it back to where it was. */
  lemma RefsRoundTrip(refs: map<CountId, nat>, c: CountId)
    requires c in refs && refs[c] == 2
    ensures Deleted(refs, Some(c)) == {}
    ensures Dropped(refs, Some(c)) == refs[c := 1]
    ensures Bumped(refs[c := 1], [Some(c)]) == refs
  {
    BumpOne(refs[c := 1], c);
    assert refs[c := 1][c := 2] == refs;
  }

  /** The holders through the same destroy and restore: the handle `p` leaves
      `h` as the only holder, and the restore makes `p` a holder again. */
  lemma OwnersRoundTrip(owners: map<CountId, multiset<object?>>, c: CountId, p: SharedPtr?, h: object?)
    requires c in owners && owners[c] == multiset{p as object?} + multiset{h}
    ensures Unhold(owners, Some(c), p) - {} == owners[c := multiset{h}]
    ensures HoldEach(owners[c := multiset{h}], [Element(p, Some(c))]) == owners
  {
    assert owners[c] - multiset{p as object?} == multiset{h};
    RemoveNothing(Unhold(owners, Some(c), p));
    RestoreOne(owners[c := multiset{h}], p, c);
    assert multiset{h} + multiset{p as object?} == owners[c];
    assert owners[c := multiset{h}][c := owners[c]] == owners;
  }

  /** The second half of the scenario below: the handle captured by `s` is
      destroyed and `s` is restored; the ledger ends exactly where it started,
      and the handle is registered again. */
  method DestroyAndRestore(p: SharedPtr, s: PointerSet, heap: Heap, reg: Registry)
    requires p.Valid(heap) && p.count.Some? && s.elements == [Element(p, p.count)]
    requires heap.refs[p.count.value] == 2
    requires heap.owners[p.count.value] == multiset{p as object?} + multiset{s as object?}
    modifies heap, reg
    ensures p.Valid(heap) && s.Valid(heap)
    ensures heap.refs == old(heap.refs) && heap.owners == old(heap.owners)
    ensures heap.inlineData == old(heap.inlineData) && heap.objects == old(heap.objects)
    ensures reg.addrs == old(reg.addrs) - {p} + {p}
  {
    ghost var c := p.count.value;
    assert Counts(s.elements) == [Some(c)];
    RefsRoundTrip(heap.refs, c);
    OwnersRoundTrip(heap.owners, c, p, s);
    RemoveNothing(heap.inlineData);
    p.Destroy(heap, reg);
    SingleHolding(heap.owners, c, s);
    RestoreOne(heap.owners, p, c);
    s.RestoreTo(reg, heap);
  }

  /** The multi-shot accounting at work: a handle on an object is captured
      into a snapshot, then destroyed as when the frame holding it unwinds,
      and then the snapshot is restored. The snapshot's reference keeps the
      count and the object alive across the destruction; the restore
      registers the handle again and gives it back a reference of its own,
      next to the one the snapshot keeps for further restores. */
  method SnapshotOutlivesHandle(o: ObjectId, heap: Heap, reg: Registry) returns (p: SharedPtr, s: PointerSet)
    requires heap.Valid() && o in heap.objects
    modifies heap, reg
    ensures p.Valid(heap) && s.Valid(heap)
    ensures p.obj == Some(o) && p.count.Some? && p.count.value !in old(heap.refs)
    ensures heap.refs == old(heap.refs)[p.count.value := 2]
    ensures heap.owners == old(heap.owners)[p.count.value := multiset{p as object?} + multiset{s as object?}]
    ensures heap.objects == old(heap.objects) && o in heap.objects
    ensures reg.addrs == old(reg.addrs) + {p}
  {
    p, s := CaptureFresh(o, heap, reg);
    DestroyAndRestore(p, s, heap, reg);
  }
}
