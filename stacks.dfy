/** Execution stacks and their byte copies, after effects/stack.cpp.

    Memory is an array of bytes indexed by address. A `Stack` either mirrors
    the thread's current stack or owns a freshly mapped region: 1 MiB rounded
    up to whole pages, preceded by one guard page. A `Stack_Mirror` copies the
    live part of a stack, from the stack pointer up to the top, and can write
    it back any number of times. The machine context is kept as an opaque
    value apart from the stack bounds it records. */
module Stacks {
  import opened Basics

  newtype Byte = b: int | 0 <= b < 256

  /** `stack_size`: the usable size asked for an allocated stack, 1 MiB. */
  const StackSize: nat := 1048576

  /** 2^64: `size_t` and pointer arithmetic wrap at this modulus. */
  const Word: nat := 0x1_0000_0000_0000_0000

  /** `MAP_FAILED`, the address `mmap` answers when it fails: `(void *)-1`. */
  const MapFailed: nat := Word - 1

  /** How a stack is created: `Stack::current` or `Stack::allocate`. */
  datatype Create = Current | Allocate

  /** A `ucontext_t`: the stack it runs on (`uc_stack.ss_sp` and
      `uc_stack.ss_size`) and the saved registers, of which nothing else is
      modelled. */
  datatype Context = Context(stackLow: nat, stackSize: nat, machine: nat)
  {
    /** The address just above the stack: `ss_sp + ss_size`. */
    function High(): nat
    {
      stackLow + stackSize
    }
  }

  /** A range of addresses handed to `mmap` or `munmap`. */
  datatype Region = Region(start: nat, length: nat)

  /** The function-local static of `page_size()`: 0 until the first call. */
  class PageSizeCache {
    var sz: nat

    constructor ()
      ensures sz == 0
    {
      sz := 0;
    }

    /** `page_size()`: asks the system (`osPageSize` stands for
        `getpagesize()`) only while nothing is cached, and from then on
        answers the cached value. */
    method PageSize(osPageSize: nat) returns (r: nat)
      modifies this
      ensures old(sz) == 0 ==> r == osPageSize && sz == osPageSize
      ensures old(sz) != 0 ==> r == old(sz) && sz == old(sz)
    {
      if sz == 0 {
        sz := osPageSize;
      }
      r := sz;
    }
  }

  /** `(n + page - 1) / page`: the fewest whole pages that hold `n` bytes. */
  function PagesFor(n: nat, page: nat): (k: nat)
    requires page > 0
    ensures n <= k * page
    ensures k == 0 || (k - 1) * page < n
  {
    var q := (n + page - 1) / page;
    var rem := (n + page - 1) % page;
    assert n + page - 1 == q * page + rem;
    assert q == 0 || (q - 1) * page == q * page - page;
    q
  }

  /** `((n + page - 1) / page) * page`: `n` rounded up to a whole number of
      pages, less than one page above `n`. */
  function RoundUp(n: nat, page: nat): (r: nat)
    requires page > 0
    ensures r == PagesFor(n, page) * page
    ensures n <= r < n + page
  {
    var k := PagesFor(n, page);
    assert k == 0 || (k - 1) * page == k * page - page;
    k * page
  }

  /** The length of the mapping of an allocated stack: the rounded stack
      plus one guard page. It is a whole number of pages, room for the 1 MiB
      stack and exactly one page more, and less than a second page more. */
  function MappingLength(page: nat): (r: nat)
    requires page > 0
    ensures r == (PagesFor(StackSize, page) + 1) * page
    ensures StackSize + page <= r < StackSize + 2 * page
    ensures r - page == RoundUp(StackSize, page)
  {
    RoundUp(StackSize, page) + page
  }

  /** The failure test on the answer of `mmap` as the source has it: a null
      pointer. `mmap` never reports failure that way. */
  predicate MapFailedAsWritten(memory: nat): (r: bool)
    ensures r ==> !MappingFailed(memory)
  {
    memory == 0
  }

  /** The failure test `mmap` calls for: `MAP_FAILED`. */
  predicate MappingFailed(memory: nat)
  {
    memory == MapFailed
  }

  /** Base and usable size of an allocated stack whose mapping starts at
      `memory`: the base is one page above, behind the guard page, and the
      size is what remains of the mapping. `char *` arithmetic wraps. */
  function AllocatedBase(memory: nat, page: nat): (r: nat)
    requires page > 0
    ensures memory + page < Word ==> r == memory + page
  {
    (memory + page) % Word
  }

  /** A stack, `Stack`: its context, and the base and size of the region it
      owns (null and 0 for a stack that mirrors the current one). */
  class Stack {
    var context: Context
    var stackBase: Option<nat>
    var stackSize: nat

    constructor Init(context: Context, stackBase: Option<nat>, stackSize: nat)
      ensures this.context == context && this.stackBase == stackBase && this.stackSize == stackSize
    {
      this.context, this.stackBase, this.stackSize := context, stackBase, stackSize;
    }

    /** `~Stack`, with its test the right way round: an allocated stack
        hands its whole mapping to `munmap`; the region is the answer. */
    method Destroy(cache: PageSizeCache, osPageSize: nat) returns (unmapped: Option<Region>)
      requires stackBase.Some? ==> cache.sz > 0 || osPageSize > 0
      modifies cache
      ensures stackBase.Some? ==> cache.sz == if old(cache.sz) != 0 then old(cache.sz) else osPageSize
      ensures stackBase.Some? ==> cache.sz > 0 && unmapped == Unmap(stackBase, stackSize, cache.sz)
      ensures stackBase.None? ==> unmapped == None && cache.sz == old(cache.sz)
    {
      unmapped := None;
      if stackBase.Some? {
        var page := cache.PageSize(osPageSize);
        unmapped := Some(Region((stackBase.value + Word - page) % Word, stackSize + page));
      }
    }
  }

  /** The region `~Stack` as written hands to `munmap`: only for a null base,
      and then the page just below address 0 (pointer arithmetic wraps); an
      allocated stack is never unmapped. */
  function UnmapAsWritten(base: Option<nat>, size: nat, page: nat): (r: Option<Region>)
    requires page > 0
    ensures r.Some? <==> base.None?
  {
    if base.None? then Some(Region((Word - page) % Word, size + page)) else None
  }

  /** The region `~Stack` evidently means to give back: for an allocated
      stack, its mapping from the guard page on; nothing otherwise. */
  function Unmap(base: Option<nat>, size: nat, page: nat): (r: Option<Region>)
    requires page > 0
    ensures r.Some? <==> base.Some?
  {
    if base.Some? then Some(Region((base.value + Word - page) % Word, size + page)) else None
  }

  /** Destroying an allocated stack gives back exactly the region that was
      mapped for it. */
  lemma UnmapReturnsMapping(memory: nat, page: nat)
    requires page > 0 && memory + MappingLength(page) <= Word
    ensures Unmap(Some(AllocatedBase(memory, page)), RoundUp(StackSize, page), page) == Some(Region(memory, MappingLength(page)))
  {
  }

  /** As written, an allocated stack's mapping is never given back, and a
      current-mode stack has the page below address 0 unmapped. */
  lemma UnmapAsWrittenMisses(memory: nat, page: nat)
    requires 0 < page < Word && memory + MappingLength(page) <= Word
    ensures UnmapAsWritten(Some(AllocatedBase(memory, page)), RoundUp(StackSize, page), page) == None
    ensures UnmapAsWritten(None, 0, page) == Some(Region(Word - page, page))
  {
  }

  /** As written, the failure answer of `mmap` passes the test, and the
      stack is then placed at the wrapped address `page - 1`. */
  lemma MapFailedAccepted(page: nat)
    requires 0 < page < Word
    ensures !MapFailedAsWritten(MapFailed) && MappingFailed(MapFailed)
    ensures AllocatedBase(MapFailed, page) == page - 1
  {
  }

  /** `Stack::Stack(Create)`: `getcontext` (its answer is `current`), and in
      allocate mode a request to `mmap` for one guard page plus the rounded
      stack size (`request` is the length asked for, 0 when nothing is
      mapped, and `memory` is what `mmap` answered), whose usable part
      becomes the context's stack. A failed mapping throws `std::bad_alloc`.
      The failure test is `MAP_FAILED`, not the null test the source has. */
  method NewStack(mode: Create, cache: PageSizeCache, osPageSize: nat, memory: nat, current: Context) returns (r: Try<Stack>, request: nat)
    requires mode == Allocate ==> cache.sz > 0 || osPageSize > 0
    modifies cache
    ensures mode == Current ==>
              && request == 0
              && r.Success? && fresh(r.value)
              && r.value.stackBase == None && r.value.stackSize == 0
              && r.value.context == current
              && cache.sz == old(cache.sz)
    ensures mode == Allocate ==> cache.sz == if old(cache.sz) != 0 then old(cache.sz) else osPageSize
    ensures mode == Allocate ==> cache.sz > 0 && request == MappingLength(cache.sz)
    ensures mode == Allocate ==> (r.Success? <==> !MappingFailed(memory))
    ensures mode == Allocate && r.Success? ==>
              && fresh(r.value)
              && r.value.stackBase == Some(AllocatedBase(memory, cache.sz))
              && r.value.stackSize == request - cache.sz
              && r.value.context == current.(stackLow := AllocatedBase(memory, cache.sz), stackSize := request - cache.sz)
  {
    if mode == Current {
      var s := new Stack.Init(current, None, 0);
      return Success(s), 0;
    }
    var page := cache.PageSize(osPageSize);
    var size := MappingLength(page);
    request := size;
    if MappingFailed(memory) {
      return Failure(BadAlloc), request;
    }
    var base := AllocatedBase(memory, page);
    var usable := size - page;
    var s := new Stack.Init(current.(stackLow := base, stackSize := usable), Some(base), usable);
    return Success(s), request;
  }

  /** The layout of a mapping that fits below 2^64: the guard page comes
      first, the usable stack starts right after it, holds at least 1 MiB
      and ends exactly where the mapping ends. */
  lemma GuardPageLayout(memory: nat, page: nat)
    requires page > 0 && memory + MappingLength(page) <= Word
    ensures AllocatedBase(memory, page) == memory + page
    ensures AllocatedBase(memory, page) + (MappingLength(page) - page) == memory + MappingLength(page)
    ensures MappingLength(page) - page >= StackSize
  {
  }

  /** A stack allocated and then destroyed: `munmap` is handed exactly the
      region `mmap` was asked for and answered. */
  method AllocateThenDestroy(cache: PageSizeCache, osPageSize: nat, memory: nat, current: Context)
      returns (request: nat, unmapped: Option<Region>)
    requires cache.sz > 0 || osPageSize > 0
    requires !MappingFailed(memory)
    requires memory + MappingLength(if cache.sz > 0 then cache.sz else osPageSize) <= Word
    modifies cache
    ensures unmapped == Some(Region(memory, request))
    ensures cache.sz > 0 && request == MappingLength(cache.sz)
  {
    var r;
    r, request := NewStack(Allocate, cache, osPageSize, memory, current);
    UnmapReturnsMapping(memory, cache.sz);
    unmapped := r.value.Destroy(cache, osPageSize);
  }

  /** `m` with `s` written at `at`: what `std::copy` leaves in memory. */
  function Overwrite(m: seq<Byte>, at: nat, s: seq<Byte>): (r: seq<Byte>)
    requires at + |s| <= |m|
    ensures |r| == |m|
  {
    m[..at] + s + m[at + |s|..]
  }

  /** Every byte of an overwrite comes from `s` inside `[at, at + |s|)` and
      from `m` outside it. */
  lemma OverwriteAt(m: seq<Byte>, at: nat, s: seq<Byte>, i: nat)
    requires at + |s| <= |m| && i < |m|
    ensures Overwrite(m, at, s)[i] == if at <= i < at + |s| then s[i - at] else m[i]
  {
  }

  /** The round trip: after bytes `[sp, high)` of `m0` are saved, whatever a
      computation writes inside that range is undone by writing the copy
      back, provided it wrote nothing outside it. */
  lemma {:induction false} RestoreUndoesWrites(m0: seq<Byte>, m1: seq<Byte>, sp: nat, high: nat)
    requires sp <= high <= |m0| == |m1|
    requires forall i :: 0 <= i < |m0| && !(sp <= i < high) ==> m1[i] == m0[i]
    ensures Overwrite(m1, sp, m0[sp..high]) == m0
  {
    var r := Overwrite(m1, sp, m0[sp..high]);
    forall i | 0 <= i < |m0|
      ensures r[i] == m0[i]
    {
      OverwriteAt(m1, sp, m0[sp..high], i);
    }
  }

  /** Writing the same copy twice leaves what writing it once does. */
  lemma {:induction false} OverwriteIdempotent(m: seq<Byte>, at: nat, s: seq<Byte>)
    requires at + |s| <= |m|
    ensures Overwrite(Overwrite(m, at, s), at, s) == Overwrite(m, at, s)
  {
    var once := Overwrite(m, at, s);
    var twice := Overwrite(once, at, s);
    forall i | 0 <= i < |m|
      ensures twice[i] == once[i]
    {
      OverwriteAt(once, at, s, i);
      OverwriteAt(m, at, s, i);
    }
  }

  /** `Stack_Mirror`: the stack it was taken from, that stack's context at
      the time, and the bytes from the stack pointer up to the top. */
  class StackMirror {
    const original: Stack
    const context: Context
    const stackCopy: seq<Byte>

    /** The copy ends exactly at the top of the saved stack. */
    predicate Valid()
    {
      context.stackLow + |stackCopy| <= context.High()
    }

    /** `Stack_Mirror(handler, src)`: saves the context and copies the bytes
        `[sp, ss_sp + ss_size)`; `sp` stands for `get_sp(context)`. */
    constructor Capture(src: Stack, mem: array<Byte>, sp: nat)
      requires src.context.stackLow <= sp <= src.context.High() <= mem.Length
      ensures Valid()
      ensures original == src && context == src.context
      ensures |stackCopy| == context.High() - sp
      ensures stackCopy == mem[sp..context.High()]
    {
      original := src;
      context := src.context;
      stackCopy := mem[sp..src.context.High()];
    }

    /** `restore() const`: puts the saved context back into the original
        stack and copies the saved bytes so that they end at the top of the
        stack. The mirror itself is not changed, so it can be restored again. */
    method Restore(mem: array<Byte>)
      requires Valid() && context.High() <= mem.Length
      modifies original, mem
      ensures original.context == context
      ensures original.stackBase == old(original.stackBase) && original.stackSize == old(original.stackSize)
      ensures mem[..] == Overwrite(old(mem[..]), context.High() - |stackCopy|, stackCopy)
    {
      original.context := context;
      var copyTo := context.High() - |stackCopy|;
      for k := 0 to |stackCopy|
        invariant original.context == context
        invariant original.stackBase == old(original.stackBase) && original.stackSize == old(original.stackSize)
        invariant forall i :: 0 <= i < mem.Length ==>
                    mem[i] == if copyTo <= i < copyTo + k then stackCopy[i - copyTo] else old(mem[i])
      {
        mem[copyTo + k] := stackCopy[k];
      }
      forall i | 0 <= i < mem.Length
        ensures mem[i] == Overwrite(old(mem[..]), copyTo, stackCopy)[i]
      {
        OverwriteAt(old(mem[..]), copyTo, stackCopy, i);
      }
      assert mem[..] == Overwrite(old(mem[..]), copyTo, stackCopy);
    }
  }

  /** Capturing and then restoring, whatever happened to the captured range
      in between, gives back the memory as it was at capture. */
  method CaptureRestore(src: Stack, mem: array<Byte>, sp: nat, scribble: seq<Byte>)
    requires src.context.stackLow <= sp <= src.context.High() <= mem.Length
    requires |scribble| == src.context.High() - sp
    modifies src, mem
    ensures mem[..] == old(mem[..])
    ensures src.context == old(src.context)
  {
    ghost var m0 := mem[..];
    var mirror := new StackMirror.Capture(src, mem, sp);
    for k := 0 to |scribble|
      invariant src.context == old(src.context)
      invariant forall i :: 0 <= i < mem.Length && !(sp <= i < sp + k) ==> mem[i] == m0[i]
    {
      mem[sp + k] := scribble[k];
    }
    RestoreUndoesWrites(m0, mem[..], sp, src.context.High());
    mirror.Restore(mem);
  }
}
