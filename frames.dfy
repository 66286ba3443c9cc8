/** The per-thread chain of handler frames, after effects/handler_frame.cpp.

    Each thread has a `top_handler` link, null until the first `current()`
    creates a root frame that runs on the thread's own stack. `call` makes a
    frame on a freshly allocated stack, links it to `current()` through
    `previous`, copies the clause map into it and starts the body there;
    `frame_main` runs the body, makes the top frame's `previous` the new top
    and deletes the old top.

    As written, `call` never makes its new frame the top, so `frame_main`
    pops and deletes the frame below it (the root, on a fresh thread) while
    the new frame is never deleted and is left pointing at a deleted frame.
    `CallAsWritten` models that; `Call` sets `top_handler` to the new frame
    first, which is what the unlinking in `frame_main` expects.

    A frame's stack is represented by its creation mode; the stack switch
    that `start` performs is a direct call of `FrameMain`. */
module Frames {
  import opened Basics
  import opened Stacks
  import opened Handlers
  import opened HandleBodies

  /** `Handler_Frame`. */
  class HandlerFrame {
    const stackMode: Create
    var previous: HandlerFrame?
    var clauses: map<nat, HandlerClause>

    /** `Handler_Frame(Stack::Create)`: no predecessor and no clauses. */
    constructor (stackMode: Create)
      ensures this.stackMode == stackMode && previous == null && clauses == map[]
    {
      this.stackMode := stackMode;
      previous := null;
      clauses := map[];
    }
  }

  /** One thread's `top_handler`, with the frames that are allocated and not
      yet deleted (`live`) and the chain reached from `top` (`chain`). */
  class Thread {
    var top: HandlerFrame?
    ghost var chain: seq<HandlerFrame>
    ghost var live: set<HandlerFrame>

    /** `chain` lists the frames from `top` through `previous` down to a
        frame with none, each once and each still allocated. */
    ghost predicate Valid()
      reads this, chain
    {
      && top == (if chain == [] then null else chain[0])
      && (forall i :: 0 <= i < |chain| ==> chain[i] in live)
      && (forall i, j :: 0 <= i < j < |chain| ==> chain[i] != chain[j])
      && (forall i :: 0 <= i < |chain| - 1 ==> chain[i].previous == chain[i + 1])
      && (chain != [] ==> chain[|chain| - 1].previous == null)
    }

    /** A new thread has no frames. */
    constructor ()
      ensures Valid() && top == null && chain == [] && live == {}
    {
      top := null;
      chain := [];
      live := {};
    }

    /** `current()`: the top frame, after creating a root frame in
        `Stack::current` mode when there is none. */
    method Current() returns (f: HandlerFrame)
      requires Valid()
      modifies this
      ensures Valid() && top == f && chain != [] && chain[0] == f
      ensures old(top) != null ==> f == old(top) && chain == old(chain) && live == old(live)
      ensures old(top) == null ==>
                && fresh(f) && f.stackMode == Create.Current && f.previous == null
                && chain == [f] && live == old(live) + {f}
    {
      if top == null {
        top := new HandlerFrame(Create.Current);
        chain := [top];
        live := live + {top};
      }
      f := top;
    }

    /** `frame_main`: runs the body, then unlinks the top frame and deletes
        it, popping exactly one frame off the chain. */
    method FrameMain<A, R>(body: HandleBodyImpl<A, R>)
      requires Valid() && top != null
      modifies this, body.slot
      ensures Valid()
      ensures chain == old(chain)[1..] && live == old(live) - {old(top)}
      ensures old(body.slot.errorValue).None? ==> body.slot.Result() == Run(body.toCall, body.returnHandler)
    {
      body.Call();
      var current := top;
      top := current.previous;
      chain := chain[1..];
      live := live - {current};
    }

    /** `call` as written: the new frame is linked below `current()` but
        never made the top, so `frame_main` pops the frame that was on top
        after `current()`. The new frame stays allocated, pointing at the
        frame just deleted. */
    method CallAsWritten<A, R>(body: HandleBodyImpl<A, R>, clauses: map<nat, HandlerClause>) returns (ghost frame: HandlerFrame)
      requires Valid()
      modifies this, body.slot
      ensures Valid()
      ensures fresh(frame) && frame.stackMode == Allocate && frame.clauses == clauses
      ensures frame in live && frame.previous != null && frame.previous !in live
      ensures old(top) != null ==> frame.previous == old(top) && chain == old(chain)[1..]
      ensures old(top) == null ==> chain == [] && top == null
      ensures old(body.slot.errorValue).None? ==> body.slot.Result() == Run(body.toCall, body.returnHandler)
    {
      var f := new HandlerFrame(Allocate);
      var p := Current();
      f.previous := p;
      f.clauses := clauses;
      live := live + {f};
      FrameMain(body);
      frame := f;
    }

    /** `call` with the new frame made the top before its body starts: the
        body runs with the new frame on top, and `frame_main` then deletes
        it and gives the chain back as `current()` left it. */
    method Call<A, R>(body: HandleBodyImpl<A, R>, clauses: map<nat, HandlerClause>) returns (ghost frame: HandlerFrame)
      requires Valid()
      modifies this, body.slot
      ensures Valid()
      ensures fresh(frame) && frame.stackMode == Allocate && frame.clauses == clauses
      ensures frame !in live && frame.previous == top
      ensures old(top) != null ==> top == old(top) && chain == old(chain) && live == old(live)
      ensures old(top) == null ==>
                && top != null && fresh(top) && top.stackMode == Create.Current && top.previous == null
                && chain == [top] && live == old(live) + {top}
      ensures old(body.slot.errorValue).None? ==> body.slot.Result() == Run(body.toCall, body.returnHandler)
    {
      var f := new HandlerFrame(Allocate);
      var p := Current();
      assert f !in live && f !in chain;
      f.previous := p;
      f.clauses := clauses;
      top := f;
      chain := [f] + chain;
      live := live + {f};
      FrameMain(body);
      frame := f;
    }
  }

  /** On a new thread, `current()` twice gives the same root frame, which
      runs on the thread's own stack and has no predecessor. */
  method CurrentTwice() returns (first: HandlerFrame, second: HandlerFrame)
    ensures first == second
    ensures first.stackMode == Create.Current && first.previous == null
  {
    var t := new Thread();
    first := t.Current();
    second := t.Current();
  }

  /** Handling a body on a new thread with `call` as written: the body's
      outcome reaches the slot, but afterwards the thread has no top frame,
      the root frame has been deleted and the handler's frame has not. */
  method CallOnNewThreadAsWritten<A, R>(toCall: () -> Try<A>, returnHandler: A -> Try<R>, clauses: map<nat, HandlerClause>)
    returns (result: Try<R>, topAfter: HandlerFrame?, ghost rootDeleted: bool, ghost frameDeleted: bool)
    ensures result == Run(toCall, returnHandler)
    ensures topAfter == null && rootDeleted && !frameDeleted
  {
    var slot := new HandleBodyResult<R>();
    var body := new HandleBodyImpl(toCall, returnHandler, slot);
    var t := new Thread();
    var root := t.Current();
    ghost var frame := t.CallAsWritten(body, clauses);
    result := slot.Result();
    topAfter := t.top;
    rootDeleted := root !in t.live;
    frameDeleted := frame !in t.live;
  }

  /** Handling a body on a new thread with the corrected `call`: the body's
      outcome reaches the slot, the root frame is the top again and is
      still allocated, and the handler's frame has been deleted. */
  method CallOnNewThread<A, R>(toCall: () -> Try<A>, returnHandler: A -> Try<R>, clauses: map<nat, HandlerClause>)
    returns (result: Try<R>, root: HandlerFrame, topAfter: HandlerFrame?, ghost rootDeleted: bool, ghost frameDeleted: bool)
    ensures result == Run(toCall, returnHandler)
    ensures topAfter == root && root.stackMode == Create.Current && root.previous == null
    ensures !rootDeleted && frameDeleted
  {
    var slot := new HandleBodyResult<R>();
    var body := new HandleBodyImpl(toCall, returnHandler, slot);
    var t := new Thread();
    root := t.Current();
    ghost var frame := t.Call(body, clauses);
    result := slot.Result();
    topAfter := t.top;
    rootDeleted := root !in t.live;
    frameDeleted := frame !in t.live;
  }
}
