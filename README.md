# cpp-effects: verified model of the continuation bookkeeping

cpp-effects implements algebraic effect handlers for C++ by switching
between machine stacks. The stack switching itself, through `ucontext` and
`mmap`, is machine- and OS-specific. Around it sit self-contained pieces of
bookkeeping, and this project models those in Dafny and proves what they
promise:

- **Reference-counted handles** (`Pointers`, after `effects/pointer.h` and
  `effects/pointer.cpp`).
  - A `Shared_Count` holds a reference count. `Shared_Ptr` handles share it
    through copies, moves, assignments and destructors.
  - `make_shared` puts the count and the object in one allocation.
  - Every handle registers its address with the frame registry when built
    and unregisters it when destroyed.
  - The counts live in a `Heap` class. A ghost ledger in it records which
    handle or snapshot element holds each reference. `Heap.Valid` says that
    every count equals the number of references held on it.
- **The pointer snapshot** (`PointerSets`, after `effects/pointer_set.h`).
  - A `Pointer_Set` records each live handle's address and count, and takes
    one reference per recorded count.
  - `restore_to` re-inserts the addresses and takes one more reference per
    count. It does not change the set, so n restores add n references per
    occurrence. This is the accounting that lets a captured stack be
    resumed more than once.
- **Stacks and stack mirrors** (`Stacks`, after `effects/stack.cpp`).
  - The page-size cache.
  - The size and base arithmetic of an allocated stack: 1 MiB rounded up to
    whole pages, plus one guard page.
  - The byte copy of a stack's live part, and writing it back. This is
    proved to be a round trip, and repeatable.
- **The handler frame chain** (`Frames`, after `effects/handler_frame.cpp`).
  - A per-thread `top_handler`, created lazily.
  - `call` links a new frame to the current one.
  - `frame_main` runs the body and pops the top frame.
- **Handler construction** (`Handlers`, after `effects/handler.h`).
  - The map from effect id to clause keeps the first clause per id.
  - The list of clauses keeps every clause, in order.
  - The return handler defaults to the identity.
- **Result slots** (`HandleBodies` and `Results`, after
  `effects/handle_body.h` and `effects/result.h`).
  - Each slot holds an optional value and an optional error.
  - Reading rethrows the error if there is one. Otherwise it yields the
    value, and an empty slot throws `std::bad_optional_access`.
  - A C++ exception is an opaque `Error` value. A read answers `Success(v)`
    or `Failure(e)` (`Basics.Try`).

The model follows the code where it differs from the intent visible around
it. Each such place is modelled twice: once as written and once corrected,
with a lemma or method that exhibits the difference (see "## Findings").
The rest of the model uses the corrected member.

## Model

| member | source | states |
|---|---|---|
| Pointers.Heap.NewCount | effects/pointer.h:19-20 | a new `Shared_Count` is a fresh count with `refs` = 1, its one reference held by the creating handle; no other count changes |
| Pointers.Heap.NewInlineCount | effects/pointer.h:40-53 | a `Shared_Inline_Count` is a fresh count with `refs` = 1 plus a fresh object embedded in it |
| Pointers.Heap.Ref | effects/pointer.h:22-25 | `ref()` raises exactly that count by one and records one more holder; the ledger invariant is kept |
| Pointers.Heap.Deref | effects/pointer.h:27-31 | `deref()` lowers the count by one and answers true exactly when the count was 1, that is when it is now zero; the count stays allocated |
| Pointers.Heap.ManualDelete | effects/pointer.h:33-49 | `manual_delete()`: a plain `Shared_Count` answers true and a `Shared_Inline_Count` false; a count answers false exactly when it embeds its object |
| Pointers.Heap.Release | effects/pointer.h:128-134 | the destructor's release leaves `refs` as `Dropped` (count deleted exactly on its last reference), removes the releasing holder from the ledger, deletes the count's entry in the inline table and its holder entry exactly when the count goes (`Deleted`), and frees the objects `Freed` names |
| Pointers.Heap.Free | effects/pointer.h:129-133 | with no reference left, the count is deleted; a plain count has the handle's object deleted (`manual_delete()` true), an inline count its embedded one (false) |
| Pointers.Freed | effects/pointer.h:128-134 | at most one object is freed, only on the last reference: the embedded object of an inline count, else the handle's object if not null |
| Pointers.Deleted | effects/pointer.h:129-132 | the counts a release deletes: the released count exactly when it held its last reference; `Dropped` is `Decremented` with those counts removed |
| Pointers.BumpDroppedKeepNoneAtZero | effects/pointer.h:22-31 | `ref()` and the destructor's release keep every allocated count at one or more references, and the release deletes a count exactly when it held one |
| Pointers.BumpThenDropped | effects/pointer.h:93-103 | taking a reference and releasing one on the same count leaves all counts as they were, which is why the source refs before it derefs |
| Pointers.DecrementedKeepsDeadCount | effects/pointer.h:96-97 | a bare `deref()` of a last reference leaves the count allocated at 0, breaking the invariant, where the destructor would free count and object |
| Pointers.Registry.Add | effects/pointer.cpp:6-8 | `add_shared_ptr` puts exactly that address into the registry |
| Pointers.Registry.Remove | effects/pointer.cpp:10-12 | `remove_shared_ptr` takes exactly that address out of the registry |
| Pointers.SharedPtr.Empty | effects/pointer.h:82 | the empty handle has null object and count, changes no count, and is registered |
| Pointers.SharedPtr.FromObject | effects/pointer.h:85 | a handle on an existing object gets a fresh plain count with `refs` = 1 held by it, and is registered |
| Pointers.SharedPtr.MakeShared | effects/pointer.h:189-193 | `make_shared` yields a handle on a fresh inline count with `refs` = 1 and a fresh object embedded in it, with no extra `ref()`; the handle is registered |
| Pointers.SharedPtr.Copy | effects/pointer.h:87-91 | the copy shares object and count, the count gains one reference exactly when it is not null, and the copy is registered |
| Pointers.SharedPtr.Move | effects/pointer.h:105-109 | the new handle takes object and count with `refs` unchanged (its reference changes holder), the source is nulled, the new handle is registered |
| Pointers.SharedPtr.Release | effects/pointer.h:127-134 | `~Shared_Ptr` gives up the handle's reference: `refs` as `Dropped`, the handle no longer among the count's holders, and the count, its inline entry and the object it owns freed exactly on the last reference |
| Pointers.SharedPtr.Destroy | effects/pointer.cpp:10-12 | destruction releases the reference as `~Shared_Ptr` does (counts, holders, inline entries and objects as in `Release`) and then unregisters exactly this address; the base destructor touches no count |
| Pointers.SharedPtr.AssignAsWritten | effects/pointer.h:93-103 | copy assignment as written: both handles end on the source's object and count; `refs` is the source count bumped and the old count decremented without being freed; the handle becomes a holder of the new count and stops holding the old one; no inline entry or object is freed |
| Pointers.SharedPtr.Assign | effects/pointer.h:93-103 | copy assignment, corrected: same object and count as the source; `refs` is the bump followed by the destructor's release; the holders and inline entries follow the same bump and release (`Hold`, `Unhold`, `Deleted`); the source still holds its reference; self-assignment changes nothing |
| Pointers.SharedPtr.MoveAssignAsWritten | effects/pointer.h:111-125 | move assignment as written: self-assignment changes nothing, ledger included; otherwise the handle takes the source's fields, the source is nulled, the old count is decremented without being freed, and the source's reference changes holder from the source to the handle (`Transferred`) |
| Pointers.SharedPtr.MoveAssign | effects/pointer.h:111-125 | move assignment, corrected: self-assignment leaves fields, counts, holders, inline entries and objects unchanged; otherwise the old count is released as the destructor does (objects and inline entries freed as `Freed` and `Deleted` say) and the source's reference changes holder to the handle |
| Pointers.ConstructDestroy | effects/pointer.cpp:6-12 | building a handle on an object and destroying it leaves counts, holders and registry as they were and deletes the object |
| Pointers.CopyDestroy | effects/pointer.h:87-91 | copying a handle and destroying the copy leaves counts, objects and registry as they were |
| Pointers.SharedPtr.Get | effects/pointer.h:146-148 | `get()` answers the object pointer, null for an empty or moved-from handle; `Comparisons` states what `==`, `!=` and `operator bool` make of it |
| Pointers.SharedPtr.IsSet | effects/pointer.h:159-161 | `operator bool` is true exactly when `get()` is not null |
| Pointers.Equal | effects/pointer.h:175-178 | `operator ==` compares the two objects, so equal handles are both set or both null |
| Pointers.NotEqual | effects/pointer.h:180-183 | `operator !=` compares the two objects, so two null handles are never unequal |
| Pointers.Comparisons | effects/pointer.h:175-183 | `==` and `!=` are negations of each other and compare only the objects, so handles on the same object with different counts are equal; a handle is true exactly when its object is not null |
| PointerSets.Capture | effects/pointer_set.h:41-45 | an element records the handle's address and current count and takes one reference on a non-null count, held by the set (`Hold`) |
| PointerSets.Copy | effects/pointer_set.h:47-51 | copying an element keeps address and count and adds one reference to a non-null count, held by the set |
| PointerSets.Move | effects/pointer_set.h:65-69 | moving an element keeps address and count and nulls the source |
| PointerSets.Assign | effects/pointer_set.h:53-63 | element copy assignment refs the new count, then decrements the old one without freeing it, and takes the source's fields; the set holds one more reference on the new count and one fewer on the old |
| PointerSets.MoveAssign | effects/pointer_set.h:71-76 | element move assignment swaps the two elements' addresses and counts |
| PointerSets.CaptureAll | effects/pointer_set.h:19-24 | one element per handle in container order, each count bumped once per occurrence and each new reference held by the set (`HoldAll`) |
| PointerSets.CaptureNext | effects/pointer_set.h:21-23 | one turn of the capture loop: the next element is pushed and its count gains one reference held by the set |
| PointerSets.HoldAllAt | effects/pointer_set.h:19-24 | after capture, the set holds one more reference on each count per occurrence of it, and no other holder changes |
| PointerSets.PointerSet.FromContainer | effects/pointer_set.h:17-24 | the set has one element per handle, in order, each with the handle's address and count; every non-null count gains one reference per occurrence, and the set is recorded as the holder of each; the set's invariant (it holds one reference per recorded count) is established |
| PointerSets.PointerSet.RestoreTo | effects/pointer_set.h:26-34 | `restore_to` adds every recorded address to the target and one reference per recorded non-null count, held by the restored handle (`HoldEach`); the set is unchanged and still holds its own references |
| PointerSets.RestoreNext | effects/pointer_set.h:29-33 | one turn of the restore loop: the address goes into the target and a non-null count gains one reference held by that handle |
| PointerSets.RestoreAll | effects/pointer_set.h:28-34 | the restore loop adds every recorded address and bumps each count once per occurrence, each new reference held by the restored handle |
| PointerSets.HoldEachGrows | effects/pointer_set.h:28-34 | a restore only adds holders, so every reference held before, the set's own included, is still held |
| PointerSets.CaptureFresh | effects/pointer_set.h:17-24 | a fresh handle on an object captured into a set at once: its new count has two references, one held by the handle and one by the set |
| PointerSets.RefsRoundTrip | effects/pointer_set.h:28-33 | a destroy of the handle followed by a restore of the set that captured it deletes nothing and returns the count to where it was |
| PointerSets.OwnersRoundTrip | effects/pointer_set.h:28-33 | the same destroy and restore leaves the set as the only holder in between, and the handle a holder again afterwards |
| PointerSets.DestroyAndRestore | effects/pointer_set.h:26-34 | destroying a captured handle and restoring the set leaves counts, holders, inline entries and objects exactly as they were, both valid, and the handle registered again |
| PointerSets.SnapshotOutlivesHandle | effects/pointer_set.h:17-34 | capture a fresh handle, destroy it, restore the set: the object survives, the count is live at 2, held by the handle and by the set, and the handle is registered |
| PointerSets.BumpedAt | effects/pointer_set.h:29-33 | one restore raises each count by the number of times it is recorded and leaves all other counts alone |
| PointerSets.RestoredAt | effects/pointer_set.h:28 | since `restore_to` is `const`, n restores raise each count by n times the number of times it is recorded |
| Stacks.PageSizeCache.PageSize | effects/stack.cpp:13-20 | `page_size()` asks the system only while nothing is cached, and from then on answers the cached value |
| Stacks.PagesFor | effects/stack.cpp:28 | the page count is the least number of whole pages that hold the size |
| Stacks.RoundUp | effects/stack.cpp:28 | the rounded size is a whole number of pages, at least the size and less than one page above it |
| Stacks.MappingLength | effects/stack.cpp:27-29 | the mapping is a whole number of pages, at least 1 MiB plus one page and less than 1 MiB plus two pages: the rounded stack size plus exactly one guard page |
| Stacks.MapFailedAsWritten | effects/stack.cpp:32 | the failure test as written, a null answer from `mmap`, never catches `MAP_FAILED` |
| Stacks.GuardPageLayout | effects/stack.cpp:28-38 | in a mapping below 2^64 the guard page comes first, the usable stack starts right after it, holds at least 1 MiB and ends where the mapping ends |
| Stacks.AllocatedBase | effects/stack.cpp:37 | the stack base is one page above the mapping start (`char *` arithmetic wraps at 2^64) |
| Stacks.NewStack | effects/stack.cpp:23-43 | current mode: nothing is requested from `mmap`, null base, size 0, the current context; allocate mode: the length requested from `mmap` is `MappingLength` of the page size, the call fails with `bad_alloc` exactly when `mmap` answered `MAP_FAILED` (the corrected test; the source tests null at stack.cpp:32), otherwise the base is one page into the mapping and the usable size is the requested length less that page, and the context's stack is set to them |
| Stacks.Stack.Destroy | effects/stack.cpp:45-51 | `~Stack`, corrected: an allocated stack hands its whole mapping to `munmap`, a current-mode stack nothing; the page-size cache behaves as `page_size()` does |
| Stacks.AllocateThenDestroy | effects/stack.cpp:23-51 | allocating a stack and destroying it (corrected `~Stack`) hands `munmap` exactly the region requested from and answered by `mmap` |
| Stacks.UnmapAsWritten | effects/stack.cpp:45-51 | as written, `munmap` is called exactly when the base is null |
| Stacks.Unmap | effects/stack.cpp:45-51 | corrected, `munmap` is called exactly when the base is not null |
| Stacks.UnmapReturnsMapping | effects/stack.cpp:31-38 | for an allocated stack, the unmapped region is exactly the region mapped for it |
| Stacks.UnmapAsWrittenMisses | effects/stack.cpp:46 | as written, an allocated stack's mapping is never given back, and a current-mode stack has the page below address 0 unmapped |
| Stacks.MapFailedAccepted | effects/stack.cpp:31-33 | `MAP_FAILED` passes the null test as written, and the stack is then based at the wrapped address page - 1 |
| Stacks.Overwrite | effects/stack.cpp:93 | `std::copy` into memory keeps its length |
| Stacks.OverwriteAt | effects/stack.cpp:92-93 | after the copy, each byte comes from the copy inside the target range and is unchanged outside it |
| Stacks.RestoreUndoesWrites | effects/stack.cpp:72-93 | writing the saved bytes back undoes any writes confined to the captured range |
| Stacks.OverwriteIdempotent | effects/stack.cpp:86-93 | restoring twice leaves the memory restoring once does |
| Stacks.StackMirror.Capture | effects/stack.cpp:72-84 | the mirror saves the stack's context and exactly the bytes `[sp, ss_sp + ss_size)`, `high - sp` of them |
| Stacks.StackMirror.Restore | effects/stack.cpp:86-94 | `restore` puts the saved context back into the original stack, leaves that stack's base and size alone, and writes the copy so that it ends at the stack's top; the mirror is unchanged |
| Stacks.CaptureRestore | effects/stack.cpp:72-94 | capture, any writes to the captured range, then restore: memory and context are as at capture |
| Handlers.FirstById | effects/handler.h:48-51 | the map the constructor builds from the clauses: every key maps to a clause of the list that carries that id; `FirstByIdKeys`, `FirstByIdKeepsFirst` and `FirstByIdSize` state the rest |
| Handlers.FirstByIdKeys | effects/handler.h:48-51 | an id is a key of the clause map exactly when some clause carries it |
| Handlers.FirstByIdKeepsFirst | effects/handler.h:49 | `insert` does not overwrite: the clause kept for an id is the first clause with that id |
| Handlers.FirstByIdSize | effects/handler.h:48-51 | the map has no more entries than there are clauses |
| Handlers.Identity | effects/handler.h:36 | the default return handler returns its input |
| Handlers.Handler.Single | effects/handler.h:35-41 | the single-clause handler's map has exactly one entry, the clause under its id; `unique_ptrs` holds the clause; the given return handler is stored |
| Handlers.Handler.Multi | effects/handler.h:44-52 | the multi-clause handler's map keeps the first clause per id, `unique_ptrs` keeps every clause in order, and the given return handler is stored |
| Handlers.SingleWithDefault | effects/handler.h:35-41 | without a return handler, a single-clause handler passes values through unchanged |
| Handlers.MultiWithDefault | effects/handler.h:44-52 | without a return handler, a multi-clause handler passes values through unchanged |
| HandleBodies.HandleBodyResult.Result | effects/handle_body.h:23-29 | a stored error is rethrown even next to a value; otherwise the value, and an empty slot throws `bad_optional_access` |
| HandleBodies.HandleBodyResult.SetResult | effects/handle_body.h:31-33 | `set_result` replaces the value and keeps the error; the next read gives the value unless an error is stored |
| HandleBodies.HandleBodyResult.SetError | effects/handle_body.h:35-37 | `set_error` replaces the error and keeps the value; every later read fails with it |
| HandleBodies.HandleBodyVoid.Result | effects/handle_body.h:47-51 | the void read succeeds exactly when no error is stored |
| HandleBodies.HandleBodyVoid.SetError | effects/handle_body.h:53-55 | the void `set_error` stores the error and the read then fails with it |
| HandleBodies.Run | effects/handle_body.h:69 | running the body and the return handler gives the body's error, or the return handler's outcome on the body's value |
| HandleBodies.HandleBodyImpl.constructor | effects/handle_body.h:64-65 | the body, the return handler and the result slot are stored as given |
| HandleBodies.HandleBodyImpl.Call | effects/handle_body.h:67-73 | `call()` stores the return handler's value when nothing throws, and otherwise stores the error and keeps the old value; on a clean slot the read then equals `Run` |
| HandleBodies.HandleBodyVoidImpl.constructor | effects/handle_body.h:82-83 | the body, the return handler and the result slot are stored as given (the source declares this constructor private) |
| HandleBodies.HandleBodyVoidImpl.Call | effects/handle_body.h:85-91 | the void `call()` stores the body's error if it throws and otherwise changes nothing; the return handler is not called |
| Results.Result.constructor | effects/result.h:22 | a fresh holder has neither value nor error, so reading it throws `bad_optional_access` |
| Results.Result.Read | effects/result.h:25-31 | the error is rethrown whatever the value; otherwise the value, and an empty holder throws `bad_optional_access` |
| Results.Result.Set | effects/result.h:34-36 | `set` corrected: the holder's value becomes the argument, the error is kept |
| Results.Result.SetAsWritten | effects/result.h:34-36 | `set` as written: no read of the holder changes |
| Results.Result.SetError | effects/result.h:39-41 | `set_error` stores the error and keeps the value; every later read fails with the error |
| Results.SetThenReadAsWritten | effects/result.h:34-36 | with `set` as written, a fresh holder given a value still throws `bad_optional_access` when read |
| Results.SetThenRead | effects/result.h:34-36 | with the corrected `set`, a fresh holder gives the value back |
| Results.VoidResult.Read | effects/result.h:62-66 | the void read succeeds exactly when no error is set |
| Results.VoidResult.Set | effects/result.h:69 | the void `set()` changes no read |
| Results.VoidResult.SetError | effects/result.h:72-74 | the void `set_error` stores the error and the read then fails with it |
| Results.VoidSetKeepsRead | effects/result.h:69 | the void `set()` changes no read: a clean holder still succeeds and one with an error still fails with it |
| Frames.HandlerFrame.constructor | effects/handler_frame.cpp:19-20 | a new frame has no predecessor and no clauses, on a stack of the given mode |
| Frames.Thread.constructor | effects/handler_frame.cpp:9 | a thread starts with no top frame |
| Frames.Thread.Current | effects/handler_frame.cpp:12-17 | `current()` creates a root frame in `Stack::current` mode with no predecessor exactly when there is no top, and answers the top |
| Frames.CurrentTwice | effects/handler_frame.cpp:12-17 | a second `current()` answers the same frame as the first |
| Frames.Thread.FrameMain | effects/handler_frame.cpp:33-43 | `frame_main` runs the body once, storing its outcome, then makes the top's predecessor the new top and deletes the old top, popping exactly one frame |
| Frames.Thread.CallAsWritten | effects/handler_frame.cpp:22-31 | as written: the new frame is in allocate mode, has the given clauses and `current()` as predecessor, and is never made the top, so `frame_main` pops the frame below it and leaves the new frame live, pointing at a deleted frame |
| Frames.Thread.Call | effects/handler_frame.cpp:22-31 | corrected: the new frame has the given clauses and `current()` as predecessor, is the top while the body runs, and is deleted after it, leaving the chain as `current()` left it |
| Frames.CallOnNewThreadAsWritten | effects/handler_frame.cpp:22-43 | as written, a handler call on a fresh thread delivers the body's outcome, but leaves no top frame, the root deleted and the handler's frame live |
| Frames.CallOnNewThread | effects/handler_frame.cpp:22-43 | corrected, a handler call on a fresh thread delivers the body's outcome and leaves the root on top and live, with the handler's frame deleted |

## Left out

- The atomicity of `refs` (`std::atomic`) is not modelled. Counts are plain naturals, because the model has no threads.
- `PLN` debug logging is not modelled; it only prints.
- `Stack::start` and `Stack::resume` are not modelled: their context switches (`makecontext`, `swapcontext`, `setcontext`) are machine state. `Thread.Call` and `Thread.CallAsWritten` call `FrameMain` directly where the source switches stacks.
- `getcontext`, `mmap`, `mprotect`, `munmap` and `getpagesize` are system calls, so they are not modelled.
  - Their answers are parameters: `current`, `memory` and `osPageSize`.
  - `munmap` is represented by the region it would be given.
- `get_sp` reads a machine register, so the stack pointer is the parameter `sp`.
- The saved context is an opaque value, apart from the stack bounds it records.
- `Stack_Mirror`'s `handler` field is not modelled; nothing in the mirror's operations reads it.
- A frame's `Stack` is represented only by its creation mode. Stack allocation is modelled separately in `Stacks.NewStack`.
- `Handler_Frame::find`, `add_shared_ptr`, `remove_shared_ptr` and `resume_continuation` are not modelled. Their bodies are not part of this model. The registry is an abstract set of addresses (`Pointers.Registry`), with no frame-level storage.
- `continuation.h`, `continuation.cpp`, `captured_effect.h`, `util.h`, `effect.h`, `handler_clause.h`, `handler_clause_decl.h`, `handle.h` and `stack.h` are not part of this model. They hold declarations, stubs or typed glue. An effect is represented by its numeric id, and a clause (`Handlers.HandlerClause`) by the id it handles.
- The converting constructor of `Shared_Ptr` is not modelled separately. With types erased, it is the copy constructor `Pointers.SharedPtr.Copy`.
- `operator*` and `operator->` are not modelled. `operator->` only yields the object, as `get()` does. `operator*` at effects/pointer.h:150-152 returns a `T *` from a function declared to return `T &`, so it does not compile once instantiated; nothing in it is left to model.
- The inline-count constructor of `Shared_Ptr` is modelled only inside `Pointers.SharedPtr.MakeShared`, its one caller.
- Object types are erased: an object is an address, and the destructors of managed objects are not modelled.
- `Pointer_Set::Element` has no destructor in the source, so the model gives elements none either.
  - Element values are Dafny values, not objects.
  - A set's references are never given back by destroying the set or its elements.
- The default `Pointer_Set()` constructor is declared but has no body, so it is not modelled.
- Exceptions are `Basics.Error` values, not C++ unwinding.
- Bodies and return handlers are total functions answering `Success` or `Failure`. A body that itself installs handlers or raises effects is not modelled.
- Integers are unbounded except where wrap-around matters: pointer and `size_t` arithmetic on stack addresses is taken modulo 2^64 (`Stacks.Word`).
- `Handlers.Handler.Multi` keeps `unique_ptrs` as the list of clauses, not as owning smart pointers.
- `PointerSets.PointerSet.RestoreTo` is stated for one call. Restoring n times is stated over values by `PointerSets.RestoredAt`.
- Frames.Thread.Call: deletes the popped frame at once, as `frame_main` does. It does not model the deferred deletion the corrected design also needs, because a frame's stack is represented only by its creation mode, so the stack still in use is not visible.
- `Frames.Thread.Call` and `Frames.Thread.CallAsWritten` cover a body that runs to completion. A body suspended by an effect, which returns to `call` early, is not modelled.

## Findings

| source | as written | input that shows it | evidently intended | confidence | as-written member | corrected member |
|---|---|---|---|---|---|---|
| effects/result.h:34-36 | `value = std::move(value)` inside `set(T value)` names the parameter on both sides, so the member is never assigned | a fresh `Result<int>`, then `set(1)`, then `result()`: throws `std::bad_optional_access` | the member `value` receives the argument | high, not executed | Results.SetThenReadAsWritten | Results.SetThenRead |
| effects/pointer.h:93-103 | copy assignment calls `count->deref()` and ignores its answer | a handle holding the only reference on a plain count is assigned from another handle: `refs` becomes 0, and neither the count nor the object is ever freed | release the old reference as `~Shared_Ptr` does, freeing on zero | high, not executed | Pointers.SharedPtr.AssignAsWritten | Pointers.SharedPtr.Assign |
| effects/pointer.h:111-125 | move assignment calls `count->deref()` and ignores its answer | a handle holding the only reference on a plain count is move-assigned from another handle: the count and object leak with `refs` = 0 | release the old reference as `~Shared_Ptr` does | high, not executed | Pointers.SharedPtr.MoveAssignAsWritten | Pointers.SharedPtr.MoveAssign |
| effects/stack.cpp:45-51 | `~Stack` unmaps only when `stack_base` is null | destroying an allocate-mode stack unmaps nothing; destroying a current-mode stack calls `munmap(null - page, page)` | unmap when `stack_base` is not null | high, not executed | Stacks.UnmapAsWrittenMisses | Stacks.UnmapReturnsMapping |
| effects/stack.cpp:31-33 | a failed `mmap` is detected by a null answer | `mmap` fails and answers `MAP_FAILED` (address 2^64 - 1): no `bad_alloc` is thrown and the stack is based at the wrapped address `page - 1` | compare against `MAP_FAILED` | high, not executed | Stacks.MapFailedAccepted | Stacks.NewStack |
| effects/handler_frame.cpp:22-31 | `call` never makes the new frame `top_handler`, while `frame_main` unlinks and deletes `top_handler` | `call` on a fresh thread: `frame_main` deletes the root frame, `top_handler` becomes null, and the new frame is never deleted and points at the deleted root | set `top_handler` to the new frame before starting it, and defer the deletion at effects/handler_frame.cpp:42 to code running on another stack: with `~Stack` corrected as well, the frame `frame_main` deletes owns the stack `frame_main` is running on, which would be unmapped under it (as written, on a fresh thread the deleted frame is the root, whose context is the `uc_link` target the finished stack returns to) | medium, not executed | Frames.CallOnNewThreadAsWritten | Frames.CallOnNewThread |
