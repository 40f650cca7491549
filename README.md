# uvw typed emitter, modelled in Dafny

uvw wraps libuv handles in C++ objects. Each object is also an event
emitter, a per-object publish/subscribe store:

- `on<K>` and `once<K>` register a listener for event kind `K` and return a
  connection token;
- `erase(token)` removes one registration;
- `clear<K>()` and `clear()` remove the listeners of one kind or of every kind;
- `empty<K>()` and `empty()` report whether any live listener remains;
- `publish<K>` (the test emitter's `emit()`) invokes the listeners of `K`, in
  registration order. A listener may change the emitter while this happens.

The emitter's contract is fixed by the test file `test/uvw/emitter.cpp`. This
project models that emitter and the `ErrorEvent` value type the same file
exercises. It then proves the properties the test checks, stated as lemmas
over emitter states rather than along the test's one run. Each lemma holds
under the condition its row names, and not beyond it:
- the `on`/`once` lemmas assume every listener already registered for the
  kind does nothing;
- the reentrant-callback lemmas assume the reentrant listener is the first
  entry of its kind;
- the general pass lemmas (`PublishFacts`, `PublishInvokesLive`,
  `VisitNeverCalls`) hold for any listener scripts.

## Files

- `error_event.dfy` (module `ErrorEvents`): the error event, a signed engine
  code. It covers `code()`, `translate`, the bool conversion and
  `name()`/`what()` over a lookup table.
- `emitter_state.dfy` (module `EmitterState`): the emitter's state as a value.
  - For each kind there is an ordered list of entries. Each entry has a
    token id, a one-shot flag, a tombstone flag and the listener.
  - The module also holds the next token id and the kinds whose dispatch is
    in progress.
  - It defines functions for register, erase, clear one kind and clear all,
    and the compaction that drops tombstones.
- `dispatch.dfy` (module `Dispatching`): one publish pass as a function.
  It interprets each invoked listener's steps, then compacts. It proves
  lemmas about the pass, including the two reentrant callbacks of the test.
- `emitter.dfy` (module `Emitters`): the class `TestEmitter`. Its fields are
  changed in place by each operation, and `Publish` is a loop over the list
  of the published kind. Each method is proved equal to the matching
  function of the two modules above.
- `emitter_test.dfy` (module `EmitterTests`): one method per test case.
  - Each method makes the same calls on a `TestEmitter` as its test case.
  - It returns the booleans the case's assertions observe, in order.
  - Its postcondition is the list of values the test expects.

## Modelling decisions

- **The emitter header is not part of this model.** The model fixes the
  mechanics below. They are consistent with every observation of the test,
  but the test does not pin all of them down. It cannot tell tombstoning
  from removal during a dispatch. Nor can it tell whether a do-nothing
  listener appended mid-pass is invoked in the same pass.
  - While kind `K` is being dispatched, `erase` and `clear` only tombstone
    entries of `K`. Outside a dispatch they remove the entries.
  - A pass visits the entries that were in the list when it began, skipping
    any that are tombstoned when the cursor reaches them. Entries appended
    during the pass are left for the next pass.
  - When the pass ends, the list is compacted. Tombstones are dropped, and so
    are one-shot entries the pass consumed.
  - `empty` counts only live (non-tombstoned) entries.
- **Dispatch order is registration order.** This is the model's choice; the
  test has only one listener per pass and cannot tell orders apart.
- **A listener is a script of steps** it performs on the emitter: register,
  erase, clear one kind, or clear all. The test's lambdas are `Noop`,
  `RegisterThenClear` and `ClearThenRegister`. The event payload is not
  modelled, because no listener in the test reads it.
- **Bool conversion of `ErrorEvent`**: the model takes it to be false
  exactly for code 0. The test pins only code 0 (false) and one negative
  engine code (true); every engine code is negative, so a `code < 0` test
  would agree with this on every engine code and on 0.
- **`translate`** follows libuv's POSIX mapping. Negative values are engine
  codes and pass through unchanged, and so does zero ("no error"); a
  positive errno is negated. "Address in use" is -98, the Linux value.
- **Kinds.** The test emitter publishes two kinds, `Error` and `Fake`, and
  `emit()` publishes `Fake`.

## Model

| member | source | states |
|---|---|---|
| ErrorEvents.Translate | test/uvw/emitter.cpp:11 | engine codes and zero are returned unchanged; a positive system errno becomes the engine code whose negation it is; the result is never positive |
| ErrorEvents.Code | test/uvw/emitter.cpp:9-14 | `code()` returns exactly the code the event was built from |
| ErrorEvents.Describe | test/uvw/emitter.cpp:12-13 | `name()`/`what()` always yield a present, non-empty text, taken from the engine's table when the code is in it |
| ErrorEvents.IsError | test/uvw/emitter.cpp:16-17 | `ErrorEvent{0}` converts to false, and every engine code converts to true |
| ErrorEvents.TranslateThenConvert | test/uvw/emitter.cpp:11-17 | `translate` is idempotent, and the event built from a translated number is true exactly when the number was nonzero |
| ErrorEvents.Functionalities | test/uvw/emitter.cpp:6-18 | every assertion of the ErrorEvent test holds for "address in use", with `what()` and `name()` observed separately from their own tables |
| EmitterState.New | test/uvw/emitter.cpp:22-24 | a new emitter is well formed and empty |
| EmitterState.EmptyOf | test/uvw/emitter.cpp:29-55 | `empty<K>()` holds whenever the kind has no entry at all |
| EmitterState.EmptyOfExact | test/uvw/emitter.cpp:29-55 | outside a dispatch of `K`, `empty<K>()` holds exactly when the kind's list is empty, since tombstones exist only under dispatch |
| EmitterState.Empty | test/uvw/emitter.cpp:24-55 | `empty()` holds exactly when both `empty<ErrorEvent>()` and `empty<FakeEvent>()` hold |
| EmitterState.Register | test/uvw/emitter.cpp:26-30 | after `on`/`once` the kind and the emitter are non-empty; the kind's list is its old list with the new live entry appended, so every earlier registration is kept; every other kind is unchanged, and the token counter advances by one |
| EmitterState.StartWellFormed | test/uvw/emitter.cpp:67 | marking a kind as under dispatch, as a publish does first, keeps the invariant |
| EmitterState.RegisterWellFormed | test/uvw/emitter.cpp:26-30 | `on`/`once` keep the invariant: ids below the next token, lists in registration order, tombstones only under dispatch |
| EmitterState.EraseConn | test/uvw/emitter.cpp:97-115 | after `erase` no live entry of the token remains, and other kinds are unchanged; what happens to the token's own kind is stated by the two lemmas below |
| EmitterState.EraseOutsideDispatch | test/uvw/emitter.cpp:97-115 | outside a dispatch, `erase` leaves the kind's list minus that token's entries, every other registration kept in order; an entry survives exactly when it was there and has another token |
| EmitterState.EraseDuringDispatch | test/uvw/emitter.cpp:122-137 | during a dispatch, `erase` keeps the list's length, leaves every position of another token unchanged and only tombstones the token's own entries |
| EmitterState.WithoutMembers | test/uvw/emitter.cpp:97-115 | the reference list of an erase outside a dispatch holds exactly the entries of other tokens |
| EmitterState.PruneMark | test/uvw/emitter.cpp:97-115 | tombstoning a token in a list without tombstones and then compacting removes exactly that token's entries, keeping the rest in order |
| EmitterState.EraseWellFormed | test/uvw/emitter.cpp:97-115 | `erase` keeps the invariant |
| EmitterState.ClearKind | test/uvw/emitter.cpp:32-42 | `clear<K>()` empties `K` and leaves every other kind's list unchanged |
| EmitterState.ClearKindWellFormed | test/uvw/emitter.cpp:32-42 | `clear<K>()` keeps the invariant |
| EmitterState.ClearAll | test/uvw/emitter.cpp:51-55 | `clear()` empties every kind: lists not under dispatch become empty, and a list under dispatch is entirely tombstoned |
| EmitterState.ClearAllWellFormed | test/uvw/emitter.cpp:51-55 | `clear()` keeps the invariant |
| EmitterState.Prune | test/uvw/emitter.cpp:97-115 | compaction never lengthens a list |
| EmitterState.PruneAscending | test/uvw/emitter.cpp:97-115 | compaction keeps registration order |
| EmitterState.PruneMembers | test/uvw/emitter.cpp:97-115 | compaction keeps only live entries of the original list |
| EmitterState.PruneConcat | test/uvw/emitter.cpp:97-115 | compacting a concatenation compacts each part, with the consumed prefix shifted |
| EmitterState.PruneLive | test/uvw/emitter.cpp:62-70 | a list without tombstones and without a consumed prefix is left as it is |
| EmitterState.PruneErased | test/uvw/emitter.cpp:130-133 | a fully tombstoned list compacts to nothing |
| EmitterState.PruneKeepsLive | test/uvw/emitter.cpp:62-70 | the converse of `PruneMembers`: compaction keeps every live entry except a one-shot entry the pass consumed |
| EmitterState.EraseRegisteredList | test/uvw/emitter.cpp:92-115 | erasing the token `on` or `once` just returned restores the list of its kind |
| EmitterState.EraseUndoesRegister | test/uvw/emitter.cpp:92-115 | erasing the token `on` or `once` just returned restores every list |
| EmitterState.EraseAbsent | test/uvw/emitter.cpp:97-115 | erasing a token whose registration is gone changes no list |
| EmitterState.EraseTwice | test/uvw/emitter.cpp:97-115 | erase is idempotent |
| Dispatching.Apply | test/uvw/emitter.cpp:122-137 | a step a listener performs never ends a dispatch and never reuses a token id |
| Dispatching.Run | test/uvw/emitter.cpp:122-137 | the same for a listener's whole script |
| Dispatching.Finish | test/uvw/emitter.cpp:67-85 | after a pass no tombstone remains in the published kind, and other kinds are unchanged; which entries are kept is stated by `FinishFacts`, `PruneKeepsLive` and `PublishInvokesLive` |
| Dispatching.Publish | test/uvw/emitter.cpp:67-146 | a publish leaves no tombstone in the published kind |
| Dispatching.ApplyGrows | test/uvw/emitter.cpp:122-137 | a step run by a listener never removes or reorders an entry of the kind under dispatch; it only tombstones or appends, and it keeps the invariant |
| Dispatching.RunGrows | test/uvw/emitter.cpp:122-137 | the same holds for a listener's whole script |
| Dispatching.VisitPrefix | test/uvw/emitter.cpp:67-146 | a pass only appends to its record of invoked tokens |
| Dispatching.VisitLive | test/uvw/emitter.cpp:67-146 | at a live entry a pass runs that entry's listener and records its token next |
| Dispatching.VisitLiveNext | test/uvw/emitter.cpp:122-146 | after invoking a live entry the emitter is still well formed and under dispatch, the list has only grown, and the pass continues with that token recorded |
| Dispatching.VisitGrows | test/uvw/emitter.cpp:122-146 | whatever the callbacks do, a whole pass only tombstones and appends entries of the kind under dispatch, and keeps the invariant |
| Dispatching.VisitFacts | test/uvw/emitter.cpp:122-146 | during a pass the invariant is kept, and the invoked tokens strictly increase and come from the list as it was when the pass began |
| Dispatching.FinishFacts | test/uvw/emitter.cpp:77-85 | compaction after a pass keeps the invariant and removes every one-shot entry that existed when the pass began |
| Dispatching.PublishFacts | test/uvw/emitter.cpp:67-146 | a publish keeps the invariant. It invokes each entry of the list at most once, in registration order, and only entries that existed when it began. No one-shot entry from before the pass survives it. The converse is `PublishInvokesLive` |
| Dispatching.VisitInvokesLive | test/uvw/emitter.cpp:67-146 | a pass misses nobody: every entry it had to visit that is still live when it ends was invoked |
| Dispatching.PublishInvokesLive | test/uvw/emitter.cpp:62-85 | every listener present when a publish began and still live at its end was invoked, and a persistent one is still registered afterwards |
| Dispatching.InvokesLiveAfterLive | test/uvw/emitter.cpp:67-146 | the case of `VisitInvokesLive` where the pass is at a live entry: it is invoked, and the rest of the pass misses nobody |
| Dispatching.GrowsKeepsErased | test/uvw/emitter.cpp:130-146 | a tombstone in the list seen earlier in a pass is still at its position, unchanged, however the callbacks have changed the list |
| Dispatching.VisitCalledAbove | test/uvw/emitter.cpp:122-146 | a pass never goes back: every token it records from a position on is at least the token at that position |
| Dispatching.VisitNeverCalls | test/uvw/emitter.cpp:130-146 | an entry tombstoned before the pass reaches it, by `erase` or `clear` in an earlier listener of the same pass, is never invoked |
| Dispatching.NeverCallsAfterLive | test/uvw/emitter.cpp:130-146 | the case of `VisitNeverCalls` where the pass is at a live entry before the tombstoned one |
| Dispatching.VisitSkips | test/uvw/emitter.cpp:130-146 | a pass over a stretch of entries that are all tombstoned invokes nobody and changes nothing |
| Dispatching.VisitNoop | test/uvw/emitter.cpp:67 | a pass over do-nothing listeners invokes each of them in order and changes nothing |
| Dispatching.PublishNoop | test/uvw/emitter.cpp:67-82 | publishing to do-nothing listeners invokes all of them in order and keeps exactly the persistent ones |
| Dispatching.OnSurvivesPublish | test/uvw/emitter.cpp:62-70 | when every listener of the kind does nothing, a listener registered with `on` remains after a publish, so the kind and the emitter stay non-empty |
| Dispatching.OnceGoneAfterPublish | test/uvw/emitter.cpp:77-85 | when every listener of the kind is a one-shot that does nothing, a listener registered with `once` is removed by the first publish of its kind, the kind is left empty, and other kinds are unchanged |
| Dispatching.RunRegisterThenClear | test/uvw/emitter.cpp:122-125 | the first reentrant callback registers and then clears the emitter |
| Dispatching.RunClearThenRegister | test/uvw/emitter.cpp:135-138 | the second reentrant callback clears the emitter and then registers |
| Dispatching.PublishRegisterThenClear | test/uvw/emitter.cpp:122-133 | when the register-then-clear listener is the first of its kind, a publish leaves the emitter empty. Only the first listener runs, and exactly one token is handed out |
| Dispatching.ClearThenRegisterPass | test/uvw/emitter.cpp:135-143 | when the clear-then-register listener is the first of its kind, the pass runs that listener and nothing else |
| Dispatching.PublishClearThenRegister | test/uvw/emitter.cpp:135-146 | when the clear-then-register listener is the first of its kind, a publish leaves exactly the new listener. Other kinds are empty, and only the first listener runs |
| Emitters.Sweep | test/uvw/emitter.cpp:97-115 | the compaction loop keeps exactly what `Prune` keeps |
| Emitters.TestEmitter.constructor | test/uvw/emitter.cpp:22 | a constructed emitter is the empty, well-formed state |
| Emitters.TestEmitter.Add | test/uvw/emitter.cpp:26-30 | appends a live entry with the next token, returns that token, and keeps the invariant |
| Emitters.TestEmitter.On | test/uvw/emitter.cpp:26 | `on<K>` registers a persistent listener, as `Register` states |
| Emitters.TestEmitter.Once | test/uvw/emitter.cpp:77 | `once<K>` registers a one-shot listener, as `Register` states |
| Emitters.TestEmitter.Erase | test/uvw/emitter.cpp:97 | `erase` updates the fields as `EraseConn` states |
| Emitters.TestEmitter.ClearEvent | test/uvw/emitter.cpp:32-38 | `clear<K>()` updates the fields as `ClearKind` states |
| Emitters.TestEmitter.Clear | test/uvw/emitter.cpp:51 | `clear()` updates the fields as `ClearAll` states |
| Emitters.TestEmitter.IsEmptyOf | test/uvw/emitter.cpp:29-30 | `empty<K>()` walks the list and answers whether no live entry is left |
| Emitters.TestEmitter.IsEmpty | test/uvw/emitter.cpp:24 | `empty()` answers whether every kind is empty |
| Emitters.TestEmitter.RunScript | test/uvw/emitter.cpp:122-137 | running a listener's steps on the object gives the state `Run` describes, and keeps the invariant |
| Emitters.TestEmitter.Publish | test/uvw/emitter.cpp:67-143 | the dispatch loop leaves the state, and returns the invoked tokens, that the `Publish` function describes, even while listeners change the list being walked |
| Emitters.TestEmitter.Emit | test/uvw/emitter.cpp:67 | `emit()` publishes the fake event |
| EmitterTests.EmptyAndClear | test/uvw/emitter.cpp:21-56 | the sixteen `empty` observations of the case are the expected ones |
| EmitterTests.OnCase | test/uvw/emitter.cpp:59-71 | the emitter is non-empty before and after the emit |
| EmitterTests.OnceCase | test/uvw/emitter.cpp:74-86 | the emitter is non-empty before the emit and empty after it |
| EmitterTests.OnceAndEraseCase | test/uvw/emitter.cpp:89-101 | erasing the `once` token empties the emitter |
| EmitterTests.OnAndEraseCase | test/uvw/emitter.cpp:104-116 | erasing the `on` token empties the emitter |
| EmitterTests.CallbackClearCase | test/uvw/emitter.cpp:119-147 | the eight observations are the expected ones. Each emit invokes exactly the one listener present when it began, and never the one registered during the pass |

## Left out

- The emitter header `uvw/emitter.h` is not part of this model. The mechanics above are the model's own, chosen to meet every observation of `test/uvw/emitter.cpp`.
- `src/uvw/uv_type.hpp`: shared ownership of the loop, the embedded native struct returned by `raw()`, and the deleted copy and move operations. These are ownership plumbing with no logic to state.
- `src/uvw/idle.cpp`, `src/uvw/async.cpp`, `src/uvw/signal.hpp`: the callbacks that recover the wrapper from `handle->data` and publish one event, plus the forwarding to `uv_*` calls that are not part of this model.
- `test/uvw/stream.cpp`: a fake handle whose `init` always succeeds. Nothing to state.
- The handle lifecycle (init, active, closing, closed) and close confirmation. The handle code is not part of this model.
- ErrorEvents.Describe: the texts come from libuv's error tables, a foreign call. The table is a parameter, and only the presence of a text is stated.
- ErrorEvents.Translate: Windows error numbers and libuv's full errno table are not modelled. Only the POSIX negation rule is.
- The `static_cast` of the code to the enum's underlying type: codes are unbounded integers here, and every libuv code fits that type.
- Event payloads, and listener bodies beyond the scripted steps (register, erase, clear one kind, clear all).
- A listener that publishes again from inside a pass (nested dispatch of the same kind). `Publish` requires that the kind is not already being dispatched.
- A listener that throws: exceptions are not modelled; every listener runs its script to the end.
