# Keybind dispatch for the Oak mod manager

This project models the keybind subsystem in `src/keybinds/keybinds.cpp`. The subsystem hooks
`UGbxEnhancedPlayerInput::InputKey`. Scripted code registers keybinds on it, and the
callbacks of those keybinds decide whether the game gets to see a key event.

- **Binding registry** (`bindings.dfy`, module `Bindings`). The global multimap `all_keybinds`
  and the handle counter `global_handle` are a `Table`. The table holds the entries in a sequence,
  and each entry has a key, an optional event filter, a callback and a handle. The four API
  functions are pure transitions: `AfterRegister`, `AfterDeregister`, `AfterDeregisterByKey` and
  `AfterDeregisterAll`. `Valid` is the registry invariant: the counter is at least 1, every stored
  handle is non-zero and below the counter, and no two entries share a handle.
- **Dispatch rule** (`dispatch.dfy`, module `Dispatcher`). `Dispatch` is a reference definition of
  `handle_key_event`. Two host collaborators are passed in as functions. `EnumFactory` builds the
  scripting enum for an event, and returns None when that constructor raises. `CallbackOracle`
  says, for each call, how the callback ended and which binding API calls it made while running.
  `Step` is one turn of the callback loop. `RunCallbacks` is the loop over the copied entries.
- **Hook shim** (`hook.dfy`, module `Hook`). `InputKeyHook` returns `Handled` (the value 1) when
  dispatch decided to block. Otherwise it returns what the original function returns for the same
  arguments, and this includes the case where dispatch raised.
- **Global state** (`keybinds.dfy`, module `Keybinds`). Class `KeybindRegistry` holds
  `all_keybinds` and `global_handle` as fields. Its methods update them in place. Each method is
  proved to follow the pure transition for its API function. `HandleKeyEvent` copies the matching
  entries and then runs the while loop over that copy. It is proved to compute exactly what
  `Dispatch` describes: the decision, the invocations, the number of enum constructions and the
  registry afterwards.
- **Process lifetime** (`session.dfy`, module `Session`). A history is a sequence of API calls and
  key events. `Replay` gives the registry after it, and `Fired` gives every callback invocation
  along the way.

Two behaviours of the source follow from the model:

- The enum construction at line 138 sits outside `safe_run_callback`. If it raises, the exception
  leaves `handle_key_event`, and callbacks that already ran keep their registry changes.
  Their block votes are dropped, and the hook forwards the event to the original
  (`Dispatched.Faulted`).
- Line 143 checks a filtered binding against the event a second time. That check always passes for
  the copied entries, so every copied binding up to the stop position is called
  (`RunFollowsSnapshot`). The loop stops early only when the enum construction at line 138 raises.

## Model

| member | source | states |
|---|---|---|
| `Bindings.Keep` | src/keybinds/keybinds.cpp:225-228 | The `erase_if` result holds exactly the entries the predicate keeps. It is never longer than the input, and it keeps handles distinct. |
| `Bindings.AfterRegister` | src/keybinds/keybinds.cpp:196-203 | The new handle is the counter's old value, and the counter goes up by one. Exactly one entry (key, event, callback, handle) is appended and the old entries are unchanged. On a valid registry the handle is non-zero, new, and the registry stays valid. |
| `Bindings.AfterDeregister` | src/keybinds/keybinds.cpp:223-229 | An entry survives iff it was present and its handle differs from `h`. The counter is unchanged and validity is kept. |
| `Bindings.AfterDeregisterByKey` | src/keybinds/keybinds.cpp:240-245 | An entry survives iff it was present and its key differs. The counter is unchanged and validity is kept. |
| `Bindings.AfterDeregisterAll` | src/keybinds/keybinds.cpp:255 | No entry is left. The counter is not reset, so handles are never reused. |
| `Bindings.DeregisterUnknownIsNoOp` | src/keybinds/keybinds.cpp:223-232 | Deregistering a handle that no entry holds leaves the registry exactly as it was. |
| `Bindings.DeregisterRemovesAtMostOne` | src/keybinds/keybinds.cpp:223-229 | With unique handles, deregistering removes at most one entry. Deregistering the same handle again changes nothing. |
| `Bindings.ApplyAll` | src/keybinds/keybinds.cpp:196-255 | Any sequence of API calls keeps the registry valid. The counter grows by exactly the number of registrations, so issued handles are consecutive and never repeat. |
| `Bindings.RemovedHandleStaysRemoved` | src/keybinds/keybinds.cpp:196-229 | A handle below the counter that no entry holds never comes back, whatever API calls follow. |
| `Bindings.ApplyAllConcat` | src/keybinds/keybinds.cpp:194-259 | Applying two runs of API calls one after the other is the same as applying their concatenation. |
| `Dispatcher.WithKey` | src/keybinds/keybinds.cpp:71-75 | The `equal_range` holds exactly the entries stored under the event's key. |
| `Dispatcher.Matching` | src/keybinds/keybinds.cpp:78-86 | The filtered range holds exactly the entries with the key whose event is absent or equal to the observed event. It keeps handles distinct. |
| `Dispatcher.MatchesEvent` | src/keybinds/keybinds.cpp:80-83 | The event filter: a binding matches when it has no event or the observed one. This is a predicate. `Matching` and `StepFollowsSnapshot` state its consequences. |
| `Dispatcher.MatchNeedsKey` | src/keybinds/keybinds.cpp:71-86 | If some entry passes the event filter, the key range is not empty. So the key check can only end dispatch early when the event check would too. |
| `Dispatcher.MayRunCallbacks` | src/keybinds/keybinds.cpp:88-102 | The host guard: the outer object is a non-null `OakPlayerController` that is not showing the mouse cursor. This is a predicate. `Dispatch` and `DispatchBlocksIff` state what failing it does. |
| `Dispatcher.SafeRunCallback` | src/keybinds/keybinds.cpp:116-129 | One callback call keeps the registry valid, and the counter never goes back. A recorded vote is never cleared, and only a returned block sentinel sets one. The enum is untouched, and exactly one invocation is added to the trace. |
| `Dispatcher.Step` | src/keybinds/keybinds.cpp:133-146 | One loop turn raises only at an unfiltered binding when no enum exists yet, and then only the build count changes. At most one build happens per turn. The registry stays valid, the counter never goes back and a recorded vote is kept. |
| `Dispatcher.RunCallbacks` | src/keybinds/keybinds.cpp:133-148 | The loop keeps the registry valid, the counter never goes back, and a recorded vote survives to the decision. How the trace grows is stated by `RunFollowsSnapshot`, and the rest of its behaviour by `RunStopsAt`, `RunBlocksIff`, `RunBuildsEnumOnce` and `RunAppliesCalls`. |
| `Dispatcher.Dispatch` | src/keybinds/keybinds.cpp:69-149 | If nothing matches key and event, or the controller is missing, of the wrong class or showing the mouse cursor, the result is "do not block". No callback runs, the enum is not built and the registry is untouched. Any dispatch keeps the registry valid and never moves the counter back. |
| `Dispatcher.StepFollowsSnapshot` | src/keybinds/keybinds.cpp:116-146 | One loop turn either raises, exactly when the enum is needed and cannot be built, or calls the current binding once. An unfiltered binding gets the enum and a filtered one gets no arguments. The vote becomes true iff it was true or the callback returned the block sentinel, so a raising callback casts no vote. |
| `Dispatcher.StepAppliesCalls` | src/keybinds/keybinds.cpp:116-146 | One loop turn applies the API calls of the callback it runs, and none when the enum construction raises. |
| `Dispatcher.RunStopsAt` | src/keybinds/keybinds.cpp:136-140 | The loop ends early with an exception exactly when it reaches an unfiltered binding and the enum constructor raises. Otherwise it runs to the end of the copy. |
| `Dispatcher.RunFollowsSnapshot` | src/keybinds/keybinds.cpp:107-146 | Up to its stop position, the loop calls every binding in the copy once, in copy order, with the argument its filter calls for. This holds whatever the callbacks return, raise or do to the registry. |
| `Dispatcher.RunBlocksIff` | src/keybinds/keybinds.cpp:114-148 | A loop that runs to the end returns true iff a vote was already recorded or some copied binding's callback returned the block sentinel. |
| `Dispatcher.RunBuildsEnumOnce` | src/keybinds/keybinds.cpp:111-139 | The enum is built only when it does not exist yet and some remaining binding has no filter. It is then built exactly once. |
| `Dispatcher.RunAppliesCalls` | src/keybinds/keybinds.cpp:116-146 | The registry after the loop is the starting one with the API calls of every callback that ran applied in call order, up to the stop position. A callback that raises keeps the changes it made. |
| `Dispatcher.RunIgnoresRegistry` | src/keybinds/keybinds.cpp:107-146 | Two runs whose callbacks return the same things give the same decision, invocations and enum use, whatever registry changes their callbacks make. |
| `Dispatcher.DispatchAppliesCallbackCalls` | src/keybinds/keybinds.cpp:69-149 | A dispatch changes the registry exactly as the API calls of the callbacks it ran would, applied one after the other. |
| `Dispatcher.DispatchKeepsRemovedHandle` | src/keybinds/keybinds.cpp:116-146 | A handle that was issued and is no longer stored is still not stored after a dispatch, whatever its callbacks registered or deregistered. The registry stays valid, and the handle stays below the counter. |
| `Dispatcher.DispatchInvokesSnapshot` | src/keybinds/keybinds.cpp:69-149 | Once the guard passes, the calls are the entries that matched when dispatch began, in copy order, up to the stop position. The result is an exception iff that position is short of the end. |
| `Dispatcher.DispatchCallsOnlyMatches` | src/keybinds/keybinds.cpp:107-109 | Every called binding was in the registry when dispatch began and matches key and event. A binding registered by a callback does not fire in the same dispatch. |
| `Dispatcher.DispatchCallsEveryMatch` | src/keybinds/keybinds.cpp:107-146 | When dispatch ends with a decision, every binding that matched at the start was called with its argument, even one that an earlier callback deregistered. |
| `Dispatcher.DispatchCallsEachOnce` | src/keybinds/keybinds.cpp:108-146 | On a valid registry, no two calls in one dispatch have the same handle, so no binding is called twice. |
| `Dispatcher.DeregisteredNeverFires` | src/keybinds/keybinds.cpp:223-229 | The next dispatch after `deregister_keybind(h)` calls no binding with handle `h`. `Session.DeregisteredNeverFiresLater` extends this to every later dispatch. |
| `Dispatcher.DispatchBlocksIff` | src/keybinds/keybinds.cpp:88-148 | Dispatch returns true iff the guard passes, no exception escapes, and some matched callback returned the block sentinel. |
| `Dispatcher.DispatchBuildsEnumAtMostOnce` | src/keybinds/keybinds.cpp:111-139 | The enum is built at most once per dispatch. It is built iff the guard passes and some matched binding has no event filter. |
| `Dispatcher.DispatchIgnoresCallbackChanges` | src/keybinds/keybinds.cpp:106-109 | Callbacks that register or deregister bindings, themselves included, change neither the decision nor which bindings fire in the current dispatch. |
| `Hook.InputKeyHook` | src/keybinds/keybinds.cpp:174-185 | The event is swallowed (return 1) iff dispatch decided to block. Otherwise the hook returns exactly what the original returns. `HookBlocksIff` and `HookForwardsOnFault` tie this to the registry. |
| `Hook.HookBlocksIff` | src/keybinds/keybinds.cpp:174-185 | The hook returns 1 without calling the original iff the guard passes, dispatch does not raise, and some matched callback asked to block. Otherwise it returns the original's result for the same `self` and `params`. |
| `Hook.HookForwardsOnFault` | src/keybinds/keybinds.cpp:175-184 | When dispatch raises, the hook calls the original and returns its result. |
| `Session.After` | src/keybinds/keybinds.cpp:69-259 | One API call or key event keeps the registry valid and never moves the counter back. |
| `Session.Replay` | src/keybinds/keybinds.cpp:52-259 | Over any history of API calls and key events, the registry stays valid and the counter never goes back. |
| `Session.RemovedHandleNeverFires` | src/keybinds/keybinds.cpp:196-229 | A handle that was issued and is no longer stored never fires and is never stored again, whatever API calls and key events follow. |
| `Session.DeregisteredNeverFiresLater` | src/keybinds/keybinds.cpp:223-232 | After `deregister_keybind(h)` on an issued handle, no later key event calls a binding with handle `h`, even when callbacks in between register new bindings. |
| `Session.LaterRegistrationGetsLargerHandle` | src/keybinds/keybinds.cpp:196-203 | A registration made after any history gets a larger handle than one made before it, so handles are never reused. |
| `Keybinds.KeybindRegistry.constructor` | src/keybinds/keybinds.cpp:52-60 | The registry starts with no entries and the counter at 1. |
| `Keybinds.KeybindRegistry.RegisterKeybind` | src/keybinds/keybinds.cpp:196-203 | Updates the fields in place as `AfterRegister` says. The returned handle is non-zero, held by no earlier entry, and below the new counter. |
| `Keybinds.KeybindRegistry.DeregisterKeybind` | src/keybinds/keybinds.cpp:223-232 | Updates the entries as `AfterDeregister` says. An unknown handle leaves the state unchanged. |
| `Keybinds.KeybindRegistry.DeregisterByKey` | src/keybinds/keybinds.cpp:240-245 | Updates the entries as `AfterDeregisterByKey` says and keeps the registry valid. |
| `Keybinds.KeybindRegistry.DeregisterAll` | src/keybinds/keybinds.cpp:255 | Clears the entries, keeps the counter and keeps the registry valid. |
| `Keybinds.KeybindRegistry.RunApiCalls` | src/keybinds/keybinds.cpp:194-259 | Binding API calls made from scripted code are applied in order, and the registry ends as `ApplyAll` says. |
| `Keybinds.KeybindRegistry.SafeRunCallback` | src/keybinds/keybinds.cpp:116-129 | One callback call keeps the registry changes it made. A returned block sentinel sets the vote. A raised exception is absorbed and leaves the vote as it was. |
| `Keybinds.KeybindRegistry.HandleKeyEvent` | src/keybinds/keybinds.cpp:69-109 | The early returns, then the copy of the matching entries. The decision, invocations, enum builds and resulting registry equal `Dispatch` on the registry it started from. |
| `Keybinds.KeybindRegistry.RunMatchingCallbacks` | src/keybinds/keybinds.cpp:111-148 | The loop over the copy, with a lazily built enum and per-callback fault isolation. It computes exactly `RunCallbacks` from an empty vote and no enum. |
| `Keybinds.KeybindRegistry.PlayerInputInputKeyHook` | src/keybinds/keybinds.cpp:174-185 | Returns `InputKeyHook` of the dispatch result: 1 when blocked, otherwise the original's result. The registry ends as dispatch leaves it. |

## Left out

- Signature scanning and detour installation (lines 155-172, 191-192) are left out. The original `InputKey` is an opaque function value passed to the hook.
- The pybind11 module plumbing, argument conversion and the `void*` capsule around handles are left out. Handles are unbounded naturals, so overflow of the `uintptr_t` counter is not modelled.
- The GIL acquisition, `debug_this_thread`, exception logging and the atomicity of the counter are left out. The model is sequential.
- The static reflection lookups (`find_object`, `validate_type`, `find_prop`) are not modelled. They are boolean fields of `PlayerController`, so a failing lookup that raises is not modelled. The enum constructor is the one raising host call the model covers.
- The three `catch` arms of `safe_run_callback` differ only in what they log, so they are one `Raised` outcome. `is_block_sentinel` (the sentinel type or an instance of it) is a boolean on the returned value.
- Reference counting of the callback objects is not modelled. The copy keeps a deregistered callback alive until the loop ends, and in the model the entries are plain values.
- `FName` interning and case folding are left out. A key is an abstract type with equality. Of `FInputKeyParams`, only `Key.KeyName` and `Event` are modelled.
- The order among entries with the same key is not claimed. The registration doc-string (lines 204-218) promises no order, and `std::unordered_multimap::equal_range` leaves the order of equal keys to the library. The model fixes the copy's order to registration order, because `AfterRegister` appends and `Keep` keeps order.
- Dispatcher.RunCallbacks: the model runs the callbacks in one fixed order, registration order. A library may yield any permutation of `Matching`, and every result below that depends on the order is proved only for registration order:
  - Which callbacks run before an enum fault. Take key K, an unfiltered binding U registered before a filtered binding F, and an event whose enum cannot be built. The model raises at U and never calls F. A library whose `equal_range` yields F first calls F and then raises. This affects `RunStopsAt`, `DispatchInvokesSnapshot` and `DispatchBlocksIff`.
  - The order of the trace (`RunFollowsSnapshot`, `DispatchInvokesSnapshot`).
  - The call position each callback is given in the oracle.
  - The order in which the callbacks' API calls reach the registry (`RunAppliesCalls`, `DispatchAppliesCallbackCalls`). This decides the registry after a dispatch and the handle each registration inside a callback gets. Example: U's callback calls `_deregister_all` and F's callback registers a new binding. Run U first and one entry is left. Run F first and none is left.
  - Other results do not mention order: which bindings are called when no fault occurs (`DispatchCallsEveryMatch`, `DispatchCallsOnlyMatches`), that each is called once (`DispatchCallsEachOnce`), and that retired handles stay retired (`DispatchKeepsRemovedHandle`). These too are proved only for the fixed order.
- The registration doc-string says the key may be None to "match any" key. The code takes a concrete `FName`, so the model has no wildcard key.
- Key events raised again by a callback while it runs (re-entrant dispatch) are not modelled.
