/**
  The keybind module over the life of the process: scripted code calls the
  binding API and the game delivers key events, one after the other, and
  every key event dispatches against the registry the earlier ones left.
 */
module Session {
  import opened Bindings
  import opened Dispatcher

  /** One thing that happens to the module: an API call, or a key event and how its callbacks behave. */
  datatype HostEvent =
    | Api(call: ApiCall)
    | Key(self: PlayerInput, params: InputKeyParams, makeEnum: EnumFactory, oracle: CallbackOracle)

  /** The registry after one event. */
  function After(t: Table, ev: HostEvent): (r: Table)
    ensures Valid(t) ==> Valid(r)
    ensures r.nextHandle >= t.nextHandle
  {
    match ev
    case Api(call) => ApplyAll(t, [call])
    case Key(self, params, makeEnum, oracle) => Dispatch(t, self, params, makeEnum, oracle).1.registry
  }

  /**
    The registry after a history of events. It stays valid and the counter
    never goes back, so no handle is issued twice over the whole history.
   */
  function Replay(t: Table, events: seq<HostEvent>): (r: Table)
    ensures Valid(t) ==> Valid(r)
    ensures r.nextHandle >= t.nextHandle
    decreases |events|
  {
    if events == [] then t else Replay(After(t, events[0]), events[1..])
  }

  /** Every callback invocation over a history of events, in order. */
  function Fired(t: Table, events: seq<HostEvent>): seq<Invocation>
    decreases |events|
  {
    if events == [] then []
    else
      var now := match events[0]
        case Api(_) => []
        case Key(self, params, makeEnum, oracle) => Dispatch(t, self, params, makeEnum, oracle).1.trace;
      now + Fired(After(t, events[0]), events[1..])
  }

  /**
    A handle that was issued and is no longer stored never fires again and
    is never stored again, whatever API calls and key events follow, and
    whatever the callbacks of those key events do to the registry.
   */
  lemma {:induction false} RemovedHandleNeverFires(t: Table, events: seq<HostEvent>, h: Handle)
    requires Valid(t) && h < t.nextHandle && !HasHandle(t.entries, h)
    ensures forall inv <- Fired(t, events) :: inv.binding.handle != h
    ensures !HasHandle(Replay(t, events).entries, h)
    decreases |events|
  {
    if events != [] {
      var next := After(t, events[0]);
      match events[0] {
        case Api(call) =>
          RemovedHandleStaysRemoved(t, [call], h);
        case Key(self, params, makeEnum, oracle) =>
          DispatchCallsOnlyMatches(t, self, params, makeEnum, oracle);
          DispatchKeepsRemovedHandle(t, self, params, makeEnum, oracle, h);
      }
      RemovedHandleNeverFires(next, events[1..], h);
    }
  }

  /**
    `deregister_keybind(h)` on a handle the counter has issued retires it
    for good: no later key event calls a binding with that handle.
   */
  lemma DeregisteredNeverFiresLater(t: Table, h: Handle, events: seq<HostEvent>)
    requires Valid(t) && h < t.nextHandle
    ensures forall inv <- Fired(AfterDeregister(t, h), events) :: inv.binding.handle != h
  {
    RemovedHandleNeverFires(AfterDeregister(t, h), events, h);
  }

  /**
    Handles are never reused: a registration made after any history of API
    calls and key events gets a larger handle than one made before it.
   */
  lemma LaterRegistrationGetsLargerHandle(t: Table, key1: KeyName, event1: Option<InputEvent>, callback1: Callback,
                                          events: seq<HostEvent>,
                                          key2: KeyName, event2: Option<InputEvent>, callback2: Callback)
    ensures var (t1, h1) := AfterRegister(t, key1, event1, callback1);
            var (_, h2) := AfterRegister(Replay(t1, events), key2, event2, callback2);
            h1 < h2
  {
  }
}
