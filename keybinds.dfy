/**
  The keybind module's global state and entry points: `all_keybinds` and
  `global_handle` as the fields of one registry object, the four functions
  of the binding API as methods that update them in place,
  `handle_key_event` as a loop over a copy of the matching entries, and the
  hook around it.
 */
module Keybinds {
  import opened Bindings
  import opened Dispatcher
  import opened Hook

  class KeybindRegistry {
    /** The entries of `all_keybinds`. */
    var entries: seq<Binding>
    /** `global_handle`: the handle the next registration gets. */
    var nextHandle: Handle

    function State(): Table
      reads this
    {
      Table(entries, nextHandle)
    }

    ghost predicate Valid()
      reads this
    {
      Bindings.Valid(State())
    }

    /** Module load: an empty multimap and the counter at 1. */
    constructor ()
      ensures Valid() && State() == Initial
    {
      entries := [];
      nextHandle := 1;
    }

    /** `register_keybind`: take the counter's value as the handle, bump it, add the entry. */
    method RegisterKeybind(key: KeyName, event: Option<InputEvent>, callback: Callback) returns (handle: Handle)
      requires Valid()
      modifies this
      ensures Valid()
      ensures (State(), handle) == AfterRegister(old(State()), key, event, callback)
      ensures handle >= 1 && !HasHandle(old(entries), handle) && nextHandle > handle
    {
      handle := nextHandle;
      nextHandle := nextHandle + 1;
      entries := entries + [Binding(key, event, callback, handle)];
    }

    /** `deregister_keybind`: erase every entry with this handle; nothing else changes. */
    method DeregisterKeybind(handle: Handle)
      requires Valid()
      modifies this
      ensures Valid()
      ensures State() == AfterDeregister(old(State()), handle)
      ensures !HasHandle(old(entries), handle) ==> State() == old(State())
    {
      entries := Keep(entries, (b: Binding) => b.handle != handle);
      if !HasHandle(old(entries), handle) {
        DeregisterUnknownIsNoOp(old(State()), handle);
      }
    }

    /** `_deregister_by_key`: erase every entry stored under this key. */
    method DeregisterByKey(key: KeyName)
      requires Valid()
      modifies this
      ensures Valid()
      ensures State() == AfterDeregisterByKey(old(State()), key)
    {
      entries := Keep(entries, (b: Binding) => b.key != key);
    }

    /** `_deregister_all`: clear the multimap; the counter keeps its value. */
    method DeregisterAll()
      requires Valid()
      modifies this
      ensures Valid()
      ensures State() == AfterDeregisterAll(old(State()))
    {
      entries := [];
    }

    /** A scripted callback calling the binding API, one call after the other. */
    method RunApiCalls(calls: seq<ApiCall>)
      requires Valid()
      modifies this
      ensures Valid()
      ensures State() == ApplyAll(old(State()), calls)
    {
      var i := 0;
      while i < |calls|
        invariant 0 <= i <= |calls|
        invariant Valid()
        invariant ApplyAll(State(), calls[i..]) == ApplyAll(old(State()), calls)
      {
        assert calls[i..][0] == calls[i] && calls[i..][1..] == calls[i + 1..];
        match calls[i] {
          case Register(key, event, callback) =>
            var _ := RegisterKeybind(key, event, callback);
          case Deregister(handle) =>
            DeregisterKeybind(handle);
          case DeregisterByKey(key) =>
            DeregisterByKey(key);
          case DeregisterAll =>
            DeregisterAll();
        }
        i := i + 1;
      }
    }

    /**
      `safe_run_callback`: call one callback; whatever it does to the
      registry stays done, a block sentinel it returns sets the vote, and an
      exception it raises is caught and casts no vote.
     */
    method SafeRunCallback(index: nat, bind: Binding, arg: CallArg, oracle: CallbackOracle, shouldBlock: bool)
      returns (block: bool)
      requires Valid()
      modifies this
      ensures Valid()
      ensures var out := oracle(index, bind, arg);
              && State() == ApplyAll(old(State()), out.calls)
              && block == (shouldBlock || out.ret == Returned(true))
    {
      var out := oracle(index, bind, arg);
      RunApiCalls(out.calls);
      block := shouldBlock;
      match out.ret
      case Returned(isBlockSentinel) =>
        if isBlockSentinel {
          block := true;
        }
      case Raised =>
    }

    /**
      `handle_key_event`. The ghost outputs record which callbacks ran, with
      what, and how often the enum was built; the method is proved to
      compute exactly what `Dispatch` describes.
     */
    method HandleKeyEvent(self: PlayerInput, params: InputKeyParams, makeEnum: EnumFactory, oracle: CallbackOracle)
      returns (d: Dispatched, ghost trace: seq<Invocation>, ghost enumBuilds: nat)
      requires Valid()
      modifies this
      ensures Valid()
      ensures var r := Dispatch(old(State()), self, params, makeEnum, oracle);
              && d == r.0 && trace == r.1.trace && enumBuilds == r.1.enumBuilds
              && State() == r.1.registry
    {
      trace, enumBuilds := [], 0;
      var withMatchingKey := WithKey(entries, params.key);
      MatchNeedsKey(entries, params.key, params.event);
      if withMatchingKey == [] {
        return Decided(false), trace, enumBuilds;
      }
      var inputEvent := params.event;
      var withMatchingEvent := Matching(entries, params.key, inputEvent);
      if withMatchingEvent == [] {
        return Decided(false), trace, enumBuilds;
      }
      if self.outer.None? || !self.outer.value.isOakPlayerController {
        return Decided(false), trace, enumBuilds;
      }
      if self.outer.value.showMouseCursor {
        return Decided(false), trace, enumBuilds;
      }

      // The copy the loop runs over: later registry changes do not reach it.
      var matchingBinds := withMatchingEvent;
      d, trace, enumBuilds := RunMatchingCallbacks(matchingBinds, inputEvent, makeEnum, oracle);
    }

    /**
      The loop of `handle_key_event` over the copied entries: build the enum
      when the first unfiltered binding needs it (an exception from that
      construction ends the dispatch), call each binding through
      `SafeRunCallback`, and return the combined vote.
     */
    method RunMatchingCallbacks(matchingBinds: seq<Binding>, inputEvent: InputEvent, makeEnum: EnumFactory,
                                oracle: CallbackOracle)
      returns (d: Dispatched, ghost trace: seq<Invocation>, ghost enumBuilds: nat)
      requires Valid()
      modifies this
      ensures Valid()
      ensures var r := RunCallbacks(matchingBinds, 0, inputEvent, makeEnum, oracle, Start(old(State())));
              && d == r.0 && trace == r.1.trace && enumBuilds == r.1.enumBuilds
              && State() == r.1.registry
    {
      trace, enumBuilds := [], 0;
      var eventAsEnum: Option<EnumObject> := None;
      var shouldBlock := false;
      var i := 0;
      while i < |matchingBinds|
        invariant 0 <= i <= |matchingBinds|
        invariant Valid()
        invariant RunCallbacks(matchingBinds, i, inputEvent, makeEnum, oracle,
                               Progress(State(), eventAsEnum, enumBuilds, shouldBlock, trace))
                  == RunCallbacks(matchingBinds, 0, inputEvent, makeEnum, oracle, Start(old(State())))
      {
        ghost var before := Progress(State(), eventAsEnum, enumBuilds, shouldBlock, trace);
        var bind := matchingBinds[i];
        if bind.event.None? {
          if eventAsEnum.None? {
            enumBuilds := enumBuilds + 1;
            eventAsEnum := makeEnum(inputEvent);
            if eventAsEnum.None? {
              assert Step(matchingBinds, i, inputEvent, makeEnum, oracle, before)
                     == (true, before.(enumBuilds := enumBuilds));
              return Faulted, trace, enumBuilds;
            }
          }
          var arg := EventArg(eventAsEnum.value);
          ghost var ready := before.(eventEnum := eventAsEnum, enumBuilds := enumBuilds);
          shouldBlock := SafeRunCallback(i, bind, arg, oracle, shouldBlock);
          trace := trace + [Invocation(bind, arg)];
          assert Step(matchingBinds, i, inputEvent, makeEnum, oracle, before)
                 == (false, Dispatcher.SafeRunCallback(i, bind, arg, oracle, ready));
        } else if bind.event.value == inputEvent {
          shouldBlock := SafeRunCallback(i, bind, NoArgs, oracle, shouldBlock);
          trace := trace + [Invocation(bind, NoArgs)];
          assert Step(matchingBinds, i, inputEvent, makeEnum, oracle, before)
                 == (false, Dispatcher.SafeRunCallback(i, bind, NoArgs, oracle, before));
        }
        assert Step(matchingBinds, i, inputEvent, makeEnum, oracle, before)
               == (false, Progress(State(), eventAsEnum, enumBuilds, shouldBlock, trace));
        i := i + 1;
      }
      d := Decided(shouldBlock);
    }

    /**
      `playerinput_inputkey_hook`: return 1 when dispatch says block;
      otherwise, also when dispatch raised, return what the original
      returns for the same arguments.
     */
    method PlayerInputInputKeyHook(self: PlayerInput, params: InputKeyParams, makeEnum: EnumFactory,
                                   oracle: CallbackOracle, original: OriginalInputKey)
      returns (ret: nat)
      requires Valid()
      modifies this
      ensures Valid()
      ensures var r := Dispatch(old(State()), self, params, makeEnum, oracle);
              && ret == InputKeyHook(r.0, self, params, original).Ret()
              && State() == r.1.registry
    {
      var d;
      ghost var trace, enumBuilds;
      d, trace, enumBuilds := HandleKeyEvent(self, params, makeEnum, oracle);
      if d == Decided(true) {
        return 1;
      }
      ret := original(self, params);
    }
  }
}
