/**
  What `handle_key_event` decides, as a function of the registry it starts
  from, the player input object, the key parameters and two host
  collaborators passed in as functions: the constructor of the scripting
  enum for an input event, and the callbacks themselves (an oracle that says,
  for each invocation, what the callback returned and which binding API calls
  it made while running).
 */
module Dispatcher {
  import opened Bindings

  /** The scripting-side enum value built from an `EInputEvent`. */
  type EnumObject(==, !new)

  /** The player controller the input object belongs to (`self->Outer()`). */
  datatype PlayerController = PlayerController(isOakPlayerController: bool, showMouseCursor: bool)

  /** The `UGbxEnhancedPlayerInput` the hook is called on; `outer` is None for a null outer. */
  datatype PlayerInput = PlayerInput(outer: Option<PlayerController>)

  /** The fields of `FInputKeyParams` that dispatch reads. */
  datatype InputKeyParams = InputKeyParams(key: KeyName, event: InputEvent)

  /** What a callback is called with: nothing, or the event as an enum value. */
  datatype CallArg = NoArgs | EventArg(value: EnumObject)

  /** How a callback call ends: it returned (a block sentinel or not), or it raised. */
  datatype CallReturn = Returned(isBlockSentinel: bool) | Raised

  /** One callback call: how it ended and the binding API calls it made meanwhile. */
  datatype Outcome = Outcome(ret: CallReturn, calls: seq<ApiCall>)

  /** One entry of the invocation trace: which binding was called, with what. */
  datatype Invocation = Invocation(binding: Binding, arg: CallArg)

  /** The result of `handle_key_event`: a block decision, or an escaping exception. */
  datatype Dispatched = Decided(shouldBlock: bool) | Faulted

  /** Builds the enum for an event; None when the constructor raises. */
  type EnumFactory = InputEvent -> Option<EnumObject>

  /** The callbacks' behaviour, by call position, binding and argument. */
  type CallbackOracle = (nat, Binding, CallArg) -> Outcome

  /** The state the callback loop carries from one binding to the next. */
  datatype Progress = Progress(
    registry: Table,
    eventEnum: Option<EnumObject>,
    enumBuilds: nat,
    shouldBlock: bool,
    trace: seq<Invocation>)

  /** The event filter: a binding matches when it has no event or the observed one. */
  predicate MatchesEvent(filter: Option<InputEvent>, event: InputEvent) {
    filter.None? || filter.value == event
  }

  /** The entries for `key` (the `equal_range`), in registry order. */
  function WithKey(entries: seq<Binding>, key: KeyName): (r: seq<Binding>)
    ensures forall b :: b in r <==> b in entries && b.key == key
  {
    Keep(entries, (b: Binding) => b.key == key)
  }

  /** The entries for `key` that also pass the event filter. */
  function Matching(entries: seq<Binding>, key: KeyName, event: InputEvent): (r: seq<Binding>)
    ensures forall b :: b in r <==> b in entries && b.key == key && MatchesEvent(b.event, event)
    ensures DistinctHandles(entries) ==> DistinctHandles(r)
  {
    Keep(entries, (b: Binding) => b.key == key && MatchesEvent(b.event, event))
  }

  /** Every entry that passes the event filter is among the entries for the key. */
  lemma MatchNeedsKey(entries: seq<Binding>, key: KeyName, event: InputEvent)
    ensures Matching(entries, key, event) != [] ==> WithKey(entries, key) != []
  {
    var m := Matching(entries, key, event);
    if m != [] {
      assert m[0] in WithKey(entries, key);
    }
  }

  /** The host guard: a controller of the right class that is not showing the mouse cursor. */
  predicate MayRunCallbacks(self: PlayerInput) {
    self.outer.Some? && self.outer.value.isOakPlayerController && !self.outer.value.showMouseCursor
  }

  /** The argument a binding is called with once the enum `e` exists. */
  function ArgFor(b: Binding, e: Option<EnumObject>): CallArg {
    if b.event.None? && e.Some? then EventArg(e.value) else NoArgs
  }

  /**
    `safe_run_callback`: run one callback, apply its API calls, and record a
    block vote. The registry stays valid and its counter never goes back, a
    recorded vote is never cleared and only a returned sentinel sets one,
    the enum is left alone and exactly one invocation is added to the trace.
   */
  function SafeRunCallback(index: nat, b: Binding, arg: CallArg, oracle: CallbackOracle, p: Progress): (r: Progress)
    ensures Valid(p.registry) ==> Valid(r.registry)
    ensures r.registry.nextHandle >= p.registry.nextHandle
    ensures p.shouldBlock ==> r.shouldBlock
    ensures r.shouldBlock ==> p.shouldBlock || oracle(index, b, arg).ret == Returned(true)
    ensures r.eventEnum == p.eventEnum && r.enumBuilds == p.enumBuilds
    ensures |r.trace| == |p.trace| + 1 && r.trace[..|p.trace|] == p.trace
  {
    var out := oracle(index, b, arg);
    p.(registry := ApplyAll(p.registry, out.calls),
       shouldBlock := p.shouldBlock || out.ret == Returned(true),
       trace := p.trace + [Invocation(b, arg)])
  }

  /**
    One turn of the callback loop, at snapshot position `i`: whether an
    exception escaped, and the progress after it. A binding without a filter
    builds the enum first if it does not exist yet, and that construction
    may raise; a filtered binding is checked against the event once more and
    called without arguments.
   */
  function Step(snapshot: seq<Binding>, i: nat, event: InputEvent, makeEnum: EnumFactory,
                oracle: CallbackOracle, p: Progress): (r: (bool, Progress))
    requires i < |snapshot|
    ensures r.0 ==> snapshot[i].event.None? && p.eventEnum.None? && r.1 == p.(enumBuilds := p.enumBuilds + 1)
    ensures r.1.enumBuilds <= p.enumBuilds + 1
    ensures Valid(p.registry) ==> Valid(r.1.registry)
    ensures r.1.registry.nextHandle >= p.registry.nextHandle
    ensures p.shouldBlock ==> r.1.shouldBlock
  {
    var b := snapshot[i];
    if b.event.None? then
      var built := if p.eventEnum.Some? then p.enumBuilds else p.enumBuilds + 1;
      var e := if p.eventEnum.Some? then p.eventEnum else makeEnum(event);
      if e.None? then (true, p.(enumBuilds := built))
      else (false, SafeRunCallback(i, b, EventArg(e.value), oracle, p.(eventEnum := e, enumBuilds := built)))
    else if b.event.value == event then (false, SafeRunCallback(i, b, NoArgs, oracle, p))
    else (false, p)
  }

  /**
    The callback loop over the snapshot from position `i` on. Whatever the
    callbacks do, the registry stays valid, its counter never goes back and a
    recorded vote survives to the decision.
   */
  function RunCallbacks(snapshot: seq<Binding>, i: nat, event: InputEvent, makeEnum: EnumFactory,
                        oracle: CallbackOracle, p: Progress): (r: (Dispatched, Progress))
    requires i <= |snapshot|
    ensures Valid(p.registry) ==> Valid(r.1.registry)
    ensures r.1.registry.nextHandle >= p.registry.nextHandle
    ensures p.shouldBlock && r.0.Decided? ==> r.0.shouldBlock
    decreases |snapshot| - i
  {
    if i == |snapshot| then (Decided(p.shouldBlock), p)
    else
      var (raised, q) := Step(snapshot, i, event, makeEnum, oracle, p);
      if raised then (Faulted, q) else RunCallbacks(snapshot, i + 1, event, makeEnum, oracle, q)
  }

  function Start(t: Table): Progress {
    Progress(t, None, 0, false, [])
  }

  /**
    `handle_key_event`: no callback runs and the event is not blocked when
    nothing matches the key and event or the host guard fails; otherwise the
    matching entries are copied before the first callback runs and the loop
    runs over that copy.
   */
  function Dispatch(t: Table, self: PlayerInput, params: InputKeyParams, makeEnum: EnumFactory,
                    oracle: CallbackOracle): (r: (Dispatched, Progress))
    ensures Matching(t.entries, params.key, params.event) == [] || !MayRunCallbacks(self) ==>
              r.0 == Decided(false) && r.1.trace == [] && r.1.registry == t && r.1.enumBuilds == 0
    ensures Valid(t) ==> Valid(r.1.registry)
    ensures r.1.registry.nextHandle >= t.nextHandle
  {
    var snapshot := Matching(t.entries, params.key, params.event);
    if snapshot == [] || !MayRunCallbacks(self) then (Decided(false), Start(t))
    else RunCallbacks(snapshot, 0, params.event, makeEnum, oracle, Start(t))
  }

  // ---------------------------------------------------------------------------
  // Properties of the callback loop

  /** The invocations for a run of bindings, each with the argument its filter calls for. */
  function Invocations(bs: seq<Binding>, e: Option<EnumObject>): (r: seq<Invocation>)
    ensures |r| == |bs|
    ensures forall k :: 0 <= k < |bs| ==> r[k] == Invocation(bs[k], ArgFor(bs[k], e))
  {
    seq(|bs|, k requires 0 <= k < |bs| => Invocation(bs[k], ArgFor(bs[k], e)))
  }

  /** The position of the first binding without an event filter, or `|bs|`. */
  function FirstUnfiltered(bs: seq<Binding>): (f: nat)
    ensures f <= |bs|
    ensures forall k :: 0 <= k < f ==> bs[k].event.Some?
    ensures f < |bs| ==> bs[f].event.None?
  {
    if bs == [] || bs[0].event.None? then 0 else 1 + FirstUnfiltered(bs[1..])
  }

  /** Where the loop stops: at the first unfiltered binding when the enum cannot be built. */
  function StopAt(snapshot: seq<Binding>, i: nat, event: InputEvent, makeEnum: EnumFactory, p: Progress): nat
    requires i <= |snapshot|
  {
    if p.eventEnum.None? && makeEnum(event).None? then i + FirstUnfiltered(snapshot[i..]) else |snapshot|
  }

  predicate AllMatch(snapshot: seq<Binding>, event: InputEvent) {
    forall b <- snapshot :: MatchesEvent(b.event, event)
  }

  /** Whether the callback at position `k` votes to block. */
  predicate VotesBlock(oracle: CallbackOracle, k: nat, b: Binding, e: Option<EnumObject>) {
    oracle(k, b, ArgFor(b, e)).ret == Returned(true)
  }

  lemma InvocationsCons(bs: seq<Binding>, i: nat, n: nat, e: Option<EnumObject>)
    requires i < n <= |bs|
    ensures Invocations(bs[i..n], e) == [Invocation(bs[i], ArgFor(bs[i], e))] + Invocations(bs[i + 1..n], e)
  {
  }

  /** One turn calls binding `i` with the argument its filter calls for, unless the enum fails. */
  lemma StepFollowsSnapshot(snapshot: seq<Binding>, i: nat, event: InputEvent,
                            makeEnum: EnumFactory, oracle: CallbackOracle, p: Progress)
    requires i < |snapshot| && MatchesEvent(snapshot[i].event, event)
    requires p.eventEnum.None? || p.eventEnum == makeEnum(event)
    ensures var (raised, q) := Step(snapshot, i, event, makeEnum, oracle, p);
            && (raised <==> StopAt(snapshot, i, event, makeEnum, p) == i)
            && (raised ==> q.trace == p.trace)
            && (!raised ==>
                  && q.trace == p.trace + [Invocation(snapshot[i], ArgFor(snapshot[i], makeEnum(event)))]
                  && q.shouldBlock == (p.shouldBlock || VotesBlock(oracle, i, snapshot[i], makeEnum(event)))
                  && (q.eventEnum.None? || q.eventEnum == makeEnum(event))
                  && StopAt(snapshot, i + 1, event, makeEnum, q) == StopAt(snapshot, i, event, makeEnum, p))
  {
    assert snapshot[i..][1..] == snapshot[i + 1..];
  }

  /** One turn applies the API calls of the callback it runs, and none when it raises. */
  lemma StepAppliesCalls(snapshot: seq<Binding>, i: nat, event: InputEvent,
                         makeEnum: EnumFactory, oracle: CallbackOracle, p: Progress)
    requires i < |snapshot| && MatchesEvent(snapshot[i].event, event)
    requires p.eventEnum.None? || p.eventEnum == makeEnum(event)
    ensures var (raised, q) := Step(snapshot, i, event, makeEnum, oracle, p);
            && (raised ==> q.registry == p.registry)
            && (!raised ==>
                  q.registry == ApplyAll(p.registry, oracle(i, snapshot[i], ArgFor(snapshot[i], makeEnum(event))).calls))
  {
  }

  /**
    The loop ends early, with the exception, exactly when it reaches an
    unfiltered binding and the enum cannot be built.
   */
  lemma {:induction false} RunStopsAt(snapshot: seq<Binding>, i: nat, event: InputEvent,
                                      makeEnum: EnumFactory, oracle: CallbackOracle, p: Progress)
    requires i <= |snapshot| && AllMatch(snapshot, event)
    requires p.eventEnum.None? || p.eventEnum == makeEnum(event)
    ensures var n := StopAt(snapshot, i, event, makeEnum, p);
            && i <= n <= |snapshot|
            && (RunCallbacks(snapshot, i, event, makeEnum, oracle, p).0 == Faulted <==> n < |snapshot|)
    decreases |snapshot| - i
  {
    if i < |snapshot| {
      assert MatchesEvent(snapshot[i].event, event);
      StepFollowsSnapshot(snapshot, i, event, makeEnum, oracle, p);
      var (raised, q) := Step(snapshot, i, event, makeEnum, oracle, p);
      if !raised {
        RunStopsAt(snapshot, i + 1, event, makeEnum, oracle, q);
      }
    }
  }

  /**
    Snapshot order and fault isolation: the loop calls the snapshot's
    bindings one after the other, each once, in snapshot order, up to where
    it stops, whatever the callbacks return, raise or change in the
    registry. Unfiltered bindings get the enum, filtered ones no argument.
   */
  lemma {:induction false} RunFollowsSnapshot(snapshot: seq<Binding>, i: nat, event: InputEvent,
                                              makeEnum: EnumFactory, oracle: CallbackOracle, p: Progress)
    requires i <= |snapshot| && AllMatch(snapshot, event)
    requires p.eventEnum.None? || p.eventEnum == makeEnum(event)
    ensures var n := StopAt(snapshot, i, event, makeEnum, p);
            n <= |snapshot| &&
            RunCallbacks(snapshot, i, event, makeEnum, oracle, p).1.trace ==
              p.trace + Invocations(snapshot[i..n], makeEnum(event))
    decreases |snapshot| - i
  {
    RunStopsAt(snapshot, i, event, makeEnum, oracle, p);
    if i < |snapshot| {
      assert MatchesEvent(snapshot[i].event, event);
      StepFollowsSnapshot(snapshot, i, event, makeEnum, oracle, p);
      var (raised, q) := Step(snapshot, i, event, makeEnum, oracle, p);
      if !raised {
        RunFollowsSnapshot(snapshot, i + 1, event, makeEnum, oracle, q);
        var n := StopAt(snapshot, i, event, makeEnum, p);
        var x := Invocation(snapshot[i], ArgFor(snapshot[i], makeEnum(event)));
        var rest := Invocations(snapshot[i + 1..n], makeEnum(event));
        InvocationsCons(snapshot, i, n, makeEnum(event));
        assert (p.trace + [x]) + rest == p.trace + ([x] + rest);
      }
    }
  }

  /**
    Block aggregation: a loop that runs to the end blocks exactly when some
    callback in the snapshot returned the block sentinel (or a vote was
    already recorded); a raising callback casts no vote.
   */
  lemma {:induction false} RunBlocksIff(snapshot: seq<Binding>, i: nat, event: InputEvent,
                                        makeEnum: EnumFactory, oracle: CallbackOracle, p: Progress)
    requires i <= |snapshot| && AllMatch(snapshot, event)
    requires p.eventEnum.None? || p.eventEnum == makeEnum(event)
    ensures var r := RunCallbacks(snapshot, i, event, makeEnum, oracle, p);
            r.0.Decided? ==>
              (r.0.shouldBlock <==>
                 p.shouldBlock || exists k :: i <= k < |snapshot| && VotesBlock(oracle, k, snapshot[k], makeEnum(event)))
    decreases |snapshot| - i
  {
    if i < |snapshot| {
      var e := makeEnum(event);
      var (raised, q) := Step(snapshot, i, event, makeEnum, oracle, p);
      if !raised {
        assert q.shouldBlock == (p.shouldBlock || VotesBlock(oracle, i, snapshot[i], e))
               && (q.eventEnum.None? || q.eventEnum == e) by {
          assert MatchesEvent(snapshot[i].event, event);
          StepFollowsSnapshot(snapshot, i, event, makeEnum, oracle, p);
        }
        assert RunCallbacks(snapshot, i, event, makeEnum, oracle, p) == RunCallbacks(snapshot, i + 1, event, makeEnum, oracle, q);
        RunBlocksIff(snapshot, i + 1, event, makeEnum, oracle, q);
        assert (exists k :: i <= k < |snapshot| && VotesBlock(oracle, k, snapshot[k], e)) <==>
               VotesBlock(oracle, i, snapshot[i], e) ||
               (exists k :: i + 1 <= k < |snapshot| && VotesBlock(oracle, k, snapshot[k], e));
      }
    }
  }

  /**
    What the callbacks from position `i` up to `n` ask of the binding API, in
    the order the loop calls them, each with the argument its filter calls for.
   */
  function CallsMade(snapshot: seq<Binding>, i: nat, n: nat, e: Option<EnumObject>,
                     oracle: CallbackOracle): seq<ApiCall>
    requires i <= n <= |snapshot|
    decreases n - i
  {
    if i == n then []
    else oracle(i, snapshot[i], ArgFor(snapshot[i], e)).calls + CallsMade(snapshot, i + 1, n, e, oracle)
  }

  /**
    The registry a loop leaves behind is the one it started from with the
    API calls of every callback it ran applied in call order: callbacks
    change the registry through the binding API and in no other way, and a
    raising callback keeps the changes it made before raising.
   */
  lemma {:induction false} RunAppliesCalls(snapshot: seq<Binding>, i: nat, event: InputEvent,
                                           makeEnum: EnumFactory, oracle: CallbackOracle, p: Progress)
    requires i <= |snapshot| && AllMatch(snapshot, event)
    requires p.eventEnum.None? || p.eventEnum == makeEnum(event)
    ensures var n := StopAt(snapshot, i, event, makeEnum, p);
            && i <= n <= |snapshot|
            && RunCallbacks(snapshot, i, event, makeEnum, oracle, p).1.registry ==
                 ApplyAll(p.registry, CallsMade(snapshot, i, n, makeEnum(event), oracle))
    decreases |snapshot| - i
  {
    RunStopsAt(snapshot, i, event, makeEnum, oracle, p);
    if i < |snapshot| {
      assert MatchesEvent(snapshot[i].event, event);
      StepFollowsSnapshot(snapshot, i, event, makeEnum, oracle, p);
      StepAppliesCalls(snapshot, i, event, makeEnum, oracle, p);
      var (raised, q) := Step(snapshot, i, event, makeEnum, oracle, p);
      if !raised {
        RunAppliesCalls(snapshot, i + 1, event, makeEnum, oracle, q);
        var n := StopAt(snapshot, i, event, makeEnum, p);
        var own := oracle(i, snapshot[i], ArgFor(snapshot[i], makeEnum(event))).calls;
        ApplyAllConcat(p.registry, own, CallsMade(snapshot, i + 1, n, makeEnum(event), oracle));
      }
    }
  }

  /**
    Lazy enum: the loop builds the enum only if it does not exist yet and
    some binding from position `i` on has no filter, and then exactly once.
   */
  lemma {:induction false} RunBuildsEnumOnce(snapshot: seq<Binding>, i: nat, event: InputEvent,
                                             makeEnum: EnumFactory, oracle: CallbackOracle, p: Progress)
    requires i <= |snapshot|
    ensures var r := RunCallbacks(snapshot, i, event, makeEnum, oracle, p);
            r.1.enumBuilds == p.enumBuilds +
              (if p.eventEnum.None? && exists k :: i <= k < |snapshot| && snapshot[k].event.None? then 1 else 0)
    decreases |snapshot| - i
  {
    if i < |snapshot| {
      var (raised, q) := Step(snapshot, i, event, makeEnum, oracle, p);
      if !raised {
        RunBuildsEnumOnce(snapshot, i + 1, event, makeEnum, oracle, q);
      }
    }
  }

  /**
    Snapshot safety: what the callbacks do to the registry has no effect on
    the loop. Two oracles that return the same things, whatever API calls
    they make, give the same decision, the same invocations and the same
    enum use; only the final registry may differ.
   */
  lemma {:induction false} RunIgnoresRegistry(snapshot: seq<Binding>, i: nat, event: InputEvent, makeEnum: EnumFactory,
                                              oracle1: CallbackOracle, oracle2: CallbackOracle, p1: Progress, p2: Progress)
    requires i <= |snapshot|
    requires forall k, b, a :: oracle1(k, b, a).ret == oracle2(k, b, a).ret
    requires p2 == p1.(registry := p2.registry)
    ensures var r1 := RunCallbacks(snapshot, i, event, makeEnum, oracle1, p1);
            var r2 := RunCallbacks(snapshot, i, event, makeEnum, oracle2, p2);
            r1.0 == r2.0 && r2.1 == r1.1.(registry := r2.1.registry)
    decreases |snapshot| - i
  {
    if i < |snapshot| {
      var b := snapshot[i];
      var (raised1, q1) := Step(snapshot, i, event, makeEnum, oracle1, p1);
      var (raised2, q2) := Step(snapshot, i, event, makeEnum, oracle2, p2);
      if b.event.None? {
        var e := if p1.eventEnum.Some? then p1.eventEnum else makeEnum(event);
        if e.Some? {
          assert oracle1(i, b, EventArg(e.value)).ret == oracle2(i, b, EventArg(e.value)).ret;
        }
      } else {
        assert oracle1(i, b, NoArgs).ret == oracle2(i, b, NoArgs).ret;
      }
      assert raised1 == raised2 && q2 == q1.(registry := q2.registry);
      if !raised1 {
        RunIgnoresRegistry(snapshot, i + 1, event, makeEnum, oracle1, oracle2, q1, q2);
      }
    }
  }

  // ---------------------------------------------------------------------------
  // Properties of a whole dispatch

  /** The position the loop of a dispatch stops at (the snapshot's length unless the enum fails). */
  function DispatchStop(t: Table, params: InputKeyParams, makeEnum: EnumFactory): nat {
    StopAt(Matching(t.entries, params.key, params.event), 0, params.event, makeEnum, Start(t))
  }

  /** The API calls a dispatch makes through its callbacks, in the order they are made. */
  function DispatchCalls(t: Table, self: PlayerInput, params: InputKeyParams, makeEnum: EnumFactory,
                         oracle: CallbackOracle): seq<ApiCall>
  {
    var snapshot := Matching(t.entries, params.key, params.event);
    if snapshot == [] || !MayRunCallbacks(self) then []
    else CallsMade(snapshot, 0, DispatchStop(t, params, makeEnum), makeEnum(params.event), oracle)
  }

  /**
    A dispatch changes the registry exactly as the API calls of the
    callbacks it ran, made one after the other, would.
   */
  lemma DispatchAppliesCallbackCalls(t: Table, self: PlayerInput, params: InputKeyParams,
                                     makeEnum: EnumFactory, oracle: CallbackOracle)
    ensures Dispatch(t, self, params, makeEnum, oracle).1.registry == ApplyAll(t, DispatchCalls(t, self, params, makeEnum, oracle))
  {
    var snapshot := Matching(t.entries, params.key, params.event);
    if snapshot != [] && MayRunCallbacks(self) {
      assert AllMatch(snapshot, params.event);
      RunAppliesCalls(snapshot, 0, params.event, makeEnum, oracle, Start(t));
    }
  }

  /**
    Handles stay retired across a dispatch: a handle that was issued and is
    no longer stored is still not stored afterwards, whatever the callbacks
    registered or deregistered, and every later registration gets a larger
    handle than any issued before.
   */
  lemma DispatchKeepsRemovedHandle(t: Table, self: PlayerInput, params: InputKeyParams,
                                   makeEnum: EnumFactory, oracle: CallbackOracle, h: Handle)
    requires Valid(t) && h < t.nextHandle && !HasHandle(t.entries, h)
    ensures var u := Dispatch(t, self, params, makeEnum, oracle).1.registry;
            Valid(u) && h < u.nextHandle && !HasHandle(u.entries, h)
  {
    DispatchAppliesCallbackCalls(t, self, params, makeEnum, oracle);
    RemovedHandleStaysRemoved(t, DispatchCalls(t, self, params, makeEnum, oracle), h);
  }

  /**
    Which callbacks a dispatch invokes: once the guard passes, exactly the
    bindings that matched key and event in the registry it started from, in
    snapshot order, up to the stop position; an exception escapes exactly
    when the enum is needed and cannot be built.
   */
  lemma DispatchInvokesSnapshot(t: Table, self: PlayerInput, params: InputKeyParams,
                                makeEnum: EnumFactory, oracle: CallbackOracle)
    requires MayRunCallbacks(self)
    ensures var r := Dispatch(t, self, params, makeEnum, oracle);
            var snapshot := Matching(t.entries, params.key, params.event);
            var n := DispatchStop(t, params, makeEnum);
            && n <= |snapshot|
            && r.1.trace == Invocations(snapshot[..n], makeEnum(params.event))
            && (r.0 == Faulted <==> n < |snapshot|)
  {
    var snapshot := Matching(t.entries, params.key, params.event);
    if snapshot != [] {
      assert AllMatch(snapshot, params.event);
      RunStopsAt(snapshot, 0, params.event, makeEnum, oracle, Start(t));
      RunFollowsSnapshot(snapshot, 0, params.event, makeEnum, oracle, Start(t));
      assert snapshot[0..] == snapshot;
    }
  }

  /**
    Every invoked binding was in the registry when the dispatch began and
    matches key and event, so bindings that callbacks add during a dispatch
    do not fire in it.
   */
  lemma DispatchCallsOnlyMatches(t: Table, self: PlayerInput, params: InputKeyParams,
                                 makeEnum: EnumFactory, oracle: CallbackOracle)
    ensures forall inv <- Dispatch(t, self, params, makeEnum, oracle).1.trace ::
              inv.binding in t.entries && inv.binding.key == params.key &&
              MatchesEvent(inv.binding.event, params.event)
  {
    if MayRunCallbacks(self) {
      DispatchInvokesSnapshot(t, self, params, makeEnum, oracle);
      var trace := Dispatch(t, self, params, makeEnum, oracle).1.trace;
      var snapshot := Matching(t.entries, params.key, params.event);
      forall inv | inv in trace
        ensures inv.binding in t.entries && inv.binding.key == params.key &&
                MatchesEvent(inv.binding.event, params.event)
      {
        var k :| 0 <= k < |trace| && trace[k] == inv;
        assert inv.binding == snapshot[k];
      }
    }
  }

  /**
    A dispatch that ends with a decision calls every binding that matched
    when it began, including bindings that an earlier callback deregistered.
   */
  lemma DispatchCallsEveryMatch(t: Table, self: PlayerInput, params: InputKeyParams,
                                makeEnum: EnumFactory, oracle: CallbackOracle, b: Binding)
    requires MayRunCallbacks(self)
    requires b in t.entries && b.key == params.key && MatchesEvent(b.event, params.event)
    requires Dispatch(t, self, params, makeEnum, oracle).0.Decided?
    ensures Invocation(b, ArgFor(b, makeEnum(params.event))) in Dispatch(t, self, params, makeEnum, oracle).1.trace
  {
    DispatchInvokesSnapshot(t, self, params, makeEnum, oracle);
    var snapshot := Matching(t.entries, params.key, params.event);
    var k :| 0 <= k < |snapshot| && snapshot[k] == b;
    assert Dispatch(t, self, params, makeEnum, oracle).1.trace[k] == Invocation(b, ArgFor(b, makeEnum(params.event)));
  }

  /** No binding is called twice in one dispatch: the invoked handles are distinct. */
  lemma DispatchCallsEachOnce(t: Table, self: PlayerInput, params: InputKeyParams,
                              makeEnum: EnumFactory, oracle: CallbackOracle)
    requires Valid(t)
    ensures var trace := Dispatch(t, self, params, makeEnum, oracle).1.trace;
            forall i, j :: 0 <= i < j < |trace| ==> trace[i].binding.handle != trace[j].binding.handle
  {
    if MayRunCallbacks(self) {
      DispatchInvokesSnapshot(t, self, params, makeEnum, oracle);
      var trace := Dispatch(t, self, params, makeEnum, oracle).1.trace;
      var snapshot := Matching(t.entries, params.key, params.event);
      assert DistinctHandles(snapshot);
      forall i, j | 0 <= i < j < |trace| ensures trace[i].binding.handle != trace[j].binding.handle {
        assert trace[i].binding == snapshot[i] && trace[j].binding == snapshot[j];
      }
    }
  }

  /** A deregistered binding never fires: after `deregister_keybind(h)` no call has handle `h`. */
  lemma DeregisteredNeverFires(t: Table, h: Handle, self: PlayerInput, params: InputKeyParams,
                               makeEnum: EnumFactory, oracle: CallbackOracle)
    ensures forall inv <- Dispatch(AfterDeregister(t, h), self, params, makeEnum, oracle).1.trace ::
              inv.binding.handle != h
  {
    DispatchCallsOnlyMatches(AfterDeregister(t, h), self, params, makeEnum, oracle);
  }

  /**
    A dispatch blocks exactly when the guard passes, no exception escapes
    and some matched callback returned the block sentinel.
   */
  lemma DispatchBlocksIff(t: Table, self: PlayerInput, params: InputKeyParams,
                          makeEnum: EnumFactory, oracle: CallbackOracle)
    ensures var r := Dispatch(t, self, params, makeEnum, oracle);
            var snapshot := Matching(t.entries, params.key, params.event);
            r.0 == Decided(true) <==>
              && MayRunCallbacks(self)
              && r.0 != Faulted
              && exists k :: 0 <= k < |snapshot| && VotesBlock(oracle, k, snapshot[k], makeEnum(params.event))
  {
    var snapshot := Matching(t.entries, params.key, params.event);
    if MayRunCallbacks(self) && snapshot != [] {
      RunBlocksIff(snapshot, 0, params.event, makeEnum, oracle, Start(t));
    }
  }

  /**
    The enum is built at most once per dispatch, and only when the guard
    passes and some matched binding has no event filter.
   */
  lemma DispatchBuildsEnumAtMostOnce(t: Table, self: PlayerInput, params: InputKeyParams,
                                     makeEnum: EnumFactory, oracle: CallbackOracle)
    ensures var r := Dispatch(t, self, params, makeEnum, oracle);
            var snapshot := Matching(t.entries, params.key, params.event);
            && r.1.enumBuilds <= 1
            && (r.1.enumBuilds == 1 <==>
                  MayRunCallbacks(self) && exists k :: 0 <= k < |snapshot| && snapshot[k].event.None?)
  {
    var snapshot := Matching(t.entries, params.key, params.event);
    if MayRunCallbacks(self) && snapshot != [] {
      RunBuildsEnumOnce(snapshot, 0, params.event, makeEnum, oracle, Start(t));
    }
  }

  /**
    Self-removal safety for whole dispatches: callbacks that register or
    deregister bindings, themselves included, change neither the decision
    nor which bindings fire in the current dispatch.
   */
  lemma DispatchIgnoresCallbackChanges(t: Table, self: PlayerInput, params: InputKeyParams, makeEnum: EnumFactory,
                                       oracle1: CallbackOracle, oracle2: CallbackOracle)
    requires forall k, b, a :: oracle1(k, b, a).ret == oracle2(k, b, a).ret
    ensures var r1 := Dispatch(t, self, params, makeEnum, oracle1);
            var r2 := Dispatch(t, self, params, makeEnum, oracle2);
            r1.0 == r2.0 && r1.1.trace == r2.1.trace && r1.1.enumBuilds == r2.1.enumBuilds
  {
    var snapshot := Matching(t.entries, params.key, params.event);
    if MayRunCallbacks(self) && snapshot != [] {
      RunIgnoresRegistry(snapshot, 0, params.event, makeEnum, oracle1, oracle2, Start(t), Start(t));
    }
  }
}
