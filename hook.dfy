/**
  The detour installed over `UGbxEnhancedPlayerInput::InputKey`: it asks the
  dispatcher first, answers 1 ("handled") when a callback asked to block,
  and otherwise, an escaping exception included, calls the original
  function with the same arguments and returns what it returns.
 */
module Hook {
  import opened Bindings
  import opened Dispatcher

  /** The original `InputKey`, as recorded when the detour was installed. */
  type OriginalInputKey = (PlayerInput, InputKeyParams) -> nat

  /** The value the hook returns when it swallows the event. */
  const HandledReturn: nat := 1

  /** What the hook did: swallowed the event, or forwarded it and got `ret` back. */
  datatype HookResult = Handled | Forwarded(ret: nat) {
    function Ret(): nat {
      if Handled? then HandledReturn else ret
    }
  }

  /**
    `playerinput_inputkey_hook` after dispatch has ended with `d`: the event
    is swallowed only on a decision to block, and a forwarded event returns
    exactly what the original returns.
   */
  function InputKeyHook(d: Dispatched, self: PlayerInput, params: InputKeyParams,
                        original: OriginalInputKey): (r: HookResult)
    ensures r.Handled? <==> d.Decided? && d.shouldBlock
    ensures r.Ret() == (if r.Handled? then 1 else original(self, params))
  {
    if d == Decided(true) then Handled else Forwarded(original(self, params))
  }

  /**
    The host's own handling is skipped exactly when the guard passes, no
    exception escapes dispatch and some matched callback returned the block
    sentinel; in every other case the original is called with the same
    arguments and its result is returned unchanged.
   */
  lemma HookBlocksIff(t: Table, self: PlayerInput, params: InputKeyParams, makeEnum: EnumFactory,
                      oracle: CallbackOracle, original: OriginalInputKey)
    ensures var d := Dispatch(t, self, params, makeEnum, oracle).0;
            var h := InputKeyHook(d, self, params, original);
            var snapshot := Matching(t.entries, params.key, params.event);
            && (h.Handled? <==>
                  && MayRunCallbacks(self)
                  && d != Faulted
                  && exists k :: 0 <= k < |snapshot| && VotesBlock(oracle, k, snapshot[k], makeEnum(params.event)))
            && (h.Handled? ==> h.Ret() == 1)
            && (h.Forwarded? ==> h.Ret() == original(self, params))
  {
    DispatchBlocksIff(t, self, params, makeEnum, oracle);
  }

  /** An exception escaping dispatch never stops the original from running. */
  lemma HookForwardsOnFault(t: Table, self: PlayerInput, params: InputKeyParams, makeEnum: EnumFactory,
                            oracle: CallbackOracle, original: OriginalInputKey)
    requires Dispatch(t, self, params, makeEnum, oracle).0 == Faulted
    ensures InputKeyHook(Dispatch(t, self, params, makeEnum, oracle).0, self, params, original)
              == Forwarded(original(self, params))
  {
  }
}
