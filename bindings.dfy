/**
  The binding registry of the keybind module as values: what one keybind is,
  the state of the global multimap together with the handle counter, and the
  four operations of the binding API as pure transitions over that state.
  The class in keybinds.dfy keeps the same state in fields and is proved to
  follow these transitions.
 */
module Bindings {

  datatype Option<T> = None | Some(value: T)

  /** An interned key name (`FName`); only its equality matters here. */
  type KeyName(==, !new)

  /** The scripting-side callable stored with a keybind, compared by identity. */
  type Callback(==, !new)

  /** `EInputEvent`, an unsigned 32-bit enum value. */
  type InputEvent = x: nat | x < 0x1_0000_0000

  /** The opaque handle given out by `register_keybind`; 0 is never issued. */
  type Handle = nat

  /** One entry of the multimap: its key and its `KeybindData`. */
  datatype Binding = Binding(key: KeyName, event: Option<InputEvent>, callback: Callback, handle: Handle)

  /** The registry: the entries of `all_keybinds` and the value of `global_handle`. */
  datatype Table = Table(entries: seq<Binding>, nextHandle: Handle)

  /** A call into the binding API, as a callback may make while it runs. */
  datatype ApiCall =
    | Register(key: KeyName, event: Option<InputEvent>, callback: Callback)
    | Deregister(handle: Handle)
    | DeregisterByKey(key: KeyName)
    | DeregisterAll

  /** The table every process starts with: no entries, counter at 1. */
  const Initial: Table := Table([], 1)

  predicate DistinctHandles(es: seq<Binding>) {
    forall i, j :: 0 <= i < j < |es| ==> es[i].handle != es[j].handle
  }

  /**
    The registry invariant: the counter is at least 1, every stored handle
    was issued by it (so is non-zero and below the counter) and no handle
    is stored twice.
   */
  predicate Valid(t: Table) {
    && t.nextHandle >= 1
    && (forall b <- t.entries :: 1 <= b.handle < t.nextHandle)
    && DistinctHandles(t.entries)
  }

  predicate HasHandle(es: seq<Binding>, h: Handle) {
    exists b <- es :: b.handle == h
  }

  /** The entries that `keep` accepts, in their original order. */
  function Keep(es: seq<Binding>, keep: Binding -> bool): (r: seq<Binding>)
    ensures |r| <= |es|
    ensures forall b :: b in r <==> b in es && keep(b)
    ensures DistinctHandles(es) ==> DistinctHandles(r)
  {
    if es == [] then []
    else
      var rest := Keep(es[1..], keep);
      if keep(es[0]) then
        assert DistinctHandles(es) ==> forall b <- rest :: b.handle != es[0].handle by {
          if DistinctHandles(es) { DistinctHandlesTail(es); }
        }
        [es[0]] + rest
      else rest
  }

  lemma DistinctHandlesTail(es: seq<Binding>)
    requires es != [] && DistinctHandles(es)
    ensures DistinctHandles(es[1..])
    ensures forall b <- es[1..] :: b.handle != es[0].handle
  {
    var tail := es[1..];
    forall i, j | 0 <= i < j < |tail| ensures tail[i].handle != tail[j].handle {
      assert tail[i] == es[i + 1] && tail[j] == es[j + 1];
    }
    forall b | b in tail ensures b.handle != es[0].handle {
      var j :| 0 <= j < |tail| && tail[j] == b;
      assert es[j + 1] == b;
    }
  }

  lemma {:induction false} KeepEverything(es: seq<Binding>, keep: Binding -> bool)
    requires forall b <- es :: keep(b)
    ensures Keep(es, keep) == es
  {
    if es != [] {
      KeepEverything(es[1..], keep);
      assert es == [es[0]] + es[1..];
    }
  }

  /** When no two entries share a handle, dropping one handle drops at most one entry. */
  lemma {:induction false} KeepDropsAtMostOne(es: seq<Binding>, h: Handle)
    requires DistinctHandles(es)
    ensures |Keep(es, (b: Binding) => b.handle != h)| >= |es| - 1
  {
    if es != [] {
      var tail := es[1..];
      DistinctHandlesTail(es);
      if es[0].handle == h {
        KeepEverything(tail, (b: Binding) => b.handle != h);
      } else {
        KeepDropsAtMostOne(tail, h);
      }
    }
  }

  /**
    `register_keybind`: the counter's current value becomes the new handle,
    the counter moves on by one, and one entry is added beside the
    existing ones, which stay as they were.
   */
  function AfterRegister(t: Table, key: KeyName, event: Option<InputEvent>, callback: Callback): (r: (Table, Handle))
    ensures r.1 == t.nextHandle && r.0.nextHandle == r.1 + 1
    ensures |r.0.entries| == |t.entries| + 1
    ensures r.0.entries[..|t.entries|] == t.entries
    ensures r.0.entries[|t.entries|..] == [Binding(key, event, callback, r.1)]
    ensures Valid(t) ==> Valid(r.0) && r.1 >= 1 && !HasHandle(t.entries, r.1)
  {
    var handle := t.nextHandle;
    (Table(t.entries + [Binding(key, event, callback, handle)], handle + 1), handle)
  }

  /** `deregister_keybind`: erase the entries whose handle is `h`, keep the counter. */
  function AfterDeregister(t: Table, h: Handle): (r: Table)
    ensures r.nextHandle == t.nextHandle
    ensures forall b :: b in r.entries <==> b in t.entries && b.handle != h
    ensures Valid(t) ==> Valid(r)
  {
    t.(entries := Keep(t.entries, (b: Binding) => b.handle != h))
  }

  /** `_deregister_by_key`: erase every entry stored under `key`, keep the counter. */
  function AfterDeregisterByKey(t: Table, key: KeyName): (r: Table)
    ensures r.nextHandle == t.nextHandle
    ensures forall b :: b in r.entries <==> b in t.entries && b.key != key
    ensures Valid(t) ==> Valid(r)
  {
    t.(entries := Keep(t.entries, (b: Binding) => b.key != key))
  }

  /** `_deregister_all`: no entry is left, and the counter is not reset. */
  function AfterDeregisterAll(t: Table): (r: Table)
    ensures r.nextHandle == t.nextHandle && |r.entries| == 0
    ensures Valid(t) ==> Valid(r)
  {
    t.(entries := [])
  }

  /** A handle nobody holds is ignored by `deregister_keybind`. */
  lemma DeregisterUnknownIsNoOp(t: Table, h: Handle)
    requires !HasHandle(t.entries, h)
    ensures AfterDeregister(t, h) == t
  {
    KeepEverything(t.entries, (b: Binding) => b.handle != h);
  }

  /** Deregistering one handle removes at most one binding, and a second time nothing. */
  lemma DeregisterRemovesAtMostOne(t: Table, h: Handle)
    requires Valid(t)
    ensures |AfterDeregister(t, h).entries| >= |t.entries| - 1
    ensures AfterDeregister(AfterDeregister(t, h), h) == AfterDeregister(t, h)
  {
    KeepDropsAtMostOne(t.entries, h);
    DeregisterUnknownIsNoOp(AfterDeregister(t, h), h);
  }

  /** One API call applied to the table. */
  function Apply(t: Table, call: ApiCall): Table {
    match call
    case Register(key, event, callback) => AfterRegister(t, key, event, callback).0
    case Deregister(h) => AfterDeregister(t, h)
    case DeregisterByKey(key) => AfterDeregisterByKey(t, key)
    case DeregisterAll => AfterDeregisterAll(t)
  }

  function Registrations(calls: seq<ApiCall>): nat {
    if calls == [] then 0
    else (if calls[0].Register? then 1 else 0) + Registrations(calls[1..])
  }

  /**
    API calls applied in order. The registry stays valid, and the counter
    moves on by exactly one per registration, so the handles issued along
    the way are consecutive and never repeat.
   */
  function ApplyAll(t: Table, calls: seq<ApiCall>): (r: Table)
    ensures Valid(t) ==> Valid(r)
    ensures r.nextHandle == t.nextHandle + Registrations(calls)
    decreases |calls|
  {
    if calls == [] then t else ApplyAll(Apply(t, calls[0]), calls[1..])
  }

  /** Applying two runs of API calls one after the other is applying their concatenation. */
  lemma {:induction false} ApplyAllConcat(t: Table, a: seq<ApiCall>, b: seq<ApiCall>)
    ensures ApplyAll(t, a + b) == ApplyAll(ApplyAll(t, a), b)
    decreases |a|
  {
    if a == [] {
      assert a + b == b;
    } else {
      assert (a + b)[0] == a[0] && (a + b)[1..] == a[1..] + b;
      ApplyAllConcat(Apply(t, a[0]), a[1..], b);
    }
  }

  /**
    A handle that is below the counter and no longer stored never comes
    back, whatever API calls follow: a removed handle stays invalid.
   */
  lemma {:induction false} RemovedHandleStaysRemoved(t: Table, calls: seq<ApiCall>, h: Handle)
    requires Valid(t)
    requires h < t.nextHandle && !HasHandle(t.entries, h)
    ensures !HasHandle(ApplyAll(t, calls).entries, h)
    decreases |calls|
  {
    if calls != [] {
      var next := Apply(t, calls[0]);
      assert !HasHandle(next.entries, h) by {
        if calls[0].Register? {
          var es := next.entries;
          assert es == t.entries + [es[|es| - 1]];
          forall b | b in es ensures b.handle != h {
            if b !in t.entries { assert b == es[|es| - 1]; }
          }
        }
      }
      RemovedHandleStaysRemoved(next, calls[1..], h);
    }
  }
}
