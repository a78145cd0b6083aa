/** The capped, resetting sets of keys behind the app-used and plugin-used events. */
module EventDedupe {

  import opened Wrappers

  const MAX_KEYS := 4096

  datatype Key = Key(turnId: string, id: string)

  /** What the two dedupe methods are asked about. */
  datatype Call =
    | App(turnId: string, connectorId: Option<string>)
    | Plugin(turnId: string, pluginId: Option<string>, remotePluginId: Option<string>)
  {
    /** The key to remember; a plugin falls back on its remote id. */
    function KeyOf(): Option<Key> {
      var id := match this
                case App(_, connectorId) => connectorId
                case Plugin(_, pluginId, remotePluginId) => pluginId.Or(remotePluginId);
      match id
      case None => None
      case Some(text) => Some(Key(turnId, text))
    }

    /** A full set is cleared by any plugin call, but only by app calls that have an id. */
    predicate Resets(emitted: set<Key>) {
      |emitted| >= MAX_KEYS && (Plugin? || KeyOf().Some?)
    }
  }

  /** Calls have the same key exactly when they are about the same turn and the same id; a plugin's own id comes first. */
  lemma SameKeyIff(a: Call, b: Call)
    requires a.KeyOf().Some? && b.KeyOf().Some?
    ensures a.KeyOf() == b.KeyOf() <==> a.turnId == b.turnId && exists id :: Identifies(a, id) && Identifies(b, id)
    ensures forall call: Call :: call.KeyOf().None? <==> forall id :: !Identifies(call, id)
  {
    assert Identifies(a, a.KeyOf().value.id) && Identifies(b, b.KeyOf().value.id);
    forall call: Call ensures call.KeyOf().None? <==> forall id :: !Identifies(call, id) {
      if call.KeyOf().Some? {
        assert Identifies(call, call.KeyOf().value.id);
      }
    }
  }

  predicate Identifies(call: Call, id: string) {
    match call
    case App(_, connectorId) => connectorId == Some(id)
    case Plugin(_, pluginId, remotePluginId) => pluginId == Some(id) || (pluginId == None && remotePluginId == Some(id))
  }

  function Cleared(call: Call, emitted: set<Key>): set<Key> {
    if call.Resets(emitted) then {} else emitted
  }

  function After(call: Call, emitted: set<Key>): set<Key> {
    match call.KeyOf()
    case None => Cleared(call, emitted)
    case Some(key) => Cleared(call, emitted) + {key}
  }

  predicate Admits(call: Call, emitted: set<Key>) {
    match call.KeyOf()
    case None => true
    case Some(key) => key !in Cleared(call, emitted)
  }

  // ---- the methods of the source ----------------------------------------------

  class EmittedKeys {
    var emitted: set<Key>

    constructor ()
      ensures emitted == {}
    {
      emitted := {};
    }

    /** `HashSet::insert`: whether the key was new. */
    method Insert(key: Key) returns (isNew: bool)
      modifies this
      ensures emitted == old(emitted) + {key}
      ensures isNew == (key !in old(emitted))
    {
      isNew := key !in emitted;
      emitted := emitted + {key};
    }

    method ShouldEnqueueAppUsed(turnId: string, connectorId: Option<string>) returns (enqueue: bool)
      modifies this
      ensures emitted == After(App(turnId, connectorId), old(emitted))
      ensures enqueue == Admits(App(turnId, connectorId), old(emitted))
    {
      if connectorId.None? {
        return true;
      }
      if |emitted| >= MAX_KEYS {
        emitted := {};
      }
      enqueue := Insert(Key(turnId, connectorId.value));
    }

    method ShouldEnqueuePluginUsed(turnId: string, pluginId: Option<string>, remotePluginId: Option<string>)
      returns (enqueue: bool)
      modifies this
      ensures emitted == After(Plugin(turnId, pluginId, remotePluginId), old(emitted))
      ensures enqueue == Admits(Plugin(turnId, pluginId, remotePluginId), old(emitted))
    {
      if |emitted| >= MAX_KEYS {
        emitted := {};
      }
      var id := pluginId.Or(remotePluginId);
      if id.None? {
        return true;
      }
      enqueue := Insert(Key(turnId, id.value));
    }
  }

  // ---- runs -------------------------------------------------------------------

  /** The set before call `n` of a run that starts empty. */
  function Before(calls: seq<Call>, n: nat): set<Key>
    requires n <= |calls|
  {
    if n == 0 then {} else After(calls[n - 1], Before(calls, n - 1))
  }

  predicate ResetAt(calls: seq<Call>, n: nat)
    requires n < |calls|
  {
    calls[n].Resets(Before(calls, n))
  }

  /** Call `n` is let through and remembers `key`. */
  predicate AdmitsKey(calls: seq<Call>, n: nat, key: Key)
    requires n < |calls|
  {
    calls[n].KeyOf() == Some(key) && Admits(calls[n], Before(calls, n))
  }

  /** The keys admitted by calls `lo` up to `hi`, in order. */
  function Admitted(calls: seq<Call>, lo: nat, hi: nat): seq<Key>
    requires lo <= hi <= |calls|
  {
    if lo == hi then []
    else WithKey(Admitted(calls, lo, hi - 1), calls[hi - 1], Before(calls, hi - 1))
  }

  function WithKey(keys: seq<Key>, call: Call, emitted: set<Key>): seq<Key> {
    keys + if call.KeyOf().Some? && Admits(call, emitted) then [call.KeyOf().value] else []
  }

  predicate Distinct(keys: seq<Key>) {
    forall i, j | 0 <= i < j < |keys| :: keys[i] != keys[j]
  }

  function Members(keys: seq<Key>): set<Key> {
    set key | key in keys
  }

  lemma {:induction false} DistinctSize(keys: seq<Key>)
    requires Distinct(keys)
    ensures |Members(keys)| == |keys|
  {
    if keys != [] {
      var n := |keys| - 1;
      DistinctSize(keys[..n]);
      assert keys == keys[..n] + [keys[n]];
      assert Members(keys) == Members(keys[..n]) + {keys[n]};
    }
  }

  /** The set never holds more than the cap. */
  lemma {:induction false} NeverOverfull(calls: seq<Call>, n: nat)
    requires n <= |calls|
    ensures |Before(calls, n)| <= 4096
  {
    if n > 0 {
      NeverOverfull(calls, n - 1);
      AfterBounded(calls[n - 1], Before(calls, n - 1));
    }
  }

  lemma AfterBounded(call: Call, emitted: set<Key>)
    requires |emitted| <= MAX_KEYS
    ensures |After(call, emitted)| <= MAX_KEYS
  {
  }

  /** A new epoch starts with the run and with every reset; none starts strictly between the two calls. */
  predicate SameEpoch(calls: seq<Call>, start: nat, n: nat)
    requires start <= n <= |calls|
  {
    && (start == 0 || (start < n && ResetAt(calls, start)))
    && forall r | start < r < n :: !ResetAt(calls, r)
  }

  /** Within an epoch the set is exactly the keys admitted since its start, each admitted once. */
  lemma {:induction false} EpochKeys(calls: seq<Call>, start: nat, n: nat)
    requires start <= n <= |calls| && SameEpoch(calls, start, n)
    ensures Before(calls, n) == Members(Admitted(calls, start, n))
    ensures Distinct(Admitted(calls, start, n))
    decreases n
  {
    hide *;
    if start == n {
      EmptyEpoch(calls, n);
    } else {
      var call, emitted := calls[n - 1], Before(calls, n - 1);
      var earlier := Admitted(calls, start, n - 1);
      if start < n - 1 || start == 0 {
        EpochShrinks(calls, start, n);
        EpochKeys(calls, start, n - 1);
      } else {
        EmptyEpoch(calls, n - 1);
      }
      ClearedIsEarlier(calls, start, n);
      EpochStep(call, emitted, earlier);
      AdmittedStep(calls, start, n);
    }
  }

  lemma EmptyEpoch(calls: seq<Call>, n: nat)
    requires n <= |calls|
    ensures Admitted(calls, n, n) == [] && Distinct(Admitted(calls, n, n))
    ensures SameEpoch(calls, n, n) ==> n == 0 && Before(calls, n) == Members([])
  {
  }

  lemma EpochShrinks(calls: seq<Call>, start: nat, n: nat)
    requires start < n <= |calls| && SameEpoch(calls, start, n)
    requires start < n - 1 || start == 0
    ensures SameEpoch(calls, start, n - 1)
  {
  }

  lemma AdmittedStep(calls: seq<Call>, start: nat, n: nat)
    requires start < n <= |calls|
    ensures var call, emitted := calls[n - 1], Before(calls, n - 1);
            && Before(calls, n) == After(call, emitted)
            && Admitted(calls, start, n) == WithKey(Admitted(calls, start, n - 1), call, emitted)
  {
  }

  lemma ClearedIsEarlier(calls: seq<Call>, start: nat, n: nat)
    requires start < n <= |calls| && SameEpoch(calls, start, n)
    requires start < n - 1 || start == 0 ==> Before(calls, n - 1) == Members(Admitted(calls, start, n - 1))
    ensures Cleared(calls[n - 1], Before(calls, n - 1)) == Members(Admitted(calls, start, n - 1))
    ensures start == n - 1 ==> Admitted(calls, start, n - 1) == []
  {
    if start < n - 1 {
      assert !ResetAt(calls, n - 1);
    }
  }

  lemma EpochStep(call: Call, emitted: set<Key>, earlier: seq<Key>)
    requires Cleared(call, emitted) == Members(earlier) && Distinct(earlier)
    ensures After(call, emitted) == Members(WithKey(earlier, call, emitted))
    ensures Distinct(WithKey(earlier, call, emitted))
  {
  }

  /** Between consecutive resets, and from the start to the first one, exactly 4096 distinct keys are admitted. */
  lemma EpochIsFull(calls: seq<Call>, start: nat, reset: nat)
    requires start <= reset < |calls| && SameEpoch(calls, start, reset) && ResetAt(calls, reset)
    ensures |Admitted(calls, start, reset)| == 4096
    ensures Distinct(Admitted(calls, start, reset))
  {
    EpochKeys(calls, start, reset);
    DistinctSize(Admitted(calls, start, reset));
    NeverOverfull(calls, reset);
  }

  /** A call with a key is let through exactly when it resets or its key is new in the epoch. */
  lemma AdmittedIffNew(calls: seq<Call>, start: nat, n: nat)
    requires start <= n < |calls| && SameEpoch(calls, start, n) && calls[n].KeyOf().Some?
    ensures Admits(calls[n], Before(calls, n))
       <==> ResetAt(calls, n) || calls[n].KeyOf().value !in Admitted(calls, start, n)
  {
    EpochKeys(calls, start, n);
  }

  /** A remembered key stays until a reset. */
  lemma {:induction false} KeyStays(calls: seq<Call>, i: nat, n: nat, key: Key)
    requires i < n <= |calls| && calls[i].KeyOf() == Some(key)
    requires forall r | i < r < n :: !ResetAt(calls, r)
    ensures key in Before(calls, n)
    decreases n
  {
    if i + 1 < n {
      KeyStays(calls, i, n - 1, key);
      assert !ResetAt(calls, n - 1);
    }
  }

  /** A key is admitted a second time only if a reset lies between. */
  lemma ReadmittedAfterReset(calls: seq<Call>, i: nat, j: nat, key: Key)
    requires i < j < |calls| && AdmitsKey(calls, i, key) && AdmitsKey(calls, j, key)
    ensures exists r :: i < r <= j && ResetAt(calls, r)
  {
    if forall r | i < r < j :: !ResetAt(calls, r) {
      KeyStays(calls, i, j, key);
      assert ResetAt(calls, j);
    }
  }

  /** A plugin call without any id is always let through, and still empties a full set. */
  lemma AnonymousPluginResets(emitted: set<Key>, turnId: string)
    requires |emitted| >= MAX_KEYS
    ensures var plugin, app := Plugin(turnId, None, None), App(turnId, None);
            && Admits(plugin, emitted) && After(plugin, emitted) == {}
            && Admits(app, emitted) && After(app, emitted) == emitted
  {
  }
}
