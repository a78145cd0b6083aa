/** Splitting events into requests, and what `send_track_events` posts. */
module EventBatches {

  function Flatten<E>(batches: seq<seq<E>>): seq<E> {
    if batches == [] then [] else batches[0] + Flatten(batches[1..])
  }

  lemma {:induction false} FlattenAppend<E>(a: seq<seq<E>>, b: seq<seq<E>>)
    ensures Flatten(a + b) == Flatten(a) + Flatten(b)
  {
    if a == [] {
      assert a + b == b;
    } else {
      assert (a + b)[1..] == a[1..] + b;
      FlattenAppend(a[1..], b);
    }
  }

  // ---- batchings --------------------------------------------------------------

  /** A request of its own for an isolated event; no isolated event anywhere else. */
  predicate WellCut<E>(batch: seq<E>, isolated: E -> bool) {
    batch != [] && (|batch| == 1 || forall i | 0 <= i < |batch| :: !isolated(batch[i]))
  }

  predicate AllWellCut<E>(batches: seq<seq<E>>, isolated: E -> bool) {
    forall i | 0 <= i < |batches| :: WellCut(batches[i], isolated)
  }

  /** Of two neighbouring requests at least one is an isolated event: plain runs are never split. */
  predicate Maximal<E>(batches: seq<seq<E>>, isolated: E -> bool)
    requires AllWellCut(batches, isolated)
  {
    forall i | 0 <= i < |batches| - 1 :: isolated(batches[i][0]) || isolated(batches[i + 1][0])
  }

  /** The whole promise of `track_event_request_batches`. */
  ghost predicate IsBatching<E>(events: seq<E>, batches: seq<seq<E>>, isolated: E -> bool) {
    && Flatten(batches) == events
    && AllWellCut(batches, isolated)
    && Maximal(batches, isolated)
  }

  lemma FirstOfFlatten<E>(batches: seq<seq<E>>, isolated: E -> bool)
    requires AllWellCut(batches, isolated) && batches != []
    ensures Flatten(batches) != [] && Flatten(batches)[0] == batches[0][0]
    ensures Flatten(batches)[|batches[0]|..] == Flatten(batches[1..])
    ensures |batches| > 1 ==> |Flatten(batches)| > |batches[0]| && Flatten(batches)[|batches[0]|] == batches[1][0]
  {
    assert WellCut(batches[0], isolated);
    if |batches| > 1 {
      assert WellCut(batches[1], isolated);
      assert batches[1..][0] == batches[1];
    }
  }

  lemma FirstBatchLength<E>(a: seq<seq<E>>, b: seq<seq<E>>, isolated: E -> bool)
    requires AllWellCut(a, isolated) && Maximal(a, isolated) && a != []
    requires AllWellCut(b, isolated) && b != []
    requires Flatten(a) == Flatten(b)
    ensures |b[0]| <= |a[0]|
  {
    var k := |a[0]|;
    assert |b[0]| <= |Flatten(b)|;
    assert k < |b[0]| ==> Flatten(b)[k] == b[0][k];
    FirstOfFlatten(a, isolated);
    FirstOfFlatten(b, isolated);
    assert WellCut(b[0], isolated);
    if |a| == 1 {
      assert a[1..] == [];
    } else {
      assert isolated(a[0][0]) || isolated(a[0 + 1][0]);
    }
  }

  lemma TailIsBatching<E>(batches: seq<seq<E>>, isolated: E -> bool)
    requires AllWellCut(batches, isolated) && Maximal(batches, isolated) && batches != []
    ensures AllWellCut(batches[1..], isolated) && Maximal(batches[1..], isolated)
  {
    var tail := batches[1..];
    assert AllWellCut(tail, isolated);
    forall i | 0 <= i < |tail| - 1 ensures isolated(tail[i][0]) || isolated(tail[i + 1][0]) {
      var j := i + 1;
      assert isolated(batches[j][0]) || isolated(batches[j + 1][0]);
    }
  }

  /** The promise leaves no choice: there is one way to batch a list of events. */
  lemma {:induction false} BatchingUnique<E>(events: seq<E>, a: seq<seq<E>>, b: seq<seq<E>>, isolated: E -> bool)
    requires IsBatching(events, a, isolated) && IsBatching(events, b, isolated)
    ensures a == b
    decreases |a|
  {
    if a != [] { FirstOfFlatten(a, isolated); }
    if b != [] { FirstOfFlatten(b, isolated); }
    if a != [] && b != [] {
      FirstBatchLength(a, b, isolated);
      FirstBatchLength(b, a, isolated);
      assert a[0] == events[..|a[0]|] == b[0];
      TailIsBatching(a, isolated);
      TailIsBatching(b, isolated);
      BatchingUnique(events[|a[0]|..], a[1..], b[1..], isolated);
      assert a == [a[0]] + a[1..] && b == [b[0]] + b[1..];
    }
  }

  /** The batching of a list of events. */
  function Batches<E>(events: seq<E>, isolated: E -> bool): (batches: seq<seq<E>>)
    ensures IsBatching(events, batches, isolated)
  {
    if events == [] then []
    else
      var first, rest := events[0], Batches(events[1..], isolated);
      if isolated(first) || rest == [] || isolated(rest[0][0])
      then
        CutApart(first, rest, isolated);
        [[first]] + rest
      else
        JoinFirst(first, rest, isolated);
        [[first] + rest[0]] + rest[1..]
  }

  lemma CutApart<E>(first: E, rest: seq<seq<E>>, isolated: E -> bool)
    requires AllWellCut(rest, isolated) && Maximal(rest, isolated)
    requires isolated(first) || rest == [] || isolated(rest[0][0])
    ensures IsBatching([first] + Flatten(rest), [[first]] + rest, isolated)
  {
    var batches := [[first]] + rest;
    assert batches[1..] == rest;
    forall i | 0 <= i < |batches| ensures WellCut(batches[i], isolated) {
      if i > 0 { assert batches[i] == rest[i - 1]; }
    }
    forall i | 0 <= i < |batches| - 1 ensures isolated(batches[i][0]) || isolated(batches[i + 1][0]) {
      if i > 0 {
        var j := i - 1;
        assert isolated(rest[j][0]) || isolated(rest[j + 1][0]);
      }
    }
  }

  lemma JoinFirst<E>(first: E, rest: seq<seq<E>>, isolated: E -> bool)
    requires AllWellCut(rest, isolated) && Maximal(rest, isolated)
    requires rest != [] && !isolated(first) && !isolated(rest[0][0])
    ensures IsBatching([first] + Flatten(rest), [[first] + rest[0]] + rest[1..], isolated)
  {
    var batch := [first] + rest[0];
    var batches := [batch] + rest[1..];
    assert WellCut(rest[0], isolated);
    assert Flatten(batches) == [first] + Flatten(rest) by { JoinedFlatten(first, rest); }
    assert WellCut(batch, isolated) by { JoinedCut(first, rest[0], isolated); }
    hide Flatten, WellCut;
    forall i | 0 <= i < |batches| ensures WellCut(batches[i], isolated) {
      if i > 0 { assert batches[i] == rest[i]; }
    }
    forall i | 0 <= i < |batches| - 1 ensures isolated(batches[i][0]) || isolated(batches[i + 1][0]) {
      assert isolated(rest[i][0]) || isolated(rest[i + 1][0]);
    }
  }

  lemma JoinedFlatten<E>(first: E, rest: seq<seq<E>>)
    requires rest != []
    ensures Flatten([[first] + rest[0]] + rest[1..]) == [first] + Flatten(rest)
  {
    assert ([[first] + rest[0]] + rest[1..])[1..] == rest[1..];
    assert [first] + rest[0] + Flatten(rest[1..]) == [first] + (rest[0] + Flatten(rest[1..]));
  }

  lemma JoinedCut<E>(first: E, batch: seq<E>, isolated: E -> bool)
    requires WellCut(batch, isolated) && !isolated(first) && !isolated(batch[0])
    ensures WellCut([first] + batch, isolated)
  {
    forall k | 0 <= k < |[first] + batch| ensures !isolated(([first] + batch)[k]) {
      if k > 0 { assert ([first] + batch)[k] == batch[k - 1]; }
    }
  }

  // ---- the loop of the source -------------------------------------------------

  /** The batches once the current one, if any, is pushed. */
  function Pushed<E>(batches: seq<seq<E>>, current: seq<E>): seq<seq<E>> {
    if current == [] then batches else batches + [current]
  }

  /** The last batch pushed is always an isolated event. */
  predicate LastIsolated<E>(batches: seq<seq<E>>, isolated: E -> bool) {
    batches == [] || (batches[|batches| - 1] != [] && isolated(batches[|batches| - 1][0]))
  }

  predicate NoneIsolated<E>(batch: seq<E>, isolated: E -> bool) {
    forall i | 0 <= i < |batch| :: !isolated(batch[i])
  }

  lemma FlattenPushed<E>(batches: seq<seq<E>>, current: seq<E>)
    ensures Flatten(Pushed(batches, current)) == Flatten(batches) + current
  {
    if current != [] {
      FlattenAppend(batches, [current]);
      assert [current][1..] == [];
    }
  }

  /** Pushing a batch keeps a batching when one of the two neighbours is isolated. */
  lemma PushKeepsBatching<E>(batches: seq<seq<E>>, batch: seq<E>, isolated: E -> bool)
    requires AllWellCut(batches, isolated) && Maximal(batches, isolated) && WellCut(batch, isolated)
    requires LastIsolated(batches, isolated) || isolated(batch[0])
    ensures AllWellCut(batches + [batch], isolated) && Maximal(batches + [batch], isolated)
  {
    var all := batches + [batch];
    assert AllWellCut(all, isolated);
    forall i | 0 <= i < |all| - 1 ensures isolated(all[i][0]) || isolated(all[i + 1][0]) {
      if i + 1 < |batches| {
        assert isolated(batches[i][0]) || isolated(batches[i + 1][0]);
      }
    }
  }

  lemma PushedIsBatching<E>(events: seq<E>, batches: seq<seq<E>>, current: seq<E>, isolated: E -> bool)
    requires AllWellCut(batches, isolated) && Maximal(batches, isolated)
    requires LastIsolated(batches, isolated) && NoneIsolated(current, isolated)
    requires Flatten(batches) + current == events
    ensures IsBatching(events, Pushed(batches, current), isolated)
  {
    FlattenPushed(batches, current);
    if current != [] {
      PushKeepsBatching(batches, current, isolated);
    }
  }

  /** `track_event_request_batches`: one pass that closes the current batch at each isolated event. */
  method TrackEventRequestBatches<E>(events: seq<E>, isolated: E -> bool) returns (batches: seq<seq<E>>)
    ensures IsBatching(events, batches, isolated)
    ensures batches == Batches(events, isolated)
  {
    hide Flatten, Maximal, AllWellCut, Batches;
    batches := [];
    var current: seq<E> := [];
    NothingYet(batches, isolated);
    for k := 0 to |events|
      invariant AllWellCut(batches, isolated) && Maximal(batches, isolated)
      invariant LastIsolated(batches, isolated) && NoneIsolated(current, isolated)
      invariant Flatten(batches) + current == events[..k]
    {
      var event := events[k];
      assert events[..k + 1] == events[..k] + [event];
      FlattenPushed(batches, current);
      if isolated(event) {
        if current != [] {
          PushKeepsBatching(batches, current, isolated);
          batches := batches + [current];
          current := [];
        }
        PushKeepsBatching(batches, [event], isolated);
        FlattenPushed(batches, [event]);
        batches := batches + [[event]];
      } else {
        current := current + [event];
      }
    }
    assert events[..|events|] == events;
    PushedIsBatching(events, batches, current, isolated);
    if current != [] {
      batches := batches + [current];
    }
    BatchingUnique(events, batches, Batches(events, isolated), isolated);
  }

  lemma NothingYet<E>(batches: seq<seq<E>>, isolated: E -> bool)
    requires batches == []
    ensures AllWellCut(batches, isolated) && Maximal(batches, isolated) && Flatten(batches) == []
  {
  }

  // ---- send_track_events ------------------------------------------------------

  /** The authentication found when events are sent. */
  datatype Auth = NoAuth | ApiKeyAuth | BackendAuth | OtherAuth

  function Filter<E>(events: seq<E>, keep: E -> bool): seq<E> {
    if events == [] then []
    else (if keep(events[0]) then [events[0]] else []) + Filter(events[1..], keep)
  }

  /** Increasing places in a list of the given length. */
  predicate Places(places: seq<nat>, n: nat) {
    && (forall j | 0 <= j < |places| :: places[j] < n)
    && (forall i, j | 0 <= i < j < |places| :: places[i] < places[j])
  }

  /** The result is what stands at increasing places, and these are exactly the places of events to keep. */
  ghost predicate Selects<E>(events: seq<E>, keep: E -> bool, r: seq<E>, places: seq<nat>) {
    && Places(places, |events|) && |r| == |places|
    && (forall j | 0 <= j < |r| :: r[j] == events[places[j]])
    && (forall i | 0 <= i < |events| :: i in places <==> keep(events[i]))
  }

  /** Filtering keeps exactly the events to keep, each as often as it occurs, in their order. */
  lemma {:induction false} FilterMeans<E>(events: seq<E>, keep: E -> bool) returns (places: seq<nat>)
    ensures Selects(events, keep, Filter(events, keep), places)
  {
    hide Selects;
    if events == [] {
      places := [];
      NothingSelected(keep);
    } else {
      var later := FilterMeans(events[1..], keep);
      places := (if keep(events[0]) then [0] else []) + Shifted(later);
      SelectsCons(events, keep, Filter(events[1..], keep), later);
    }
  }

  lemma NothingSelected<E>(keep: E -> bool)
    ensures Selects([], keep, [], [])
  {
  }

  lemma SelectsCons<E>(events: seq<E>, keep: E -> bool, r: seq<E>, later: seq<nat>)
    requires events != [] && Selects(events[1..], keep, r, later)
    ensures Selects(events, keep, (if keep(events[0]) then [events[0]] else []) + r,
                    (if keep(events[0]) then [0] else []) + Shifted(later))
  {
    var all, places := (if keep(events[0]) then [events[0]] else []) + r, (if keep(events[0]) then [0] else []) + Shifted(later);
    ShiftedPlaces(later, |events[1..]|);
    forall i | 0 <= i < |events| ensures i in places <==> keep(events[i]) {
      PlaceKept(events, keep, later, i);
    }
    ElementsKept(events, r, later);
    assert keep(events[0]) ==> all == [events[0]] + r && places == [0] + Shifted(later);
    assert !keep(events[0]) ==> all == r && places == Shifted(later);
    hide Places, Shifted;
  }

  lemma ElementsKept<E>(events: seq<E>, r: seq<E>, later: seq<nat>)
    requires events != [] && |r| == |later|
    requires forall j | 0 <= j < |later| :: later[j] < |events[1..]| && r[j] == events[1..][later[j]]
    ensures forall j | 0 <= j < |r| :: Shifted(later)[j] < |events| && r[j] == events[Shifted(later)[j]]
    ensures forall j | 0 <= j < |[events[0]] + r| ::
              ([0] + Shifted(later))[j] < |events| && ([events[0]] + r)[j] == events[([0] + Shifted(later))[j]]
  {
    forall j | 0 <= j < |r| ensures Shifted(later)[j] < |events| && r[j] == events[Shifted(later)[j]] {
      assert Shifted(later)[j] == later[j] + 1 && events[1..][later[j]] == events[later[j] + 1];
    }
  }

  lemma PlaceKept<E>(events: seq<E>, keep: E -> bool, later: seq<nat>, i: nat)
    requires i < |events| && forall k | 0 <= k < |events[1..]| :: k in later <==> keep(events[1..][k])
    ensures i in (if keep(events[0]) then [0] else []) + Shifted(later) <==> keep(events[i])
  {
    if i > 0 {
      ShiftedIn(later, i);
      assert events[1..][i - 1] == events[i];
    } else {
      NoZero(later);
    }
    hide Shifted;
  }

  lemma NoZero(places: seq<nat>)
    ensures 0 !in Shifted(places)
  {
  }

  function Shifted(places: seq<nat>): (r: seq<nat>)
    ensures |r| == |places| && forall j | 0 <= j < |r| :: r[j] == places[j] + 1
  {
    seq(|places|, j requires 0 <= j < |places| => places[j] + 1)
  }

  lemma ShiftedPlaces(places: seq<nat>, n: nat)
    requires Places(places, n)
    ensures Places(Shifted(places), n + 1) && Places([0] + Shifted(places), n + 1) && Places([] + Shifted(places), n + 1)
  {
  }

  lemma ShiftedIn(places: seq<nat>, i: nat)
    requires i > 0
    ensures i in Shifted(places) <==> i - 1 in places
  {
    if i - 1 in places {
      var j :| 0 <= j < |places| && places[j] == i - 1;
      assert Shifted(places)[j] == i;
    }
  }

  /** Which events an authentication lets through. */
  function Allowed<E>(auth: Auth, events: seq<E>, withApiKey: E -> bool): seq<E> {
    match auth
    case ApiKeyAuth => Filter(events, withApiKey)
    case BackendAuth => events
    case _ => []
  }

  /** A backend login lets every event through, an API key those meant for it, and nothing else any. */
  lemma AllowedMeans<E>(auth: Auth, events: seq<E>, withApiKey: E -> bool) returns (places: seq<nat>)
    ensures Selects(events, e => auth.BackendAuth? || (auth.ApiKeyAuth? && withApiKey(e)), Allowed(auth, events, withApiKey), places)
  {
    match auth
    case ApiKeyAuth => places := FilterMeans(events, withApiKey);
    case BackendAuth => places := seq(|events|, i requires 0 <= i < |events| => i);
      forall i | 0 <= i < |events| ensures i in places { assert places[i] == i; }
    case _ => places := [];
  }

  /** The requests posted for a list of events. */
  function Posts<E>(auth: Auth, events: seq<E>, isolated: E -> bool, withApiKey: E -> bool): (posts: seq<seq<E>>)
    ensures IsBatching(Allowed(auth, events, withApiKey), posts, isolated)
  {
    Batches(Allowed(auth, events, withApiKey), isolated)
  }

  method SendTrackEvents<E>(auth: Auth, events: seq<E>, isolated: E -> bool, withApiKey: E -> bool)
    returns (posts: seq<seq<E>>)
    ensures posts == Posts(auth, events, isolated, withApiKey)
    ensures Flatten(posts) == Allowed(auth, events, withApiKey)
  {
    hide Maximal;
    posts := [];
    if events == [] {
      return;
    }
    if auth.NoAuth? {
      return;
    }
    var kept := events;
    if auth.ApiKeyAuth? {
      kept := Filter(events, withApiKey);
    } else if !auth.BackendAuth? {
      return;
    }
    if kept == [] {
      return;
    }
    var batches := TrackEventRequestBatches(kept, isolated);
    for k := 0 to |batches|
      invariant posts == batches[..k]
    {
      assert WellCut(batches[k], isolated);
      if batches[k] != [] {
        posts := posts + [batches[k]];
      }
    }
  }
}
