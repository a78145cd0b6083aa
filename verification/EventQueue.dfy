/**
 * The bounded analytics queue: producers, flush callers and the one worker, as steps that
 * may interleave in any order. A step whose moment has not come leaves the state alone.
 */
module EventQueue {

  import opened EventBatches

  const QUEUE_SIZE := 256

  datatype Message<F> = Fact(fact: F) | Flush(id: nat)

  /** The reducer: what it does to its state and which events it gives out. */
  datatype Reducer<!F, E, !R> = Reducer(
    initial: R,
    ingest: (R, F) -> R, ingested: (R, F) -> seq<E>,
    flush: R -> R, flushed: R -> seq<E>)

  /** How events become requests. */
  datatype Sender<!E> = Sender(isolated: E -> bool, withApiKey: E -> bool)

  /** Where the worker is within one turn of its loop. */
  datatype Phase<F, E> =
    | Idle
    | Received(message: Message<F>)
    | Reduced(message: Message<F>, events: seq<E>)
    | Posting(message: Message<F>, rest: seq<seq<E>>)

  datatype State<F, E, R> = State(
    queue: seq<Message<F>>,
    reserved: set<nat>,        // flushes holding a slot, message not yet in it
    phase: Phase<F, E>,
    reducer: R,
    signalled: set<nat>,       // flushes the worker has answered
    flushed: set<nat>,         // flush calls that have seen their answer
    expired: set<nat>,         // flush calls that have timed out
    started: set<nat>,         // flush calls that have got a slot
    accepted: seq<Message<F>>, // everything ever put in the queue
    dropped: seq<F>,           // facts refused
    processed: seq<Message<F>>,
    auths: seq<Auth>,          // the authentication found for each message, in order
    handed: seq<E>,            // events handed to send_track_events
    posted: seq<seq<E>>)       // requests made

  datatype Step<F> =
    | TrySend(fact: F)
    | FlushReserve(id: nat)
    | FlushEnqueue(id: nat)
    | FlushTimeout(id: nat)
    | FlushObserve(id: nat)
    | WorkerReceive
    | WorkerReduce
    | WorkerAuth(auth: Auth)
    | WorkerPost
    | WorkerFinish

  function Initial<F, E, R>(reducer: Reducer<F, E, R>): State<F, E, R> {
    State([], {}, Idle, reducer.initial, {}, {}, {}, {}, [], [], [], [], [], [])
  }

  predicate HasRoom<F, E, R>(s: State<F, E, R>) {
    |s.queue| + |s.reserved| < QUEUE_SIZE
  }

  function ReducedState<F, E, R>(reducer: Reducer<F, E, R>, r: R, m: Message<F>): R {
    match m
    case Fact(fact) => (reducer.ingest)(r, fact)
    case Flush(_) => (reducer.flush)(r)
  }

  function ReducedEvents<F, E, R>(reducer: Reducer<F, E, R>, r: R, m: Message<F>): seq<E> {
    match m
    case Fact(fact) => (reducer.ingested)(r, fact)
    case Flush(_) => (reducer.flushed)(r)
  }

  /** One step of a producer, a flush caller or the worker. */
  function Next<F, E, R>(s: State<F, E, R>, step: Step<F>, reducer: Reducer<F, E, R>, sender: Sender<E>)
    : State<F, E, R>
  {
    match step
    case TrySend(fact) =>
      if HasRoom(s) then s.(queue := s.queue + [Fact(fact)], accepted := s.accepted + [Fact(fact)])
      else s.(dropped := s.dropped + [fact])
    case FlushReserve(id) =>
      if HasRoom(s) && id !in s.started then s.(reserved := s.reserved + {id}, started := s.started + {id}) else s
    case FlushEnqueue(id) =>
      if id in s.reserved
      then s.(reserved := s.reserved - {id}, queue := s.queue + [Flush(id)], accepted := s.accepted + [Flush(id)])
      else s
    case FlushTimeout(id) =>
      // A caller that gives up returns the slot it holds; a message already queued stays.
      if id in s.started && id !in s.flushed
      then s.(reserved := s.reserved - {id}, expired := s.expired + {id})
      else s
    case FlushObserve(id) =>
      if id in s.signalled && id !in s.expired then s.(flushed := s.flushed + {id}) else s
    case WorkerReceive =>
      if s.phase.Idle? && s.queue != [] then s.(phase := Received(s.queue[0]), queue := s.queue[1..]) else s
    case WorkerReduce =>
      if s.phase.Received? then
        var events := ReducedEvents(reducer, s.reducer, s.phase.message);
        s.(phase := Reduced(s.phase.message, events), handed := s.handed + events,
           reducer := ReducedState(reducer, s.reducer, s.phase.message))
      else s
    case WorkerAuth(auth) =>
      if s.phase.Reduced? then
        s.(phase := Posting(s.phase.message, Posts(auth, s.phase.events, sender.isolated, sender.withApiKey)),
           auths := s.auths + [auth])
      else s
    case WorkerPost =>
      if s.phase.Posting? && s.phase.rest != [] then
        s.(phase := Posting(s.phase.message, s.phase.rest[1..]), posted := s.posted + [s.phase.rest[0]])
      else s
    case WorkerFinish =>
      if s.phase.Posting? && s.phase.rest == [] then
        s.(phase := Idle, processed := s.processed + [s.phase.message],
           signalled := if s.phase.message.Flush? then s.signalled + {s.phase.message.id} else s.signalled)
      else s
  }

  function Run<F, E, R>(steps: seq<Step<F>>, reducer: Reducer<F, E, R>, sender: Sender<E>): State<F, E, R> {
    if steps == [] then Initial(reducer)
    else Next(Run(steps[..|steps| - 1], reducer, sender), steps[|steps| - 1], reducer, sender)
  }

  // ---- the worker's sequential meaning ----------------------------------------

  /** What a worker that handled these messages one by one has computed. */
  datatype Replay<E, R> = Replay(reducer: R, handed: seq<E>)

  function Replayed<F, E, R>(messages: seq<Message<F>>, reducer: Reducer<F, E, R>): Replay<E, R> {
    if messages == [] then Replay(reducer.initial, [])
    else
      var n := |messages| - 1;
      var before := Replayed(messages[..n], reducer);
      Replay(ReducedState(reducer, before.reducer, messages[n]),
             before.handed + ReducedEvents(reducer, before.reducer, messages[n]))
  }

  /** The requests for messages handled one by one, each under the authentication found for it. */
  function Requests<F, E, R>(messages: seq<Message<F>>, auths: seq<Auth>, reducer: Reducer<F, E, R>, sender: Sender<E>)
    : seq<seq<E>>
    requires |messages| == |auths|
  {
    if messages == [] then []
    else
      var n := |messages| - 1;
      var r := Replayed(messages[..n], reducer).reducer;
      Requests(messages[..n], auths[..n], reducer, sender)
      + Posts(auths[n], ReducedEvents(reducer, r, messages[n]), sender.isolated, sender.withApiKey)
  }

  lemma ReplayedSnoc<F, E, R>(messages: seq<Message<F>>, m: Message<F>, reducer: Reducer<F, E, R>)
    ensures var before := Replayed(messages, reducer);
            Replayed(messages + [m], reducer)
            == Replay(ReducedState(reducer, before.reducer, m), before.handed + ReducedEvents(reducer, before.reducer, m))
  {
    assert (messages + [m])[..|messages|] == messages;
  }

  lemma RequestsSnoc<F, E, R>(messages: seq<Message<F>>, m: Message<F>, auths: seq<Auth>, auth: Auth,
                              reducer: Reducer<F, E, R>, sender: Sender<E>)
    requires |messages| == |auths|
    ensures var r := Replayed(messages, reducer).reducer;
            Requests(messages + [m], auths + [auth], reducer, sender)
            == Requests(messages, auths, reducer, sender)
               + Posts(auth, ReducedEvents(reducer, r, m), sender.isolated, sender.withApiKey)
  {
    assert (messages + [m])[..|messages|] == messages && (auths + [auth])[..|auths|] == auths;
  }

  /** The worker's loop over the messages it receives, with the authentication found for each. */
  method WorkerLoop<F, E, R>(messages: seq<Message<F>>, auths: seq<Auth>, reducer: Reducer<F, E, R>, sender: Sender<E>)
    returns (state: R, handed: seq<E>, posted: seq<seq<E>>)
    requires |messages| == |auths|
    ensures Replay(state, handed) == Replayed(messages, reducer)
    ensures posted == Requests(messages, auths, reducer, sender)
  {
    hide Posts;
    state, handed, posted := reducer.initial, [], [];
    for k := 0 to |messages|
      invariant Replay(state, handed) == Replayed(messages[..k], reducer)
      invariant posted == Requests(messages[..k], auths[..k], reducer, sender)
    {
      var input := messages[k];
      assert messages[..k + 1] == messages[..k] + [input] && auths[..k + 1] == auths[..k] + [auths[k]];
      ReplayedSnoc(messages[..k], input, reducer);
      RequestsSnoc(messages[..k], input, auths[..k], auths[k], reducer, sender);
      var events;
      match input {
        case Fact(fact) =>
          events := (reducer.ingested)(state, fact);
          state := (reducer.ingest)(state, fact);
        case Flush(_) =>
          events := (reducer.flushed)(state);
          state := (reducer.flush)(state);
      }
      handed := handed + events;
      var posts := SendTrackEvents(auths[k], events, sender.isolated, sender.withApiKey);
      posted := posted + posts;
    }
    assert messages[..|messages|] == messages && auths[..|auths|] == auths;
  }

  // ---- the invariant ----------------------------------------------------------

  function InFlight<F, E>(phase: Phase<F, E>): seq<Message<F>> {
    if phase.Idle? then [] else [phase.message]
  }

  /** Nothing accepted is lost, doubled or reordered. */
  ghost predicate Conserved<F, E, R>(s: State<F, E, R>) {
    s.accepted == s.processed + InFlight(s.phase) + s.queue
  }

  /** Slots held and slots filled never exceed the capacity. */
  predicate Bounded<F, E, R>(s: State<F, E, R>) {
    |s.queue| + |s.reserved| <= 256
  }

  /** The messages whose events the worker has already handed on. */
  function HandedOn<F, E, R>(s: State<F, E, R>): seq<Message<F>> {
    if s.phase.Reduced? || s.phase.Posting? then s.processed + [s.phase.message] else s.processed
  }

  /** The messages whose authentication has been looked up. */
  function Looked<F, E, R>(s: State<F, E, R>): seq<Message<F>> {
    if s.phase.Posting? then s.processed + [s.phase.message] else s.processed
  }

  /** The worker has done exactly what a sequential replay of the processed messages does. */
  ghost predicate Faithful<F, E, R>(s: State<F, E, R>, reducer: Reducer<F, E, R>, sender: Sender<E>) {
    && Replay(s.reducer, s.handed) == Replayed(HandedOn(s), reducer)
    && (s.phase.Reduced? ==>
          s.phase.events
          == ReducedEvents(reducer, Replayed(s.processed, reducer).reducer, s.phase.message))
    && |s.auths| == |Looked(s)|
    && s.posted + (if s.phase.Posting? then s.phase.rest else [])
       == Requests(Looked(s), s.auths, reducer, sender)
    && Requests(s.processed, s.auths[..|s.processed|], reducer, sender) <= s.posted
  }

  /** A flush is answered exactly when it has been processed, and its call ends at most one way. */
  ghost predicate Answered<F, E, R>(s: State<F, E, R>) {
    && (forall id | id in s.signalled :: Flush(id) in s.processed)
    && (forall id | Flush(id) in s.processed :: id in s.signalled)
    && s.flushed <= s.signalled
    && s.flushed !! s.expired
    && (forall id | Flush(id) in s.accepted :: id in s.started && id !in s.reserved)
    && s.reserved <= s.started
  }

  lemma ConservedKept<F, E, R>(s: State<F, E, R>, step: Step<F>, reducer: Reducer<F, E, R>, sender: Sender<E>)
    requires Conserved(s)
    ensures Conserved(Next(s, step, reducer, sender))
  {
    hide Posts;
    if s.queue != [] {
      assert s.queue == [s.queue[0]] + s.queue[1..];
    }
  }

  lemma BoundedKept<F, E, R>(s: State<F, E, R>, step: Step<F>, reducer: Reducer<F, E, R>, sender: Sender<E>)
    requires Bounded(s)
    ensures Bounded(Next(s, step, reducer, sender))
  {
    hide Posts;
  }

  lemma FaithfulKept<F, E, R>(s: State<F, E, R>, step: Step<F>, reducer: Reducer<F, E, R>, sender: Sender<E>)
    requires Faithful(s, reducer, sender)
    ensures Faithful(Next(s, step, reducer, sender), reducer, sender)
  {
    hide Posts, Replayed, Requests;
    if step.WorkerReduce? && s.phase.Received? {
      ReplayedSnoc(s.processed, s.phase.message, reducer);
    } else if step.WorkerAuth? && s.phase.Reduced? {
      RequestsSnoc(s.processed, s.phase.message, s.auths, step.auth, reducer, sender);
      var n := |s.processed|;
      assert (s.auths + [step.auth])[..n] == s.auths[..n] == s.auths;
      assert s.posted + [] == s.posted;
    } else if step.WorkerPost? && s.phase.Posting? && s.phase.rest != [] {
      var rest := s.phase.rest;
      assert s.posted + rest == s.posted + [rest[0]] + rest[1..];
    } else if step.WorkerFinish? && s.phase.Posting? && s.phase.rest == [] {
      assert s.auths[..|s.processed| + 1] == s.auths;
      assert s.posted + [] == s.posted;
    }
  }

  lemma AnsweredKept<F, E, R>(s: State<F, E, R>, step: Step<F>, reducer: Reducer<F, E, R>, sender: Sender<E>)
    requires Answered(s)
    ensures Answered(Next(s, step, reducer, sender))
  {
    hide Posts;
  }

  /** What holds after every interleaving of every list of steps. */
  lemma {:induction false} EveryRun<F, E, R>(steps: seq<Step<F>>, reducer: Reducer<F, E, R>, sender: Sender<E>)
    ensures var s := Run(steps, reducer, sender);
            Conserved(s) && Bounded(s) && Faithful(s, reducer, sender) && Answered(s)
  {
    if steps != [] {
      var n := |steps| - 1;
      var s := Run(steps[..n], reducer, sender);
      EveryRun(steps[..n], reducer, sender);
      hide Conserved, Bounded, Faithful, Answered, Next;
      ConservedKept(s, steps[n], reducer, sender);
      BoundedKept(s, steps[n], reducer, sender);
      FaithfulKept(s, steps[n], reducer, sender);
      AnsweredKept(s, steps[n], reducer, sender);
    }
  }

  // ---- the flush barrier ------------------------------------------------------

  lemma {:induction false} LogsGrow<F, E, R>(a: seq<Step<F>>, b: seq<Step<F>>, reducer: Reducer<F, E, R>, sender: Sender<E>)
    ensures Run(a, reducer, sender).accepted <= Run(a + b, reducer, sender).accepted
    decreases |b|
  {
    if b == [] {
      assert a + b == a;
    } else {
      var n := |b| - 1;
      LogsGrow(a, b[..n], reducer, sender);
      assert (a + b)[..|a + b| - 1] == a + b[..n];
      StepGrows(Run(a + b[..n], reducer, sender), b[n], reducer, sender);
    }
  }

  lemma StepGrows<F, E, R>(s: State<F, E, R>, step: Step<F>, reducer: Reducer<F, E, R>, sender: Sender<E>)
    ensures s.accepted <= Next(s, step, reducer, sender).accepted
  {
    hide Posts;
  }

  lemma {:induction false} ReplayedGrows<F, E, R>(a: seq<Message<F>>, b: seq<Message<F>>, reducer: Reducer<F, E, R>)
    requires a <= b
    ensures Replayed(a, reducer).handed <= Replayed(b, reducer).handed
    decreases |b|
  {
    if |a| == |b| {
      assert a == b;
    } else {
      ReplayedGrows(a, b[..|b| - 1], reducer);
    }
  }

  lemma {:induction false} RequestsGrow<F, E, R>(a: seq<Message<F>>, b: seq<Message<F>>, auths: seq<Auth>,
                                                 reducer: Reducer<F, E, R>, sender: Sender<E>)
    requires a <= b && |b| == |auths|
    ensures Requests(a, auths[..|a|], reducer, sender) <= Requests(b, auths, reducer, sender)
    decreases |b|
  {
    hide Requests;
    if |a| == |b| {
      assert a == b && auths[..|a|] == auths;
    } else {
      var n := |b| - 1;
      assert auths[..n][..|a|] == auths[..|a|];
      RequestsGrow(a, b[..n], auths[..n], reducer, sender);
      RequestsPrefix(b, auths, reducer, sender);
    }
  }

  lemma RequestsPrefix<F, E, R>(messages: seq<Message<F>>, auths: seq<Auth>, reducer: Reducer<F, E, R>, sender: Sender<E>)
    requires messages != [] && |messages| == |auths|
    ensures var n := |messages| - 1;
            Requests(messages[..n], auths[..n], reducer, sender) <= Requests(messages, auths, reducer, sender)
  {
    hide Posts, Replayed;
  }

  /**
   * The flush barrier. Whatever happens around it, once a flush call whose message was
   * not yet in the queue after `before` has seen its answer, everything accepted during
   * `before` has been ingested, its events handed on, and their requests made.
   */
  lemma FlushBarrier<F, E, R>(before: seq<Step<F>>, after: seq<Step<F>>, id: nat,
                              reducer: Reducer<F, E, R>, sender: Sender<E>)
    requires Flush(id) !in Run(before, reducer, sender).accepted
    requires id in Run(before + after, reducer, sender).flushed
    ensures var s, t := Run(before, reducer, sender), Run(before + after, reducer, sender);
            && s.accepted <= t.processed
            && Replayed(s.accepted, reducer).handed <= t.handed
            && |s.accepted| <= |t.auths|
            && Requests(s.accepted, t.auths[..|s.accepted|], reducer, sender) <= t.posted
  {
    var s, t := Run(before, reducer, sender), Run(before + after, reducer, sender);
    EveryRun(before, reducer, sender);
    EveryRun(before + after, reducer, sender);
    LogsGrow(before, after, reducer, sender);
    hide Run, Replayed, Requests;
    AnsweredAfter(s, t, id);
    ReplayedGrows(s.accepted, HandedOn(t), reducer);
    RequestsGrow(s.accepted, t.processed, t.auths[..|t.processed|], reducer, sender);
    assert t.auths[..|t.processed|][..|s.accepted|] == t.auths[..|s.accepted|];
  }

  lemma AnsweredAfter<F, E, R>(s: State<F, E, R>, t: State<F, E, R>, id: nat)
    requires Answered(t) && Conserved(t) && s.accepted <= t.accepted
    requires Flush(id) !in s.accepted && id in t.flushed
    ensures s.accepted <= t.processed
  {
    assert forall i | 0 <= i < |s.accepted| :: s.accepted[i] == t.accepted[i];
    assert Flush(id) in t.processed;
    var p :| 0 <= p < |t.processed| && t.processed[p] == Flush(id);
    assert t.accepted[p] == Flush(id);
    assert t.processed <= t.accepted;
  }

  // ---- accounting -------------------------------------------------------------

  function Attempts<F>(steps: seq<Step<F>>): seq<F> {
    if steps == [] then []
    else
      var n := |steps| - 1;
      Attempts(steps[..n]) + if steps[n].TrySend? then [steps[n].fact] else []
  }

  function Facts<F>(messages: seq<Message<F>>): seq<F> {
    if messages == [] then []
    else
      var n := |messages| - 1;
      Facts(messages[..n]) + if messages[n].Fact? then [messages[n].fact] else []
  }

  lemma FactsSnoc<F>(messages: seq<Message<F>>, m: Message<F>)
    ensures Facts(messages + [m]) == Facts(messages) + if m.Fact? then [m.fact] else []
  {
    assert (messages + [m])[..|messages|] == messages;
  }

  /** Every fact a producer offers is either accepted or dropped, and never both. */
  lemma {:induction false} AttemptsAccounted<F, E, R>(steps: seq<Step<F>>, reducer: Reducer<F, E, R>, sender: Sender<E>)
    ensures var s := Run(steps, reducer, sender);
            multiset(Attempts(steps)) == multiset(Facts(s.accepted)) + multiset(s.dropped)
  {
    if steps != [] {
      var n := |steps| - 1;
      var s := Run(steps[..n], reducer, sender);
      AttemptsAccounted(steps[..n], reducer, sender);
      StepAccounted(s, steps[n], reducer, sender);
    }
  }

  lemma StepAccounted<F, E, R>(s: State<F, E, R>, step: Step<F>, reducer: Reducer<F, E, R>, sender: Sender<E>)
    ensures var t := Next(s, step, reducer, sender);
            multiset(Facts(t.accepted)) + multiset(t.dropped)
            == multiset(Facts(s.accepted)) + multiset(s.dropped)
               + multiset(if step.TrySend? then [step.fact] else [])
  {
    hide Posts, Facts;
    match step {
      case TrySend(fact) =>
        FactsSnoc(s.accepted, Fact(fact));
        if HasRoom(s) {
          assert multiset(Facts(s.accepted) + [fact]) == multiset(Facts(s.accepted)) + multiset([fact]);
        } else {
          assert multiset(s.dropped + [fact]) == multiset(s.dropped) + multiset([fact]);
        }
      case FlushEnqueue(id) =>
        FactsSnoc(s.accepted, Flush(id));
      case _ =>
    }
  }

  /** A producer's fact is dropped exactly when every slot is filled or held. */
  lemma DroppedIffFull<F, E, R>(steps: seq<Step<F>>, fact: F, reducer: Reducer<F, E, R>, sender: Sender<E>)
    ensures var s, t := Run(steps, reducer, sender), Run(steps + [TrySend(fact)], reducer, sender);
            if |s.queue| + |s.reserved| == 256
            then t == s.(dropped := s.dropped + [fact])
            else t.dropped == s.dropped && t.queue == s.queue + [Fact(fact)]
  {
    assert (steps + [TrySend(fact)])[..|steps|] == steps;
    EveryRun(steps, reducer, sender);
  }

  // ---- delivery ---------------------------------------------------------------

  /** The events of messages handled one by one that the authentication found for each lets through. */
  function Deliverable<F, E, R>(messages: seq<Message<F>>, auths: seq<Auth>, reducer: Reducer<F, E, R>, sender: Sender<E>)
    : seq<E>
    requires |messages| == |auths|
  {
    if messages == [] then []
    else
      var n := |messages| - 1;
      var r := Replayed(messages[..n], reducer).reducer;
      Deliverable(messages[..n], auths[..n], reducer, sender)
      + Allowed(auths[n], ReducedEvents(reducer, r, messages[n]), sender.withApiKey)
  }

  /** The requests carry exactly those events, in order. */
  lemma {:induction false} RequestsCarryAllowed<F, E, R>(messages: seq<Message<F>>, auths: seq<Auth>,
                                                         reducer: Reducer<F, E, R>, sender: Sender<E>)
    requires |messages| == |auths|
    ensures Flatten(Requests(messages, auths, reducer, sender)) == Deliverable(messages, auths, reducer, sender)
  {
    hide Batches, Maximal, AllWellCut, Replayed, Allowed;
    if messages != [] {
      var n := |messages| - 1;
      RequestsCarryAllowed(messages[..n], auths[..n], reducer, sender);
      var events := ReducedEvents(reducer, Replayed(messages[..n], reducer).reducer, messages[n]);
      FlattenAppend(Requests(messages[..n], auths[..n], reducer, sender),
                    Posts(auths[n], events, sender.isolated, sender.withApiKey));
    }
  }

  /** The message gives out no events, or a backend login was found when it did. */
  predicate LetThrough<F, E, R>(messages: seq<Message<F>>, auths: seq<Auth>, reducer: Reducer<F, E, R>, i: nat)
    requires i < |messages| == |auths|
  {
    auths[i].BackendAuth? || |ReducedEvents(reducer, Replayed(messages[..i], reducer).reducer, messages[i])| == 0
  }

  /** With a backend login whenever there is something to send, that is every event handed on. */
  lemma {:induction false} BackendCarriesAll<F, E, R>(messages: seq<Message<F>>, auths: seq<Auth>,
                                                      reducer: Reducer<F, E, R>, sender: Sender<E>)
    requires |messages| == |auths| && forall i | 0 <= i < |auths| :: LetThrough(messages, auths, reducer, i)
    ensures Deliverable(messages, auths, reducer, sender) == Replayed(messages, reducer).handed
  {
    if messages != [] {
      var n := |messages| - 1;
      forall i | 0 <= i < n ensures LetThrough(messages[..n], auths[..n], reducer, i) {
        assert LetThrough(messages, auths, reducer, i);
        assert messages[..n][..i] == messages[..i];
      }
      BackendCarriesAll(messages[..n], auths[..n], reducer, sender);
      assert LetThrough(messages, auths, reducer, n);
    }
  }

  /**
   * In every run, under any logins: the requests made and those still to be made for the
   * message in hand carry exactly the events let through, in order.
   */
  lemma EverythingDelivered<F, E, R>(steps: seq<Step<F>>, reducer: Reducer<F, E, R>, sender: Sender<E>)
    ensures var s := Run(steps, reducer, sender);
            && |Looked(s)| == |s.auths|
            && Flatten(s.posted) + Flatten(if s.phase.Posting? then s.phase.rest else [])
               == Deliverable(Looked(s), s.auths, reducer, sender)
  {
    var s := Run(steps, reducer, sender);
    EveryRun(steps, reducer, sender);
    RequestsCarryAllowed(Looked(s), s.auths, reducer, sender);
    hide Run, Requests, Replayed;
    FlattenAppend(s.posted, if s.phase.Posting? then s.phase.rest else []);
  }
}
