/** The HTTP front of the fixture server: routing, sessions, deletion, and requests served by many threads. */
module McpHttp {

  import opened Wrappers
  import opened McpProtocol

  const FORBIDDEN := 403
  const METHOD_NOT_ALLOWED := 405
  const UNSUPPORTED_MEDIA_TYPE := 415
  const HEADER_MISMATCH := -32020
  const MAX_BODY := 1_048_576

  /** A POST as it arrives; a body that does not parse, or a length that is no number, is missing. */
  datatype Post = Post(
    path: string, originAllowed: bool, contentType: string, contentLength: Option<int>, body: Option<Value>,
    session: Option<string>, headersMatch: bool)

  datatype Refusal = Refusal(status: int, id: Value, code: int)

  datatype Content = NoContent | JsonContent(reply: Reply) | EventStream(notifications: seq<Value>, reply: Reply)

  datatype HttpReply = HttpReply(status: int, content: Content, session: Option<string>)

  // ---- routing ----------------------------------------------------------------

  function Front(endpoint: string, post: Post): Result<Value, Refusal> {
    if post.path != endpoint then Err(Refusal(NOT_FOUND, Json.Null, METHOD_NOT_FOUND))
    else if !post.originAllowed then Err(Refusal(FORBIDDEN, Json.Null, INVALID_REQUEST))
    else if post.contentType != "application/json" then Err(Refusal(UNSUPPORTED_MEDIA_TYPE, Json.Null, INVALID_REQUEST))
    else if post.contentLength.None? || post.contentLength.value < 0 || post.contentLength.value > MAX_BODY
    then Err(Refusal(BAD_REQUEST, Json.Null, INVALID_REQUEST))
    else if post.body.None? then Err(Refusal(BAD_REQUEST, Json.Null, PARSE_ERROR))
    else if !post.body.value.Object? then Err(Refusal(BAD_REQUEST, Json.Null, INVALID_REQUEST))
    else Ok(post.body.value)
  }

  /** Where an accepted message goes: to a connection of its own, perhaps under a session, or to a session's. */
  datatype Routing =
    | Refuse(refusal: Refusal)
    | ToNew(message: Value, session: Option<string>)
    | ToSession(message: Value, id: string)

  function RouteLegacy(known: set<string>, message: Value, header: Option<string>, newId: string): (r: Routing)
    ensures r.ToSession? ==> r.id in known
  {
    var name := Get(message, "method");
    if name == Some(Json.Text("initialize")) then ToNew(message, Some(newId))
    else if name == Some(Json.Text("server/discover")) then ToNew(message, None)
    else if header.Some? && header.value in known then ToSession(message, header.value)
    else Refuse(Refusal(BAD_REQUEST, OrNull(Get(message, "id")), INVALID_REQUEST))
  }

  lemma RoutedAsSent(known: set<string>, message: Value, header: Option<string>, newId: string)
    ensures match RouteLegacy(known, message, header, newId)
            case Refuse(refusal) => refusal == Refusal(BAD_REQUEST, OrNull(Get(message, "id")), INVALID_REQUEST)
            case ToNew(sent, _) => sent == message
            case ToSession(sent, _) => sent == message
  {
    hide Get;
  }

  function Route(f: Fixture, endpoint: string, known: set<string>, post: Post, newId: string): (r: Routing)
    ensures r.ToSession? ==> r.id in known
  {
    match Front(endpoint, post)
    case Err(refusal) => Refuse(refusal)
    case Ok(message) =>
      if !f.Modern() then RouteLegacy(known, message, post.session, newId)
      else if Get(message, "id").Some? && !post.headersMatch
      then Refuse(Refusal(BAD_REQUEST, OrNull(Get(message, "id")), HEADER_MISMATCH))
      else ToNew(message, None)
  }

  function RefusedReply(refusal: Refusal): HttpReply {
    HttpReply(refusal.status, JsonContent(Reply(refusal.id, Error(refusal.code))), None)
  }

  function ReplyFor(plan: Plan, session: Option<string>): HttpReply {
    HttpReply(plan.status,
              if plan.response.None? then NoContent
              else if plan.forceSse then EventStream(plan.notifications, plan.response.value)
              else JsonContent(plan.response.value),
              session)
  }

  // ---- one request at a time --------------------------------------------------

  datatype Posted = Posted(sessions: map<string, Conn>, reply: HttpReply)

  function RoutedAlone(f: Fixture, sessions: map<string, Conn>, routing: Routing): Posted
    requires routing.ToSession? ==> routing.id in sessions
  {
    match routing
    case Refuse(refusal) => Posted(sessions, RefusedReply(refusal))
    case ToNew(message, session) =>
      var o := Handle(f, message, NEW_CONN);
      Posted(if session.Some? then sessions[session.value := o.conn] else sessions, ReplyFor(o.plan, session))
    case ToSession(message, id) =>
      var o := Handle(f, message, sessions[id]);
      Posted(sessions[id := o.conn], ReplyFor(o.plan, Some(id)))
  }

  /** What a POST does when it has the server to itself: sessions are independent values. */
  function PostAlone(f: Fixture, endpoint: string, sessions: map<string, Conn>, post: Post, newId: string): Posted {
    RoutedAlone(f, sessions, Route(f, endpoint, sessions.Keys, post, newId))
  }

  lemma RoutedTo(f: Fixture, sessions: map<string, Conn>, routing: Routing, message: Value, session: Option<string>, conn: Conn)
    requires match routing
             case Refuse(_) => false
             case ToNew(sent, named) => sent == message && session == named && conn == NEW_CONN
             case ToSession(sent, id) => sent == message && session == Some(id) && id in sessions && conn == sessions[id]
    ensures var o := Handle(f, message, conn);
            RoutedAlone(f, sessions, routing)
            == Posted(if session.Some? then sessions[session.value := o.conn] else sessions, ReplyFor(o.plan, session))
  {
    hide Handle, ReplyFor;
  }

  lemma RoutedNowhere(f: Fixture, sessions: map<string, Conn>, refusal: Refusal)
    ensures RoutedAlone(f, sessions, Refuse(refusal)) == Posted(sessions, RefusedReply(refusal))
  {
  }

  class FixtureHttpServer {
    const protocol: ProtocolServer
    const endpoint: string
    var sessions: map<string, ConnectionState>

    constructor (protocol: ProtocolServer, endpoint: string)
      ensures this.protocol == protocol && this.endpoint == endpoint
      ensures Valid() && View() == map[]
    {
      this.protocol, this.endpoint, sessions := protocol, endpoint, map[];
    }

    /** No two sessions share a connection. */
    ghost predicate Valid()
      reads this
    {
      forall a, b | a in sessions && b in sessions && a != b :: sessions[a] != sessions[b]
    }

    ghost function View(): map<string, Conn>
      reads this, sessions.Values
    {
      map id | id in sessions :: sessions[id].Flags()
    }

    method DoDelete(path: string, session: Option<string>) returns (status: int)
      requires Valid()
      modifies this
      ensures Valid()
      ensures status == METHOD_NOT_ALLOWED <==> path != endpoint || protocol.fixture.Modern()
      ensures status == METHOD_NOT_ALLOWED ==> View() == old(View())
      ensures status != METHOD_NOT_ALLOWED ==>
                && status == (if session.Some? && session.value in old(sessions) then OK else NOT_FOUND)
                && View() == old(View()) - (if session.Some? then {session.value} else {})
    {
      if path != endpoint || protocol.fixture.Modern() {
        return METHOD_NOT_ALLOWED;
      }
      var existed := session.Some? && session.value in sessions;
      if existed {
        sessions := sessions - {session.value};
      }
      status := if existed then OK else NOT_FOUND;
    }

    /** The connection a legacy message is served on, and the session id to answer with. */
    method LegacyState(message: Value, header: Option<string>, newId: string)
      returns (state: ConnectionState?, session: Option<string>)
      requires Valid()
      modifies this
      ensures Valid()
      ensures match RouteLegacy(old(sessions).Keys, message, header, newId)
              case ToNew(_, named) =>
                && state != null && fresh(state) && state.Flags() == NEW_CONN && session == named
                && sessions == (if named.Some? then old(sessions)[named.value := state] else old(sessions))
              case ToSession(_, id) => sessions == old(sessions) && state == sessions[id] && session == Some(id)
              case Refuse(_) => state == null && session == None && sessions == old(sessions)
      ensures View() == if session.Some? then old(View())[session.value := state.Flags()] else old(View())
    {
      var name := Get(message, "method");
      if name == Some(Json.Text("initialize")) {
        state := new ConnectionState();
        sessions := sessions[newId := state];
        return state, Some(newId);
      }
      if name == Some(Json.Text("server/discover")) {
        state := new ConnectionState();
        return state, None;
      }
      if header.Some? && header.value in sessions {
        return sessions[header.value], header;
      }
      return null, None;
    }

    /** Only the session that answers on the connection, if any, sees it change. */
    method ServeOn(message: Value, state: ConnectionState, session: Option<string>) returns (reply: HttpReply)
      requires Valid()
      requires session.Some? ==> session.value in sessions && sessions[session.value] == state
      requires session.None? ==> state !in sessions.Values
      modifies state
      ensures var o := Handle(protocol.fixture, message, old(state.Flags()));
              && reply == ReplyFor(o.plan, session)
              && View() == if session.Some? then old(View())[session.value := o.conn] else old(View())
    {
      hide Handle, ReplyFor;
      var plan := protocol.HandleMessage(message, state);
      reply := ReplyFor(plan, session);
    }

    /** A legacy message that passed the front checks, on the connection it is routed to. */
    method ServeLegacy(message: Value, header: Option<string>, newId: string) returns (reply: HttpReply)
      requires Valid()
      modifies this, sessions.Values
      ensures Valid()
      ensures Posted(View(), reply)
           == RoutedAlone(protocol.fixture, old(View()), RouteLegacy(old(View()).Keys, message, header, newId))
    {
      hide Handle, RouteLegacy, Get, OrNull, ReplyFor, RefusedReply, RoutedAlone;
      ghost var before := View();
      assert before.Keys == sessions.Keys;
      ghost var routing := RouteLegacy(before.Keys, message, header, newId);
      RoutedAsSent(before.Keys, message, header, newId);
      var state, session := LegacyState(message, header, newId);
      if state == null {
        RoutedNowhere(protocol.fixture, before, routing.refusal);
        return RefusedReply(Refusal(BAD_REQUEST, OrNull(Get(message, "id")), INVALID_REQUEST));
      }
      RoutedTo(protocol.fixture, before, routing, message, session, state.Flags());
      reply := ServeOn(message, state, session);
    }

    /** A request alone: objects shared through the session table behave as independent values. */
    method DoPost(post: Post, newId: string) returns (reply: HttpReply)
      requires Valid()
      modifies this, sessions.Values
      ensures Valid()
      ensures Posted(View(), reply) == PostAlone(protocol.fixture, endpoint, old(View()), post, newId)
    {
      hide Handle, Front, RouteLegacy, Get, OrNull, ReplyFor, RefusedReply;
      var front := Front(endpoint, post);
      if front.Err? {
        return RefusedReply(front.error);
      }
      var message := front.value;
      if !protocol.fixture.Modern() {
        hide RoutedAlone;
        reply := ServeLegacy(message, post.session, newId);
      } else if Get(message, "id").Some? && !post.headersMatch {
        reply := RefusedReply(Refusal(BAD_REQUEST, OrNull(Get(message, "id")), HEADER_MISMATCH));
      } else {
        var state := new ConnectionState();
        reply := ServeOn(message, state, None);
      }
    }
  }

  // ---- many threads -----------------------------------------------------------

  /** A request that has been routed and waits for its thread to handle it. */
  datatype Job = Job(message: Value, conn: nat)

  datatype Entry = Refused(refusal: Refusal) | Served(conn: nat, message: Value, plan: Plan)

  /** Connections are shared by reference: `conns` holds them all, also those no session names any more. */
  datatype World = World(conns: seq<Conn>, sessions: map<string, nat>, pending: seq<Job>, log: seq<Entry>)

  datatype Step =
    | Arrive(post: Post, newId: string)
    | Serve(k: nat)
    | Delete(path: string, session: Option<string>)

  const EMPTY_WORLD := World([], map[], [], [])

  function Arrived(w: World, routing: Routing): World
    requires routing.ToSession? ==> routing.id in w.sessions
  {
    match routing
    case Refuse(refusal) => w.(log := w.log + [Refused(refusal)])
    case ToNew(message, session) =>
      var c := |w.conns|;
      w.(conns := w.conns + [NEW_CONN], pending := w.pending + [Job(message, c)],
         sessions := if session.Some? then w.sessions[session.value := c] else w.sessions)
    case ToSession(message, id) => w.(pending := w.pending + [Job(message, w.sessions[id])])
  }

  function ServedJob(f: Fixture, w: World, k: nat): World
    requires k < |w.pending| && w.pending[k].conn < |w.conns|
  {
    var job := w.pending[k];
    var o := Handle(f, job.message, w.conns[job.conn]);
    w.(conns := w.conns[job.conn := o.conn], pending := w.pending[..k] + w.pending[k + 1..],
       log := w.log + [Served(job.conn, job.message, o.plan)])
  }

  function Deleted(f: Fixture, endpoint: string, w: World, path: string, session: Option<string>): World {
    if path != endpoint || f.Modern() || session.None? then w else w.(sessions := w.sessions - {session.value})
  }

  /** A deletion forgets the session it names and nothing else, and a modern server has none to forget. */
  lemma DeletedMeans(f: Fixture, endpoint: string, w: World, path: string, session: Option<string>)
    ensures var out := Deleted(f, endpoint, w, path, session);
            && out.conns == w.conns && out.pending == w.pending && out.log == w.log
            && (forall id :: id in out.sessions <==>
                  id in w.sessions && !(path == endpoint && !f.Modern() && session == Some(id)))
            && (forall id | id in out.sessions :: out.sessions[id] == w.sessions[id])
  {
  }

  function Next(f: Fixture, endpoint: string, w: World, step: Step): World {
    match step
    case Arrive(post, newId) => Arrived(w, Route(f, endpoint, w.sessions.Keys, post, newId))
    case Serve(k) => if k < |w.pending| && w.pending[k].conn < |w.conns| then ServedJob(f, w, k) else w
    case Delete(path, session) => Deleted(f, endpoint, w, path, session)
  }

  function Run(f: Fixture, endpoint: string, steps: seq<Step>): World {
    if steps == [] then EMPTY_WORLD
    else
      var n := |steps| - 1;
      Next(f, endpoint, Run(f, endpoint, steps[..n]), steps[n])
  }

  /** The messages served on one connection, in the order they were handled. */
  function MessagesOn(log: seq<Entry>, c: nat): seq<Value> {
    if log == [] then []
    else
      var n := |log| - 1;
      MessagesOn(log[..n], c) + if log[n].Served? && log[n].conn == c then [log[n].message] else []
  }

  lemma MessagesOnSnoc(log: seq<Entry>, entry: Entry, c: nat)
    ensures MessagesOn(log + [entry], c)
         == MessagesOn(log, c) + if entry.Served? && entry.conn == c then [entry.message] else []
  {
    assert (log + [entry])[..|log|] == log;
  }

  /** Every connection in use exists, and no two sessions name the same one. */
  ghost predicate WellScoped(w: World) {
    && (forall k | 0 <= k < |w.pending| :: w.pending[k].conn < |w.conns|)
    && (forall id | id in w.sessions :: w.sessions[id] < |w.conns|)
    && (forall a, b | a in w.sessions && b in w.sessions && a != b :: w.sessions[a] != w.sessions[b])
  }

  /** A connection's flags come from its own messages alone. */
  ghost predicate Separate(f: Fixture, w: World) {
    && (forall c: nat | c < |w.conns| :: w.conns[c] == Flags(f, MessagesOn(w.log, c)))
    && (forall c: nat | c >= |w.conns| :: MessagesOn(w.log, c) == [])
  }

  /** Entry `j` answers its message as its connection's earlier messages alone determine. */
  ghost predicate Explained(f: Fixture, log: seq<Entry>, j: nat)
    requires j < |log|
  {
    log[j].Served? ==>
      log[j].plan == Handle(f, log[j].message, Flags(f, MessagesOn(log[..j], log[j].conn))).plan
  }

  ghost predicate AllExplained(f: Fixture, log: seq<Entry>) {
    forall j | 0 <= j < |log| :: Explained(f, log, j)
  }

  lemma ExplainedSnoc(f: Fixture, log: seq<Entry>, entry: Entry)
    requires AllExplained(f, log)
    requires entry.Served? ==> entry.plan == Handle(f, entry.message, Flags(f, MessagesOn(log, entry.conn))).plan
    ensures AllExplained(f, log + [entry])
  {
    hide Handle, Flags, MessagesOn;
    var all := log + [entry];
    forall j | 0 <= j < |all| ensures Explained(f, all, j) {
      if j < |log| {
        assert all[..j] == log[..j];
        assert Explained(f, log, j);
      } else {
        assert all[..j] == log;
      }
    }
  }

  lemma ScopeKept(f: Fixture, endpoint: string, w: World, step: Step)
    requires WellScoped(w)
    ensures WellScoped(Next(f, endpoint, w, step))
  {
    hide Handle, Route;
  }

  lemma ServedSeparate(f: Fixture, w: World, k: nat)
    requires WellScoped(w) && Separate(f, w) && k < |w.pending|
    ensures Separate(f, ServedJob(f, w, k))
  {
    hide Handle, Flags, MessagesOn;
    var job, t := w.pending[k], ServedJob(f, w, k);
    var entry := t.log[|w.log|];
    forall c: nat ensures if c < |t.conns| then t.conns[c] == Flags(f, MessagesOn(t.log, c))
                          else MessagesOn(t.log, c) == [] {
      MessagesOnSnoc(w.log, entry, c);
      assert MessagesOn(w.log, c) + [] == MessagesOn(w.log, c);
      if c == job.conn {
        FlagsSnoc(f, MessagesOn(w.log, c), job.message);
      }
    }
  }

  lemma ArrivedSeparate(f: Fixture, w: World, routing: Routing)
    requires routing.ToSession? ==> routing.id in w.sessions
    requires Separate(f, w)
    ensures Separate(f, Arrived(w, routing))
  {
    hide MessagesOn;
    var t := Arrived(w, routing);
    if routing.Refuse? {
      forall c: nat ensures MessagesOn(t.log, c) == MessagesOn(w.log, c) {
        MessagesOnSnoc(w.log, Refused(routing.refusal), c);
      }
    } else if routing.ToNew? {
      assert Flags(f, []) == NEW_CONN;
      assert t.log == w.log && t.conns == w.conns + [NEW_CONN];
      assert MessagesOn(w.log, |w.conns|) == [];
    }
  }

  lemma StepKept(f: Fixture, endpoint: string, w: World, step: Step)
    requires WellScoped(w) && Separate(f, w) && AllExplained(f, w.log)
    ensures var t := Next(f, endpoint, w, step); WellScoped(t) && Separate(f, t) && AllExplained(f, t.log)
  {
    hide Handle, Route, Flags, MessagesOn, AllExplained;
    ScopeKept(f, endpoint, w, step);
    match step {
      case Arrive(post, newId) =>
        var routing := Route(f, endpoint, w.sessions.Keys, post, newId);
        ArrivedSeparate(f, w, routing);
        if routing.Refuse? { ExplainedSnoc(f, w.log, Refused(routing.refusal)); }
      case Serve(k) =>
        if k < |w.pending| {
          ServedSeparate(f, w, k);
          ExplainedSnoc(f, w.log, ServedJob(f, w, k).log[|w.log|]);
        }
      case Delete(_, _) =>
    }
  }

  /** What holds after every interleaving of arrivals, handling and deletions. */
  lemma {:induction false} EveryRun(f: Fixture, endpoint: string, steps: seq<Step>)
    ensures var w := Run(f, endpoint, steps); WellScoped(w) && Separate(f, w) && AllExplained(f, w.log)
  {
    if steps != [] {
      var n := |steps| - 1;
      EveryRun(f, endpoint, steps[..n]);
      hide WellScoped, Separate, AllExplained, Next;
      StepKept(f, endpoint, Run(f, endpoint, steps[..n]), steps[n]);
    }
  }

  /**
   * The lifecycle rule over whole runs: any mix of sessions, deletions and overlapping
   * requests. A result to a request other than initialize means that an initialize had
   * succeeded and an initialized notification had then arrived on that very connection.
   */
  lemma HttpLifecycle(f: Fixture, endpoint: string, steps: seq<Step>, j: nat)
    requires !f.Modern()
    requires var log := Run(f, endpoint, steps).log;
             && j < |log| && log[j].Served? && log[j].plan.Succeeds()
             && Classify(log[j].message).Request? && Classify(log[j].message).name != "initialize"
    ensures var log := Run(f, endpoint, steps).log;
            Ready(f, MessagesOn(log[..j], log[j].conn))
  {
    EveryRun(f, endpoint, steps);
    var log := Run(f, endpoint, steps).log;
    hide Run, Handle, Flags, MessagesOn, Classify;
    assert Explained(f, log, j);
    LegacyLifecycle(f, MessagesOn(log[..j], log[j].conn), log[j].message);
  }

  /** In modern mode every response is the one a server with no history would give. */
  lemma HttpModern(f: Fixture, endpoint: string, steps: seq<Step>, j: nat)
    requires f.Modern()
    requires j < |Run(f, endpoint, steps).log| && Run(f, endpoint, steps).log[j].Served?
    ensures var e := Run(f, endpoint, steps).log[j];
            e.plan == Handle(f, e.message, NEW_CONN).plan
  {
    EveryRun(f, endpoint, steps);
    var log := Run(f, endpoint, steps).log;
    hide Run, Handle, Flags, MessagesOn;
    assert Explained(f, log, j);
    ModernIndependence(f, log[j].message, Flags(f, MessagesOn(log[..j], log[j].conn)), NEW_CONN);
  }

  /** A deleted session stays unknown until its id is handed out again. */
  lemma {:induction false} DeletedStaysDeleted(f: Fixture, endpoint: string, before: seq<Step>, after: seq<Step>, id: string)
    requires !f.Modern()
    requires forall i | 0 <= i < |after| :: after[i].Arrive? ==> after[i].newId != id
    ensures id !in Run(f, endpoint, before + [Delete(endpoint, Some(id))] + after).sessions
    decreases |after|
  {
    var steps := before + [Delete(endpoint, Some(id))] + after;
    if after == [] {
      assert steps[..|steps| - 1] == before;
    } else {
      var n := |after| - 1;
      assert steps[..|steps| - 1] == before + [Delete(endpoint, Some(id))] + after[..n];
      DeletedStaysDeleted(f, endpoint, before, after[..n], id);
      StaysUnknown(f, endpoint, Run(f, endpoint, steps[..|steps| - 1]), after[n], id);
    }
  }

  lemma StaysUnknown(f: Fixture, endpoint: string, w: World, step: Step, id: string)
    requires id !in w.sessions && (step.Arrive? ==> step.newId != id)
    ensures id !in Next(f, endpoint, w, step).sessions
  {
    hide Handle, Front, Get;
  }

  /** And a legacy message sent under an unknown session is refused without touching any connection. */
  lemma UnknownSessionRefused(f: Fixture, endpoint: string, w: World, post: Post, newId: string)
    requires !f.Modern() && Front(endpoint, post).Ok?
    requires post.session.None? || post.session.value !in w.sessions
    requires var name := Get(post.body.value, "method");
             name != Some(Json.Text("initialize")) && name != Some(Json.Text("server/discover"))
    ensures var t := Next(f, endpoint, w, Arrive(post, newId));
            t == w.(log := w.log + [Refused(Refusal(BAD_REQUEST, OrNull(Get(post.body.value, "id")), INVALID_REQUEST))])
  {
    hide Get;
  }

  // ---- one request at a time, again -------------------------------------------

  ghost function SessionView(w: World): map<string, Conn>
    requires WellScoped(w)
  {
    map id | id in w.sessions :: w.conns[w.sessions[id]]
  }

  /** A request that arrives and is handled before anything else happens. */
  function Undisturbed(f: Fixture, endpoint: string, w: World, post: Post, newId: string): World {
    var arrived := Next(f, endpoint, w, Arrive(post, newId));
    if arrived.pending == [] then arrived else Next(f, endpoint, arrived, Serve(0))
  }

  /** The reply that a log entry and the session it is answered under stand for. */
  function ReplyTo(entry: Entry, session: Option<string>): HttpReply {
    match entry
    case Refused(refusal) => RefusedReply(refusal)
    case Served(_, _, plan) => ReplyFor(plan, session)
  }

  lemma RoutedScoped(f: Fixture, w: World, routing: Routing)
    requires WellScoped(w) && (routing.ToSession? ==> routing.id in w.sessions)
    ensures WellScoped(Arrived(w, routing))
    ensures Arrived(w, routing).pending != [] ==> WellScoped(ServedJob(f, Arrived(w, routing), 0))
  {
    hide Handle;
  }

  lemma NewView(f: Fixture, w: World, message: Value, session: Option<string>, u: World)
    requires WellScoped(w) && WellScoped(u)
    requires u.conns == w.conns + [Handle(f, message, NEW_CONN).conn]
    requires u.sessions == if session.Some? then w.sessions[session.value := |w.conns|] else w.sessions
    ensures SessionView(u) == RoutedAlone(f, SessionView(w), ToNew(message, session)).sessions
  {
    hide Handle, ReplyFor, WellScoped;
    ViewAt(w);
    ViewAt(u);
    hide SessionView;
    var conn := Handle(f, message, NEW_CONN).conn;
    var view, target := SessionView(u), if session.Some? then SessionView(w)[session.value := conn] else SessionView(w);
    assert view.Keys == target.Keys;
    forall id | id in target ensures view[id] == target[id] {
      assert session != Some(id) ==> id in w.sessions && u.sessions[id] == w.sessions[id];
    }
    assert view == target;
  }

  lemma ViewAt(w: World)
    requires WellScoped(w)
    ensures SessionView(w).Keys == w.sessions.Keys
    ensures forall id | id in w.sessions :: w.sessions[id] < |w.conns| && SessionView(w)[id] == w.conns[w.sessions[id]]
  {
  }

  lemma NewAlone(f: Fixture, w: World, message: Value, session: Option<string>)
    requires WellScoped(w) && w.pending == []
    ensures var arrived, alone := Arrived(w, ToNew(message, session)), RoutedAlone(f, SessionView(w), ToNew(message, session));
            && arrived.pending == [Job(message, |w.conns|)]
            && var u := ServedJob(f, arrived, 0);
               && u.pending == [] && |u.log| == |w.log| + 1 && WellScoped(u)
               && SessionView(u) == alone.sessions && alone.reply == ReplyTo(u.log[|w.log|], session)
  {
    hide Handle, SessionView, WellScoped;
    RoutedScoped(f, w, ToNew(message, session));
    var u := ServedJob(f, Arrived(w, ToNew(message, session)), 0);
    assert u.conns == w.conns + [Handle(f, message, NEW_CONN).conn];
    NewView(f, w, message, session, u);
  }

  lemma SessionAlone(f: Fixture, w: World, message: Value, id: string)
    requires WellScoped(w) && w.pending == [] && id in w.sessions
    ensures var arrived, alone := Arrived(w, ToSession(message, id)), RoutedAlone(f, SessionView(w), ToSession(message, id));
            && arrived.pending == [Job(message, w.sessions[id])]
            && var u := ServedJob(f, arrived, 0);
               && u.pending == [] && |u.log| == |w.log| + 1 && WellScoped(u)
               && SessionView(u) == alone.sessions && alone.reply == ReplyTo(u.log[|w.log|], Some(id))
  {
    hide Handle, ReplyFor;
    RoutedScoped(f, w, ToSession(message, id));
  }

  /** Undisturbed requests do to the shared connections what independent values would see. */
  lemma UndisturbedIsAlone(f: Fixture, endpoint: string, w: World, post: Post, newId: string)
    requires WellScoped(w) && w.pending == []
    ensures var u, alone := Undisturbed(f, endpoint, w, post, newId), PostAlone(f, endpoint, SessionView(w), post, newId);
            && WellScoped(u) && u.pending == [] && |u.log| == |w.log| + 1
            && SessionView(u) == alone.sessions && alone.reply == ReplyTo(u.log[|w.log|], alone.reply.session)
  {
    assert SessionView(w).Keys == w.sessions.Keys;
    var routing := Route(f, endpoint, w.sessions.Keys, post, newId);
    hide Route, SessionView, ServedJob, ReplyFor, RefusedReply, Handle, WellScoped;
    match routing {
      case Refuse(refusal) => RefusedAlone(w, refusal);
      case ToNew(message, session) => NewAlone(f, w, message, session);
      case ToSession(message, id) => SessionAlone(f, w, message, id);
    }
  }

  lemma RefusedAlone(w: World, refusal: Refusal)
    requires WellScoped(w)
    ensures var u := Arrived(w, Refuse(refusal)); WellScoped(u) && SessionView(u) == SessionView(w)
  {
  }
}
