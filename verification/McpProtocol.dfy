/** The protocol core of the conformance fixture server: requests, notifications and one connection's state. */
module McpProtocol {

  import opened Wrappers
  import Json = SseStream

  type Value = Json.Message

  const MODERN_VERSION := "2026-07-28"

  const PARSE_ERROR := -32700
  const INVALID_REQUEST := -32600
  const METHOD_NOT_FOUND := -32601
  const INVALID_PARAMS := -32602
  const UNSUPPORTED_PROTOCOL_VERSION := -32022

  const OK := 200
  const ACCEPTED := 202
  const BAD_REQUEST := 400
  const NOT_FOUND := 404

  // ---- messages ---------------------------------------------------------------

  /** `json.loads` keeps the last of several members with one name. */
  function Find(members: seq<Json.Member>, name: string): Option<Value> {
    if members == [] then None
    else
      var n := |members| - 1;
      if members[n].name == name then Some(members[n].value) else Find(members[..n], name)
  }

  /** `dict.get`: the member of that name, if the value is an object that has one. */
  function Get(value: Value, name: string): Option<Value> {
    if value.Object? then Find(value.members, name) else None
  }

  function OrNull(value: Option<Value>): Value {
    if value.Some? then value.value else Json.Null
  }

  // ---- replies ----------------------------------------------------------------

  datatype Body = Result(value: Value) | Error(code: int)

  datatype Reply = Reply(id: Value, body: Body)

  datatype Plan = Plan(response: Option<Reply>, notifications: seq<Value>, status: int, forceSse: bool) {
    predicate Succeeds() {
      response.Some? && response.value.body.Result?
    }
  }

  function Silent(status: int): Plan {
    Plan(None, [], status, false)
  }

  function Answer(id: Value, result: Value): Plan {
    Plan(Some(Reply(id, Result(result))), [], OK, false)
  }

  function Fails(id: Value, code: int, status: int): Plan {
    Plan(Some(Reply(id, Error(code))), [], status, false)
  }

  // ---- the fixture ------------------------------------------------------------

  /** Handlers that look at nothing but the request. */
  datatype Handler = ListTools | CallTool | ListResources | ReadResource | GetPrompt | Listen

  /** Results that do not depend on the request at all. */
  datatype Fixed = Discovery | Handshake | Empty | ResourceTemplates | Prompts

  /**
   * One server: its mode, the handlers it delegates to as functions of the request id,
   * the params and the request's own metadata, its fixed results, and the id its
   * profile answers a discovery with.
   */
  datatype Fixture = Fixture(
    mode: string,
    serve: (Handler, Value, Value, Value) -> Plan,
    fixed: Fixed -> Value,
    discoveryId: Value -> Value)
  {
    predicate Modern() { mode == MODERN_VERSION }
  }

  /** What a connection remembers. */
  datatype Conn = Conn(initializeSeen: bool, initialized: bool)

  const NEW_CONN := Conn(false, false)

  datatype Outcome = Outcome(conn: Conn, plan: Plan)

  // ---- handling one message ---------------------------------------------------

  datatype Classified =
    | Malformed(plan: Plan)
    | Notification(name: string)
    | Request(id: Value, name: string, params: Value)

  /** The checks every message goes through first. */
  function Classify(message: Value): Classified {
    if !message.Object? then Malformed(Fails(Json.Null, INVALID_REQUEST, BAD_REQUEST))
    else
      var id, name := Get(message, "id"), OrNull(Get(message, "method"));
      var params := Get(message, "params").Or(Some(Json.Object([]))).value;
      if Get(message, "jsonrpc") != Some(Json.Text("2.0")) || !name.Text?
      then Malformed(Fails(OrNull(id), INVALID_REQUEST, BAD_REQUEST))
      else if !params.Object?
      then Malformed(if id.None? then Silent(BAD_REQUEST) else Fails(id.value, INVALID_PARAMS, BAD_REQUEST))
      else if id.None? then Notification(name.s)
      else Request(id.value, name.s, params)
  }

  function AfterNotification(f: Fixture, name: string, c: Conn): Conn {
    if !f.Modern() && name == "notifications/initialized" && c.initializeSeen then c.(initialized := true) else c
  }

  function ModernPlan(f: Fixture, id: Value, name: string, params: Value): Plan {
    var meta := OrNull(Get(params, "_meta"));
    var version := OrNull(Get(meta, "io.modelcontextprotocol/protocolVersion"));
    var capabilities := OrNull(Get(meta, "io.modelcontextprotocol/clientCapabilities"));
    if name == "initialize" then Fails(id, METHOD_NOT_FOUND, NOT_FOUND)
    else if !meta.Object? then Fails(id, INVALID_PARAMS, BAD_REQUEST)
    else if !version.Text? || !capabilities.Object? then Fails(id, INVALID_PARAMS, BAD_REQUEST)
    else if version.s != MODERN_VERSION then Fails(id, UNSUPPORTED_PROTOCOL_VERSION, BAD_REQUEST)
    else if name == "server/discover" then Answer((f.discoveryId)(id), (f.fixed)(Discovery))
    else if name == "subscriptions/listen" then (f.serve)(Listen, id, params, meta)
    else CommonPlan(f, id, name, params, meta)
  }

  /** Methods both modes answer alike, up to the content of the results. */
  function CommonPlan(f: Fixture, id: Value, name: string, params: Value, meta: Value): Plan {
    if name == "tools/list" then (f.serve)(ListTools, id, params, meta)
    else if name == "tools/call" then (f.serve)(CallTool, id, params, meta)
    else if name == "resources/list" then (f.serve)(ListResources, id, params, meta)
    else if name == "resources/templates/list" then Answer(id, (f.fixed)(ResourceTemplates))
    else if name == "resources/read" then (f.serve)(ReadResource, id, params, meta)
    else if name == "prompts/list" then Answer(id, (f.fixed)(Prompts))
    else if name == "prompts/get" then (f.serve)(GetPrompt, id, params, meta)
    else Fails(id, METHOD_NOT_FOUND, NOT_FOUND)
  }

  function Legacy(f: Fixture, id: Value, name: string, params: Value, c: Conn): Outcome {
    if name == "initialize" then
      if !OrNull(Get(params, "protocolVersion")).Text? then Outcome(c, Fails(id, INVALID_PARAMS, OK))
      else Outcome(c.(initializeSeen := true), Answer(id, (f.fixed)(Handshake)))
    else if name == "server/discover" then Outcome(c, Fails(id, METHOD_NOT_FOUND, NOT_FOUND))
    else if !c.initialized then Outcome(c, Fails(id, INVALID_REQUEST, OK))
    else if name == "ping" || name == "logging/setLevel" then Outcome(c, Answer(id, (f.fixed)(Empty)))
    else Outcome(c, CommonPlan(f, id, name, params, Json.Object([])))
  }

  function Handle(f: Fixture, message: Value, c: Conn): Outcome {
    match Classify(message)
    case Malformed(plan) => Outcome(c, plan)
    case Notification(name) => Outcome(AfterNotification(f, name, c), Silent(ACCEPTED))
    case Request(id, name, params) =>
      if f.Modern() then Outcome(c, ModernPlan(f, id, name, params)) else Legacy(f, id, name, params, c)
  }

  // ---- the methods of the source ----------------------------------------------

  class ConnectionState {
    var initializeSeen: bool
    var initialized: bool

    constructor ()
      ensures Flags() == NEW_CONN
    {
      initializeSeen, initialized := false, false;
    }

    function Flags(): Conn
      reads this
    {
      Conn(initializeSeen, initialized)
    }
  }

  class ProtocolServer {
    const fixture: Fixture

    constructor (f: Fixture)
      ensures fixture == f
    {
      fixture := f;
    }

    method HandleNotification(name: string, state: ConnectionState) returns (plan: Plan)
      modifies state
      ensures state.Flags() == AfterNotification(fixture, name, old(state.Flags()))
      ensures plan == Silent(ACCEPTED)
    {
      if !fixture.Modern() && name == "notifications/initialized" {
        if state.initializeSeen {
          state.initialized := true;
        }
        return Silent(ACCEPTED);
      }
      plan := Silent(ACCEPTED);
    }

    method HandleLegacy(id: Value, name: string, params: Value, state: ConnectionState) returns (plan: Plan)
      modifies state
      ensures Outcome(state.Flags(), plan) == Legacy(fixture, id, name, params, old(state.Flags()))
    {
      if name == "initialize" {
        var requestedVersion := OrNull(Get(params, "protocolVersion"));
        if !requestedVersion.Text? {
          return Fails(id, INVALID_PARAMS, OK);
        }
        state.initializeSeen := true;
        return Answer(id, (fixture.fixed)(Handshake));
      }
      if name == "server/discover" {
        return Fails(id, METHOD_NOT_FOUND, NOT_FOUND);
      }
      if !state.initialized {
        return Fails(id, INVALID_REQUEST, OK);
      }
      if name == "ping" {
        return Answer(id, (fixture.fixed)(Empty));
      }
      if name == "logging/setLevel" {
        return Answer(id, (fixture.fixed)(Empty));
      }
      plan := CommonPlan(fixture, id, name, params, Json.Object([]));
    }

    method HandleMessage(message: Value, state: ConnectionState) returns (plan: Plan)
      modifies state
      ensures Outcome(state.Flags(), plan) == Handle(fixture, message, old(state.Flags()))
    {
      var classified := Classify(message);
      match classified {
        case Malformed(refusal) => plan := refusal;
        case Notification(name) => plan := HandleNotification(name, state);
        case Request(id, name, params) =>
          if fixture.Modern() {
            plan := ModernPlan(fixture, id, name, params);
          } else {
            plan := HandleLegacy(id, name, params, state);
          }
      }
    }
  }

  // ---- the life of a connection -----------------------------------------------

  /** A connection's flags after the messages it was given, in order. */
  function Flags(f: Fixture, messages: seq<Value>): Conn {
    if messages == [] then NEW_CONN
    else
      var n := |messages| - 1;
      Handle(f, messages[n], Flags(f, messages[..n])).conn
  }

  /** A well-formed initialize request that names a protocol version. */
  predicate Initializes(f: Fixture, message: Value) {
    var m := Classify(message);
    !f.Modern() && m.Request? && m.name == "initialize" && OrNull(Get(m.params, "protocolVersion")).Text?
  }

  predicate Confirms(f: Fixture, message: Value) {
    !f.Modern() && Classify(message) == Notification("notifications/initialized")
  }

  ghost predicate Initialized(f: Fixture, messages: seq<Value>) {
    exists i :: 0 <= i < |messages| && Initializes(f, messages[i])
  }

  /** The handshake: a successful initialize and, later on the same connection, its confirmation. */
  ghost predicate Ready(f: Fixture, messages: seq<Value>) {
    exists i, j :: 0 <= i < j < |messages| && Initializes(f, messages[i]) && Confirms(f, messages[j])
  }

  /** An initialize request succeeds exactly when it is well formed, whatever came before. */
  lemma InitializeSucceeds(f: Fixture, message: Value, c: Conn)
    requires !f.Modern() && Classify(message).Request? && Classify(message).name == "initialize"
    ensures Handle(f, message, c).plan.Succeeds() <==> Initializes(f, message)
  {
  }

  lemma InitializedSnoc(f: Fixture, messages: seq<Value>, m: Value)
    ensures Initialized(f, messages + [m]) <==> Initialized(f, messages) || Initializes(f, m)
    ensures Ready(f, messages + [m]) <==> Ready(f, messages) || (Initialized(f, messages) && Confirms(f, m))
  {
    hide Classify;
    var all := messages + [m];
    if Initialized(f, messages) {
      var i :| 0 <= i < |messages| && Initializes(f, messages[i]);
      assert Initializes(f, all[i]);
      if Confirms(f, m) {
        assert Confirms(f, all[|messages|]);
      }
    }
    if Initializes(f, m) {
      assert Initializes(f, all[|messages|]);
    }
    if Ready(f, messages) {
      var i, j :| 0 <= i < j < |messages| && Initializes(f, messages[i]) && Confirms(f, messages[j]);
      assert Initializes(f, all[i]) && Confirms(f, all[j]);
    }
  }

  /** The two flags say exactly what has happened on the connection so far. */
  lemma {:induction false} FlagsMean(f: Fixture, messages: seq<Value>)
    ensures Flags(f, messages).initializeSeen <==> Initialized(f, messages)
    ensures Flags(f, messages).initialized <==> Ready(f, messages)
  {
    if messages != [] {
      var n := |messages| - 1;
      var c := Flags(f, messages[..n]);
      FlagsMean(f, messages[..n]);
      assert messages == messages[..n] + [messages[n]];
      InitializedSnoc(f, messages[..n], messages[n]);
      FlagsStep(f, messages[n], c);
      hide Initialized, Ready, Initializes, Confirms, Handle;
    }
  }

  lemma FlagsStep(f: Fixture, message: Value, c: Conn)
    ensures var next := Handle(f, message, c).conn;
            && (next.initializeSeen <==> c.initializeSeen || Initializes(f, message))
            && (next.initialized <==> c.initialized || (c.initializeSeen && Confirms(f, message)))
  {
    hide Classify;
  }

  /**
   * The lifecycle rule, for one message after any history on its connection: a result
   * to a request other than initialize means the handshake is complete, and once it is,
   * no legacy request is refused for the lack of it.
   */
  lemma LegacyLifecycle(f: Fixture, history: seq<Value>, message: Value)
    requires !f.Modern() && Classify(message).Request? && Classify(message).name != "initialize"
    ensures var plan := Handle(f, message, Flags(f, history)).plan;
            var m := Classify(message);
            && (plan.Succeeds() ==> Ready(f, history))
            && (m.name == "ping" || m.name == "logging/setLevel" ==> (plan.Succeeds() <==> Ready(f, history)))
            && (Ready(f, history) && m.name != "server/discover" && m.name != "ping" && m.name != "logging/setLevel" ==>
                  plan == CommonPlan(f, m.id, m.name, m.params, Json.Object([])))
  {
    hide Classify, CommonPlan;
    FlagsMean(f, history);
  }

  /** In modern mode nothing is remembered and nothing remembered matters. */
  lemma ModernIndependence(f: Fixture, message: Value, c: Conn, d: Conn)
    requires f.Modern()
    ensures Handle(f, message, c).plan == Handle(f, message, d).plan
    ensures Handle(f, message, c).conn == c
  {
    hide Classify, ModernPlan;
  }

  // ---- stdio ------------------------------------------------------------------

  /** What one line makes the server write; a line that is not JSON gets a parse error. */
  datatype Written = Note(notification: Value) | Response(reply: Reply)

  function Notes(notifications: seq<Value>): seq<Written> {
    if notifications == [] then [] else [Note(notifications[0])] + Notes(notifications[1..])
  }

  function WrittenFor(plan: Plan): seq<Written> {
    Notes(plan.notifications) + if plan.response.Some? then [Response(plan.response.value)] else []
  }

  /** The messages among the lines, in order. */
  function MessagesOf(lines: seq<Option<Value>>): seq<Value> {
    if lines == [] then []
    else
      var n := |lines| - 1;
      MessagesOf(lines[..n]) + if lines[n].Some? then [lines[n].value] else []
  }

  /** What a line adds, given the messages before it. */
  function LineWritten(f: Fixture, before: seq<Value>, line: Option<Value>): seq<Written> {
    match line
    case None => [Response(Reply(Json.Null, Error(PARSE_ERROR)))]
    case Some(message) => WrittenFor(Handle(f, message, Flags(f, before)).plan)
  }

  /** Each line is answered from the line itself and from what the messages before it did to the flags. */
  function Transcript(f: Fixture, lines: seq<Option<Value>>): seq<Written> {
    if lines == [] then []
    else
      var n := |lines| - 1;
      Transcript(f, lines[..n]) + LineWritten(f, MessagesOf(lines[..n]), lines[n])
  }

  lemma TranscriptSnoc(f: Fixture, lines: seq<Option<Value>>, line: Option<Value>)
    ensures Transcript(f, lines + [line]) == Transcript(f, lines) + LineWritten(f, MessagesOf(lines), line)
    ensures MessagesOf(lines + [line]) == MessagesOf(lines) + if line.Some? then [line.value] else []
  {
    assert (lines + [line])[..|lines|] == lines;
  }

  lemma FlagsSnoc(f: Fixture, messages: seq<Value>, message: Value)
    ensures Flags(f, messages + [message]) == Handle(f, message, Flags(f, messages)).conn
  {
    assert (messages + [message])[..|messages|] == messages;
  }

  method WritePlan(plan: Plan) returns (written: seq<Written>)
    ensures written == WrittenFor(plan)
  {
    written := [];
    var j := 0;
    while j < |plan.notifications|
      invariant 0 <= j <= |plan.notifications|
      invariant Notes(plan.notifications) == written + Notes(plan.notifications[j..])
    {
      assert plan.notifications[j..][1..] == plan.notifications[j + 1..];
      written := written + [Note(plan.notifications[j])];
      j := j + 1;
    }
    if plan.response.Some? {
      written := written + [Response(plan.response.value)];
    }
  }

  method RunStdio(server: ProtocolServer, lines: seq<Option<Value>>) returns (written: seq<Written>)
    ensures written == Transcript(server.fixture, lines)
  {
    hide Handle, Flags, Transcript, MessagesOf, WrittenFor;
    var f := server.fixture;
    var state := new ConnectionState();
    written := [];
    NothingSent(f);
    assert lines[..0] == [];
    for k := 0 to |lines|
      invariant written == Transcript(f, lines[..k])
      invariant state.Flags() == Flags(f, MessagesOf(lines[..k]))
      invariant fresh(state)
    {
      assert lines[..k + 1] == lines[..k] + [lines[k]];
      TranscriptSnoc(f, lines[..k], lines[k]);
      if lines[k].None? {
        assert MessagesOf(lines[..k]) + [] == MessagesOf(lines[..k]);
        written := written + [Response(Reply(Json.Null, Error(PARSE_ERROR)))];
        continue;
      }
      FlagsSnoc(f, MessagesOf(lines[..k]), lines[k].value);
      var plan := server.HandleMessage(lines[k].value, state);
      var more := WritePlan(plan);
      written := written + more;
    }
    assert lines[..|lines|] == lines;
  }

  lemma NothingSent(f: Fixture)
    ensures Transcript(f, []) == [] && Flags(f, MessagesOf([])) == NEW_CONN
  {
  }

  /** A modern server answers each line by itself, as if it were the only one. */
  lemma {:induction false} ModernTranscript(f: Fixture, a: seq<Option<Value>>, b: seq<Option<Value>>)
    requires f.Modern()
    ensures Transcript(f, a + b) == Transcript(f, a) + Transcript(f, b)
    decreases |b|
  {
    hide Handle, Flags, Transcript, MessagesOf, WrittenFor;
    NothingSent(f);
    if b == [] {
      assert a + b == a;
    } else {
      var n := |b| - 1;
      var front, line := b[..n], b[n];
      assert b == front + [line] && a + b == (a + front) + [line];
      ModernTranscript(f, a, front);
      TranscriptSnoc(f, a + front, line);
      TranscriptSnoc(f, front, line);
      if line.Some? {
        ModernIndependence(f, line.value, Flags(f, MessagesOf(a + front)), Flags(f, MessagesOf(front)));
      }
    }
  }
}
