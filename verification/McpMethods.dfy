/** Which requests the fixture server serves, which handler serves them, and how every other one is refused. */
module McpMethods {
  import opened Wrappers
  import opened McpProtocol
  import Json = SseStream

  // ---- reading a message ------------------------------------------------------

  /** The last member of a name is the one that counts. */
  lemma {:induction false} FindMeans(members: seq<Json.Member>, name: string, value: Value)
    ensures Find(members, name) == Some(value) <==>
              exists i :: 0 <= i < |members| && members[i] == Json.Member(name, value)
                          && forall j | i < j < |members| :: members[j].name != name
    ensures Find(members, name).None? <==> forall i | 0 <= i < |members| :: members[i].name != name
  {
    if members != [] {
      var n := |members| - 1;
      FindMeans(members[..n], name, value);
      if members[n].name != name {
        if i :| 0 <= i < n && members[..n][i] == Json.Member(name, value) && forall j | i < j < n :: members[..n][j].name != name {
          assert members[i] == members[..n][i];
          assert forall j | i < j < n :: members[j] == members[..n][j];
        }
        if i :| 0 <= i < |members| && members[i] == Json.Member(name, value) && forall j | i < j < |members| :: members[j].name != name {
          assert i < n && members[i] == members[..n][i];
        }
        assert forall i | 0 <= i < n :: members[i] == members[..n][i];
      }
    }
  }

  /** A call: an object that says it is JSON-RPC 2.0 and names a method. */
  predicate IsCall(message: Value, name: string) {
    && message.Object? && Find(message.members, "jsonrpc") == Some(Json.Text("2.0"))
    && Find(message.members, "method") == Some(Json.Text(name))
  }

  /** The parameters of a call; a call without any has an empty object of them. */
  predicate HasParams(message: Value, params: Value)
    requires message.Object?
  {
    var given := Find(message.members, "params");
    if given.None? then params == Json.Object([]) else given == Some(params)
  }

  lemma ClassifyMeans(message: Value, id: Value, name: string, params: Value)
    ensures Classify(message) == Request(id, name, params) <==>
              IsCall(message, name) && HasParams(message, params) && params.Object? && Find(message.members, "id") == Some(id)
    ensures Classify(message) == Notification(name) <==>
              && IsCall(message, name) && Find(message.members, "id") == None
              && exists params :: HasParams(message, params) && params.Object?
  {
    hide Find;
    if message.Object? {
      var given := Find(message.members, "params");
      assert HasParams(message, if given.None? then Json.Object([]) else given.value);
    }
  }

  /** How a message that is neither is answered. */
  lemma MalformedMeans(message: Value)
    ensures !message.Object? ==> Classify(message) == Malformed(Fails(Json.Null, INVALID_REQUEST, BAD_REQUEST))
    ensures message.Object? && (forall name :: !IsCall(message, name)) ==>
              Classify(message) == Malformed(Fails(OrNull(Find(message.members, "id")), INVALID_REQUEST, BAD_REQUEST))
    ensures forall name, params | IsCall(message, name) && HasParams(message, params) && !params.Object? ::
              Classify(message) == Malformed(match Find(message.members, "id")
                                             case None => Silent(BAD_REQUEST)
                                             case Some(id) => Fails(id, INVALID_PARAMS, BAD_REQUEST))
  {
    hide Find;
    if message.Object? && Find(message.members, "jsonrpc") == Some(Json.Text("2.0")) {
      var name := Find(message.members, "method");
      if name.Some? && name.value.Text? {
        assert IsCall(message, name.value.s);
      }
    }
  }

  // ---- the tables of methods --------------------------------------------------

  datatype Target = Served(handler: Handler) | Given(result: Fixed)

  const COMMON_METHODS: map<string, Target> := map[
    "tools/list" := Served(ListTools), "tools/call" := Served(CallTool),
    "resources/list" := Served(ListResources), "resources/read" := Served(ReadResource),
    "resources/templates/list" := Given(ResourceTemplates),
    "prompts/list" := Given(Prompts), "prompts/get" := Served(GetPrompt)]

  const MODERN_METHODS: map<string, Target> :=
    COMMON_METHODS + map["server/discover" := Given(Discovery), "subscriptions/listen" := Served(Listen)]

  const LEGACY_METHODS: map<string, Target> :=
    COMMON_METHODS + map["ping" := Given(Empty), "logging/setLevel" := Given(Empty)]

  /** What a handler or a fixed result answers; only discovery may answer under another id. */
  function Reached(f: Fixture, target: Target, id: Value, params: Value, meta: Value): Plan {
    match target
    case Served(handler) => (f.serve)(handler, id, params, meta)
    case Given(result) =>
      var answered := if result.Discovery? then (f.discoveryId)(id) else id;
      Plan(Some(Reply(answered, Result((f.fixed)(result)))), [], 200, false)
  }

  function Refusal(id: Value, code: int, status: int): Plan {
    Plan(Some(Reply(id, Error(code))), [], status, false)
  }

  lemma CommonMeans(f: Fixture, id: Value, name: string, params: Value, meta: Value)
    ensures name in COMMON_METHODS ==> CommonPlan(f, id, name, params, meta) == Reached(f, COMMON_METHODS[name], id, params, meta)
    ensures name !in COMMON_METHODS ==> CommonPlan(f, id, name, params, meta) == Refusal(id, -32601, 404)
  {
  }

  // ---- modern requests --------------------------------------------------------

  /** The metadata a request carries. */
  predicate HasMeta(params: Value, meta: Value) {
    params.Object? && meta.Object? && Find(params.members, "_meta") == Some(meta)
  }

  /** The metadata name the version and give the client's capabilities. */
  predicate Declares(meta: Value, version: string) {
    && meta.Object?
    && var capabilities := Find(meta.members, "io.modelcontextprotocol/clientCapabilities");
    && Find(meta.members, "io.modelcontextprotocol/protocolVersion") == Some(Json.Text(version))
    && capabilities.Some? && capabilities.value.Object?
  }

  ghost predicate Admitted(name: string, params: Value) {
    && name != "initialize" && name in MODERN_METHODS
    && exists meta :: HasMeta(params, meta) && Declares(meta, "2026-07-28")
  }

  /** Every modern request: what it reaches, or why it is refused, with code and status. */
  lemma ModernAnswers(f: Fixture, id: Value, name: string, params: Value)
    requires params.Object?
    ensures name == "initialize" ==> ModernPlan(f, id, name, params) == Refusal(id, -32601, 404)
    ensures name != "initialize" && (forall meta, version :: !(HasMeta(params, meta) && Declares(meta, version))) ==>
              ModernPlan(f, id, name, params) == Refusal(id, -32602, 400)
    ensures forall meta, version | name != "initialize" && HasMeta(params, meta) && Declares(meta, version) ::
              ModernPlan(f, id, name, params) == ModernTarget(f, id, name, params, meta, version)
  {
    hide ModernPlan, HasMeta, Declares, ModernTarget;
    if name == "initialize" {
      NoModernHandshake(f, id, params);
    } else if forall meta, version :: !(HasMeta(params, meta) && Declares(meta, version)) {
      UndeclaredRefused(f, id, name, params);
    } else {
      forall meta, version | HasMeta(params, meta) && Declares(meta, version)
        ensures ModernPlan(f, id, name, params) == ModernTarget(f, id, name, params, meta, version)
      {
        DeclaredAnswered(f, id, name, params, meta, version);
      }
    }
  }

  /** Where a request with proper metadata goes. */
  function ModernTarget(f: Fixture, id: Value, name: string, params: Value, meta: Value, version: string): Plan {
    if version != "2026-07-28" then Refusal(id, -32022, 400)
    else if name in MODERN_METHODS then Reached(f, MODERN_METHODS[name], id, params, meta)
    else Refusal(id, -32601, 404)
  }

  lemma NoModernHandshake(f: Fixture, id: Value, params: Value)
    ensures ModernPlan(f, id, "initialize", params) == Refusal(id, -32601, 404)
  {
    hide Find, CommonPlan;
  }

  lemma UndeclaredRefused(f: Fixture, id: Value, name: string, params: Value)
    requires params.Object? && name != "initialize" && forall meta, version :: !(HasMeta(params, meta) && Declares(meta, version))
    ensures ModernPlan(f, id, name, params) == Refusal(id, -32602, 400)
  {
    hide Find, CommonPlan;
    var meta := OrNull(Find(params.members, "_meta"));
    if meta.Object? {
      assert HasMeta(params, meta);
      var version := OrNull(Find(meta.members, "io.modelcontextprotocol/protocolVersion"));
      if version.Text? {
        assert !Declares(meta, version.s);
      }
    }
  }

  lemma DeclaredAnswered(f: Fixture, id: Value, name: string, params: Value, meta: Value, version: string)
    requires name != "initialize" && HasMeta(params, meta) && Declares(meta, version)
    ensures ModernPlan(f, id, name, params) == ModernTarget(f, id, name, params, meta, version)
  {
    hide Find, CommonPlan, COMMON_METHODS, MODERN_METHODS, Reached;
    ModernServed(f, id, name, params, meta);
  }

  lemma ModernServed(f: Fixture, id: Value, name: string, params: Value, meta: Value)
    requires name != "initialize"
    ensures (if name == "server/discover" then Answer((f.discoveryId)(id), (f.fixed)(Discovery))
             else if name == "subscriptions/listen" then (f.serve)(Listen, id, params, meta)
             else CommonPlan(f, id, name, params, meta))
         == if name in MODERN_METHODS then Reached(f, MODERN_METHODS[name], id, params, meta) else Refusal(id, -32601, 404)
  {
    hide CommonPlan, COMMON_METHODS, MODERN_METHODS;
    CommonMeans(f, id, name, params, meta);
    ModernTable(name);
  }

  lemma ModernTable(name: string)
    ensures name in MODERN_METHODS <==> name in COMMON_METHODS || name == "server/discover" || name == "subscriptions/listen"
    ensures name in COMMON_METHODS ==> MODERN_METHODS[name] == COMMON_METHODS[name]
    ensures "server/discover" !in COMMON_METHODS && "subscriptions/listen" !in COMMON_METHODS && "initialize" !in COMMON_METHODS
    ensures MODERN_METHODS["server/discover"] == Given(Discovery) && MODERN_METHODS["subscriptions/listen"] == Served(Listen)
  {
  }

  /** A fixture whose every answer carries a number of its own. */
  function Marked(mode: string, n: int): (f: Fixture)
    ensures f.mode == mode
  {
    Fixture(mode, (h: Handler, id: Value, params: Value, meta: Value) => Silent(n), (x: Fixed) => Json.Int(n), (id: Value) => id)
  }

  lemma MarkedApart(mode: string, target: Target, id: Value, params: Value, meta: Value)
    ensures Reached(Marked(mode, 1), target, id, params, meta) != Reached(Marked(mode, 2), target, id, params, meta)
  {
  }

  /**
   * A modern request gets past the protocol, to a handler or a result of the fixture, exactly
   * when it is admitted, on a connection in any state.
   */
  lemma ModernReachedIff(message: Value, c: Conn)
    requires Classify(message).Request?
    ensures Admitted(Classify(message).name, Classify(message).params) <==>
              exists f: Fixture, g: Fixture :: f.Modern() && g.Modern() && Handle(f, message, c).plan != Handle(g, message, c).plan
  {
    hide ModernPlan, HasMeta, Declares, Reached, MODERN_METHODS, Marked, Classify;
    ParamsAreObject(message);
    var m := Classify(message);
    forall f: Fixture, g: Fixture | f.Modern() && g.Modern() && Handle(f, message, c).plan != Handle(g, message, c).plan
      ensures Admitted(m.name, m.params)
    {
      ModernAnswers(f, m.id, m.name, m.params);
      ModernAnswers(g, m.id, m.name, m.params);
    }
    if Admitted(m.name, m.params) {
      var meta :| HasMeta(m.params, meta) && Declares(meta, "2026-07-28");
      var f, g := Marked(MODERN_VERSION, 1), Marked(MODERN_VERSION, 2);
      ModernAnswers(f, m.id, m.name, m.params);
      ModernAnswers(g, m.id, m.name, m.params);
      MarkedApart(MODERN_VERSION, MODERN_METHODS[m.name], m.id, m.params, meta);
      assert f.Modern() && g.Modern() && Handle(f, message, c).plan != Handle(g, message, c).plan;
    }
  }

  // ---- legacy requests --------------------------------------------------------

  /** Every legacy request, on a connection in any state. */
  lemma LegacyAnswers(f: Fixture, id: Value, name: string, params: Value, c: Conn)
    requires params.Object?
    ensures var version := Find(params.members, "protocolVersion");
            name == "initialize" ==>
              Legacy(f, id, name, params, c)
              == if version.Some? && version.value.Text?
                 then Outcome(c.(initializeSeen := true), Reached(f, Given(Handshake), id, params, Json.Object([])))
                 else Outcome(c, Refusal(id, -32602, 200))
    ensures name != "initialize" ==>
              Legacy(f, id, name, params, c)
              == Outcome(c, if name == "server/discover" then Refusal(id, -32601, 404)
                            else if !c.initialized then Refusal(id, -32600, 200)
                            else if name in LEGACY_METHODS then Reached(f, LEGACY_METHODS[name], id, params, Json.Object([]))
                            else Refusal(id, -32601, 404))
  {
    hide Find, CommonPlan, COMMON_METHODS;
    CommonMeans(f, id, name, params, Json.Object([]));
    LegacyTable(name);
  }

  lemma LegacyTable(name: string)
    ensures name in LEGACY_METHODS <==> name in COMMON_METHODS || name == "ping" || name == "logging/setLevel"
    ensures name in COMMON_METHODS ==> LEGACY_METHODS[name] == COMMON_METHODS[name]
    ensures "ping" !in COMMON_METHODS && "logging/setLevel" !in COMMON_METHODS && "server/discover" !in LEGACY_METHODS
    ensures LEGACY_METHODS["ping"] == Given(Empty) && LEGACY_METHODS["logging/setLevel"] == Given(Empty)
  {
  }

  /** After any history, a legacy request other than initialize gets past the protocol exactly when the handshake is complete and its method is known. */
  lemma LegacyReachedIff(mode: string, history: seq<Value>, message: Value)
    requires mode != MODERN_VERSION && Classify(message).Request? && Classify(message).name != "initialize"
    ensures Ready(Marked(mode, 1), history) && Classify(message).name in LEGACY_METHODS <==>
              exists f: Fixture, g: Fixture ::
                f.mode == mode && g.mode == mode
                && Handle(f, message, Flags(f, history)).plan != Handle(g, message, Flags(g, history)).plan
  {
    hide Legacy, Reached, LEGACY_METHODS, Marked, Ready, Flags;
    var m := Classify(message);
    ParamsAreObject(message);
    LegacyTable(m.name);
    forall f: Fixture | f.mode == mode ensures Ready(f, history) <==> Ready(Marked(mode, 1), history) {
      SameHandshake(f, Marked(mode, 1), history);
    }
    forall f: Fixture | f.mode == mode
      ensures Handle(f, message, Flags(f, history)).plan == Legacy(f, m.id, m.name, m.params, Flags(f, history)).plan
      ensures Flags(f, history).initialized <==> Ready(Marked(mode, 1), history)
    {
      FlagsMean(f, history);
      LegacyAnswers(f, m.id, m.name, m.params, Flags(f, history));
    }
    forall f: Fixture, g: Fixture | f.mode == mode && g.mode == mode
      && Handle(f, message, Flags(f, history)).plan != Handle(g, message, Flags(g, history)).plan
      ensures Ready(Marked(mode, 1), history) && m.name in LEGACY_METHODS
    {
      LegacyAnswers(f, m.id, m.name, m.params, Flags(f, history));
      LegacyAnswers(g, m.id, m.name, m.params, Flags(g, history));
    }
    if Ready(Marked(mode, 1), history) && m.name in LEGACY_METHODS {
      var f, g := Marked(mode, 1), Marked(mode, 2);
      LegacyAnswers(f, m.id, m.name, m.params, Flags(f, history));
      LegacyAnswers(g, m.id, m.name, m.params, Flags(g, history));
      MarkedApart(mode, LEGACY_METHODS[m.name], m.id, m.params, Json.Object([]));
    }
  }

  lemma ParamsAreObject(message: Value)
    requires Classify(message).Request?
    ensures Classify(message).params.Object?
  {
    hide Find;
  }

  /** Whether the handshake is complete depends on the messages and the mode alone. */
  lemma SameHandshake(f: Fixture, g: Fixture, history: seq<Value>)
    requires f.mode == g.mode
    ensures Ready(f, history) <==> Ready(g, history)
  {
    hide Classify;
    if i, j :| 0 <= i < j < |history| && Initializes(f, history[i]) && Confirms(f, history[j]) {
      assert Initializes(g, history[i]) && Confirms(g, history[j]);
    }
    if i, j :| 0 <= i < j < |history| && Initializes(g, history[i]) && Confirms(g, history[j]) {
      assert Initializes(f, history[i]) && Confirms(f, history[j]);
    }
  }
}
