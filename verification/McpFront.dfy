/** What the HTTP front answers to every POST that has the server to itself, with status and error code. */
module McpFront {
  import opened Wrappers
  import opened McpProtocol
  import opened McpHttp
  import Json = SseStream

  /** The checks before the body is looked at, in the order in which the first that fails decides. */
  function FrontChecks(endpoint: string, post: Post): seq<(bool, int, int)> {
    var length := if post.contentLength.Some? then post.contentLength.value else -1;
    [(post.path == endpoint, 404, -32601),
     (post.originAllowed, 403, -32600),
     (post.contentType == "application/json", 415, -32600),
     (0 <= length <= 1_048_576, 400, -32600),
     (post.body.Some?, 400, -32700),
     (post.body.Some? && post.body.value.Object?, 400, -32600)]
  }

  predicate FailsFirst(checks: seq<(bool, int, int)>, i: nat) {
    i < |checks| && !checks[i].0 && forall j | 0 <= j < i :: checks[j].0
  }

  predicate PassesAll(checks: seq<(bool, int, int)>) {
    forall j | 0 <= j < |checks| :: checks[j].0
  }

  /** The front lets exactly the posts through that meet all checks, and refuses the others by the first they fail. */
  lemma FrontMeans(endpoint: string, post: Post, i: nat)
    ensures PassesAll(FrontChecks(endpoint, post)) ==> post.body.Some? && Front(endpoint, post) == Ok(post.body.value)
    ensures FailsFirst(FrontChecks(endpoint, post), i) ==>
              Front(endpoint, post) == Err(Refusal(FrontChecks(endpoint, post)[i].1, Json.Null, FrontChecks(endpoint, post)[i].2))
  {
    var c := FrontChecks(endpoint, post);
    if PassesAll(c) {
      assert c[0].0 && c[1].0 && c[2].0 && c[3].0 && c[4].0 && c[5].0;
    }
    if FailsFirst(c, i) {
      assert i > 0 ==> c[0].0;
      assert i > 1 ==> c[1].0;
      assert i > 2 ==> c[2].0;
      assert i > 3 ==> c[3].0;
      assert i > 4 ==> c[4].0;
    }
  }

  /** An error reply: one JSON message, no session. */
  predicate Refuses(reply: HttpReply, status: int, id: Value, code: int) {
    reply == HttpReply(status, JsonContent(Reply(id, Error(code))), None)
  }

  /** How the protocol's answer goes out: nothing for a notification, a stream where one is asked for, JSON otherwise. */
  ghost predicate Carries(reply: HttpReply, plan: Plan, session: Option<string>) {
    && reply.status == plan.status && reply.session == session
    && (plan.response.None? <==> reply.content.NoContent?)
    && (forall answer | plan.response == Some(answer) ::
          reply.content == if plan.forceSse then EventStream(plan.notifications, answer) else JsonContent(answer))
  }

  lemma RefusedPost(f: Fixture, endpoint: string, sessions: map<string, Conn>, post: Post, newId: string, i: nat)
    requires FailsFirst(FrontChecks(endpoint, post), i)
    ensures var out, check := PostAlone(f, endpoint, sessions, post, newId), FrontChecks(endpoint, post)[i];
            out.sessions == sessions && Refuses(out.reply, check.1, Json.Null, check.2)
  {
    hide Front, FrontChecks, Handle, RouteLegacy;
    FrontMeans(endpoint, post, i);
  }

  /** A modern post is answered on a connection of its own, or refused for its headers if it is a request. */
  lemma ModernPost(f: Fixture, endpoint: string, sessions: map<string, Conn>, post: Post, newId: string, message: Value)
    requires f.Modern() && PassesAll(FrontChecks(endpoint, post)) && post.body == Some(message)
    ensures var out := PostAlone(f, endpoint, sessions, post, newId);
            && message.Object? && out.sessions == sessions
            && (!post.headersMatch && Find(message.members, "id").Some? ==>
                  Refuses(out.reply, 400, Find(message.members, "id").value, -32020))
            && (post.headersMatch || Find(message.members, "id").None? ==>
                  Carries(out.reply, Handle(f, message, NEW_CONN).plan, None))
  {
    FrontMeans(endpoint, post, 0);
    assert FrontChecks(endpoint, post)[5].0;
    hide Front, FrontChecks, Handle, Find;
  }

  /** A legacy post goes to a new session, to no session, to the one it names, or nowhere. */
  lemma LegacyPost(f: Fixture, endpoint: string, sessions: map<string, Conn>, post: Post, newId: string, message: Value)
    requires !f.Modern() && PassesAll(FrontChecks(endpoint, post)) && post.body == Some(message)
    ensures var out := PostAlone(f, endpoint, sessions, post, newId);
            && message.Object?
            && var name, first := Find(message.members, "method"), Handle(f, message, NEW_CONN);
               if name == Some(Json.Text("initialize")) then
                 out.sessions == sessions[newId := first.conn] && Carries(out.reply, first.plan, Some(newId))
               else if name == Some(Json.Text("server/discover")) then
                 out.sessions == sessions && Carries(out.reply, first.plan, None)
               else if post.session.Some? && post.session.value in sessions then
                 var served := Handle(f, message, sessions[post.session.value]);
                 out.sessions == sessions[post.session.value := served.conn] && Carries(out.reply, served.plan, post.session)
               else out.sessions == sessions && Refuses(out.reply, 400, OrNull(Find(message.members, "id")), -32600)
  {
    FrontMeans(endpoint, post, 0);
    assert FrontChecks(endpoint, post)[5].0;
    hide Front, FrontChecks, Handle, Find;
  }
}
