/**
 * The server-sent event encoder of the conformance fixture server, and a reader
 * that follows sections 9.2.5 and 9.2.6 of the WHATWG HTML standard.
 */
module SseStream {
  import opened JsonText

  // ---- JSON messages ----------------------------------------------------------

  /** A JSON-RPC message; object members are in insertion order. */
  datatype Message =
    | Null
    | Bool(b: bool)
    | Int(n: int)
    | Text(s: string)
    | List(items: seq<Message>)
    | Object(members: seq<Member>)

  datatype Member = Member(name: string, value: Message)

  /** `json.dumps` with compact separators and without ASCII escaping. */
  function Dumps(m: Message): string
    decreases m, 1
  {
    match m
    case Null => "null"
    case Bool(b) => if b then "true" else "false"
    case Int(n) => PrintInt(n)
    case Text(s) => Quote(s)
    case List(items) => "[" + DumpsItems(items) + "]"
    case Object(members) => "{" + DumpsMembers(members) + "}"
  }

  function DumpsItems(items: seq<Message>): string
    decreases items, 0
  {
    if items == [] then ""
    else Dumps(items[0]) + (if |items| == 1 then "" else "," + DumpsItems(items[1..]))
  }

  function DumpsMembers(members: seq<Member>): string
    decreases members, 0
  {
    if members == [] then ""
    else
      Quote(members[0].name) + ":" + Dumps(members[0].value)
      + (if |members| == 1 then "" else "," + DumpsMembers(members[1..]))
  }

  function DumpsAll(messages: seq<Message>): (r: seq<string>)
    ensures |r| == |messages|
  {
    if messages == [] then [] else [Dumps(messages[0])] + DumpsAll(messages[1..])
  }

  // ---- the encoder ------------------------------------------------------------

  const SSE_CR_COMMENTS_PROFILE := "sse-cr-comments"
  const SSE_COMMENT_FLOOD_PROFILE := "sse-comment-flood"
  const EVENT_LIMIT_BYTES: nat := 8 * 1_024 * 1_024
  const COMMENT_LINE_BYTES: nat := 2_048
  const COMMENT_LINE_COUNT: nat := EVENT_LIMIT_BYTES / COMMENT_LINE_BYTES + 1
  const COMMENT_PREFIX := ": reviewer keepalive "

  function Repeat(s: string, n: nat): (r: string)
    ensures |r| == n * |s|
  {
    if n == 0 then "" else s + Repeat(s, n - 1)
  }

  function FloodComment(): (r: string)
    ensures |r| + 1 == COMMENT_LINE_BYTES
  {
    COMMENT_PREFIX + Repeat("x", COMMENT_LINE_BYTES - |COMMENT_PREFIX| - 1)
  }

  function StreamPrefix(profile: string): string {
    if profile == SSE_COMMENT_FLOOD_PROFILE then Repeat(FloodComment() + "\r", COMMENT_LINE_COUNT)
    else if profile == SSE_CR_COMMENTS_PROFILE then ": reviewer keepalive" + "\r"
    else ""
  }

  function LineEnd(profile: string): char {
    if profile == SSE_COMMENT_FLOOD_PROFILE || profile == SSE_CR_COMMENTS_PROFILE then '\r' else '\n'
  }

  function EncodeEvents(payloads: seq<string>, end: char): string {
    if payloads == [] then ""
    else "data: " + payloads[0] + [end] + ([end] + EncodeEvents(payloads[1..], end))
  }

  function Encode(payloads: seq<string>, profile: string): string {
    StreamPrefix(profile) + EncodeEvents(payloads, LineEnd(profile))
  }

  // ---- the reader -------------------------------------------------------------

  predicate IsLineEnd(c: char) { c == '\r' || c == '\n' }

  predicate OneLine(s: string) {
    forall i | 0 <= i < |s| :: !IsLineEnd(s[i])
  }

  function LineLength(s: string): (n: nat)
    ensures n <= |s| && OneLine(s[..n])
    ensures n < |s| ==> IsLineEnd(s[n])
  {
    if s == "" || IsLineEnd(s[0]) then 0 else 1 + LineLength(s[1..])
  }

  /** The terminated lines of a stream; CR LF, CR and LF all end a line. */
  function Lines(s: string): seq<string>
    decreases |s|
  {
    var n := LineLength(s);
    if n == |s| then []
    else if s[n] == '\r' && n + 1 < |s| && s[n + 1] == '\n' then [s[..n]] + Lines(s[n + 2..])
    else [s[..n]] + Lines(s[n + 1..])
  }

  datatype Event = Event(eventType: string, data: string, lastEventId: string)

  /** The buffers of the parser and the events dispatched so far. */
  datatype Parser = Parser(data: string, eventType: string, lastEventId: string, events: seq<Event>)

  const EMPTY_PARSER := Parser("", "", "", [])

  function Dispatch(p: Parser): Parser {
    if p.data == "" then p.(eventType := "")
    else
      var data := if p.data[|p.data| - 1] == '\n' then p.data[..|p.data| - 1] else p.data;
      var name := if p.eventType == "" then "message" else p.eventType;
      p.(data := "", eventType := "", events := p.events + [Event(name, data, p.lastEventId)])
  }

  function ProcessField(p: Parser, name: string, value: string): Parser {
    if name == "event" then p.(eventType := value)
    else if name == "data" then p.(data := p.data + value + "\n")
    else if name == "id" && '\U{00}' !in value then p.(lastEventId := value)
    else p
  }

  /** The position of the first colon, or the length when there is none. */
  function ColonIndex(line: string): (i: nat)
    ensures i <= |line|
    ensures i < |line| ==> line[i] == ':'
    ensures forall j | 0 <= j < i :: line[j] != ':'
  {
    if line == "" || line[0] == ':' then 0 else 1 + ColonIndex(line[1..])
  }

  function ProcessLine(p: Parser, line: string): Parser {
    if line == "" then Dispatch(p)
    else
      var i := ColonIndex(line);
      if i == 0 then p
      else if i == |line| then ProcessField(p, line, "")
      else
        var value := line[i + 1..];
        ProcessField(p, line[..i], if value != "" && value[0] == ' ' then value[1..] else value)
  }

  function ProcessLines(p: Parser, lines: seq<string>): Parser
    decreases |lines|
  {
    if lines == [] then p else ProcessLines(ProcessLine(p, lines[0]), lines[1..])
  }

  function StripByteOrderMark(s: string): string {
    if s != "" && s[0] == '\U{FEFF}' then s[1..] else s
  }

  /** The events of a whole stream; an unfinished last event is discarded. */
  function Decode(s: string): seq<Event> {
    ProcessLines(EMPTY_PARSER, Lines(StripByteOrderMark(s))).events
  }

  // ---- JSON text fits on one line ---------------------------------------------

  lemma {:induction false} OneLineConcat(a: string, b: string)
    requires OneLine(a) && OneLine(b)
    ensures OneLine(a + b)
  {}

  lemma {:induction false} QuoteIsOneLine(s: string)
    ensures OneLine(QuoteBody(s)) && OneLine(Quote(s))
  {
    if s != "" {
      QuoteIsOneLine(s[1..]);
      QuoteCharIsOneLine(s[0]);
      hide QuoteChar;
      OneLineConcat(QuoteChar(s[0]), QuoteBody(s[1..]));
    }
    hide QuoteBody;
    OneLineConcat("\"", QuoteBody(s));
    OneLineConcat("\"" + QuoteBody(s), "\"");
  }

  lemma QuoteCharIsOneLine(c: char)
    ensures OneLine(QuoteChar(c))
  {
  }

  lemma {:induction false} NatIsOneLine(n: nat)
    ensures OneLine(PrintNat(n))
  {
    if n >= 10 {
      NatIsOneLine(n / 10);
    }
  }

  lemma {:induction false} DumpsIsOneLine(m: Message)
    ensures OneLine(Dumps(m))
    decreases m, 1
  {
    hide Quote, PrintNat;
    match m
    case Null =>
    case Bool(_) =>
    case Int(n) => NatIsOneLine(if n < 0 then -n else n);
    case Text(s) => QuoteIsOneLine(s);
    case List(items) => DumpsItemsIsOneLine(items);
    case Object(members) => DumpsMembersIsOneLine(members);
  }

  lemma {:induction false} DumpsItemsIsOneLine(items: seq<Message>)
    ensures OneLine(DumpsItems(items))
    decreases items, 0
  {
    hide Dumps;
    if items != [] {
      DumpsIsOneLine(items[0]);
      DumpsItemsIsOneLine(items[1..]);
    }
  }

  lemma {:induction false} DumpsMembersIsOneLine(members: seq<Member>)
    ensures OneLine(DumpsMembers(members))
    decreases members, 0
  {
    hide Dumps, Quote;
    if members != [] {
      QuoteIsOneLine(members[0].name);
      DumpsIsOneLine(members[0].value);
      DumpsMembersIsOneLine(members[1..]);
    }
  }

  predicate OneLineEach(payloads: seq<string>) {
    forall i | 0 <= i < |payloads| :: OneLine(payloads[i])
  }

  lemma {:induction false} DumpsAllIsOneLineEach(messages: seq<Message>)
    ensures OneLineEach(DumpsAll(messages))
  {
    hide Dumps;
    if messages != [] {
      DumpsIsOneLine(messages[0]);
      DumpsAllIsOneLineEach(messages[1..]);
    }
  }

  // ---- splitting an encoded stream into lines ---------------------------------

  lemma {:induction false} LineLengthIs(line: string, rest: string)
    requires OneLine(line) && rest != "" && IsLineEnd(rest[0])
    ensures LineLength(line + rest) == |line|
  {
    if line == "" {
      assert line + rest == rest;
    } else {
      assert (line + rest)[1..] == line[1..] + rest;
      LineLengthIs(line[1..], rest);
    }
  }

  lemma FirstLine(line: string, end: char, rest: string)
    requires OneLine(line) && IsLineEnd(end)
    requires end == '\r' ==> rest == "" || rest[0] != '\n'
    ensures Lines(line + [end] + rest) == [line] + Lines(rest)
  {
    var s := line + [end] + rest;
    assert s == line + ([end] + rest);
    LineLengthIs(line, [end] + rest);
    assert s[..|line|] == line && s[|line| + 1..] == rest;
  }

  lemma TwoLines(p: Parser, a: string, b: string, rest: seq<string>)
    ensures ProcessLines(p, [a] + ([b] + rest)) == ProcessLines(ProcessLine(ProcessLine(p, a), b), rest)
  {
    hide ProcessLine;
    assert ([a] + ([b] + rest))[1..] == [b] + rest;
    assert ([b] + rest)[1..] == rest;
  }

  lemma EncodedEventLines(first: string, end: char, tail: string)
    requires OneLine(first) && IsLineEnd(end)
    requires tail == "" || tail[0] == 'd'
    ensures Lines("data: " + first + [end] + ([end] + tail)) == ["data: " + first] + ([""] + Lines(tail))
  {
    hide Lines;
    FirstLine("data: " + first, end, [end] + tail);
    FirstLine("", end, tail);
    assert "" + [end] + tail == [end] + tail;
  }

  lemma DataField(p: Parser, payload: string)
    ensures ProcessLine(p, "data: " + payload) == p.(data := p.data + payload + "\n")
  {
    hide ColonIndex;
    var line := "data: " + payload;
    assert line[0] == 'd' && line[1] == 'a' && line[2] == 't' && line[3] == 'a' && line[4] == ':';
    assert ColonIndex(line) == 4;
    assert line[..4] == "data";
    assert line[5..] == " " + payload;
    assert line[5..][1..] == payload;
  }

  /** A data line followed by an empty line dispatches exactly its payload. */
  lemma DataLine(p: Parser, payload: string)
    requires p.data == "" && p.eventType == ""
    ensures ProcessLine(ProcessLine(p, "data: " + payload), "")
         == p.(events := p.events + [Event("message", payload, p.lastEventId)])
  {
    hide ProcessField, ColonIndex;
    DataField(p, payload);
    var q := p.(data := p.data + payload + "\n");
    assert q.data[..|q.data| - 1] == payload;
    assert q.data[|q.data| - 1] == '\n';
  }

  /** One message event per payload, in order. */
  function MessageEvents(payloads: seq<string>, lastEventId: string): seq<Event> {
    if payloads == [] then []
    else [Event("message", payloads[0], lastEventId)] + MessageEvents(payloads[1..], lastEventId)
  }

  /** Each payload takes one data line and the empty line that dispatches it. */
  lemma {:induction false} EventsDecode(p: Parser, payloads: seq<string>, end: char)
    requires OneLineEach(payloads) && IsLineEnd(end)
    requires p.data == "" && p.eventType == ""
    ensures ProcessLines(p, Lines(EncodeEvents(payloads, end)))
         == p.(events := p.events + MessageEvents(payloads, p.lastEventId))
    decreases |payloads|
  {
    hide Lines, ProcessLine;
    if payloads == [] {
      assert Lines("") == [] by { NoLines(); }
      assert p.events + [] == p.events;
    } else {
      var first, tail := payloads[0], EncodeEvents(payloads[1..], end);
      EncodedEventLines(first, end, tail);
      TwoLines(p, "data: " + first, "", Lines(tail));
      DataLine(p, first);
      var event := Event("message", first, p.lastEventId);
      EventsDecode(p.(events := p.events + [event]), payloads[1..], end);
      assert p.events + [event] + MessageEvents(payloads[1..], p.lastEventId)
          == p.events + MessageEvents(payloads, p.lastEventId);
    }
  }

  lemma NoLines()
    ensures Lines("") == []
  {}

  // ---- comments ---------------------------------------------------------------

  /** A comment line ended by CR leaves the parser as it was. */
  lemma CommentIgnored(p: Parser, comment: string, rest: string)
    requires OneLine(comment) && comment != "" && comment[0] == ':'
    requires rest == "" || rest[0] != '\n'
    ensures ProcessLines(p, Lines(comment + "\r" + rest)) == ProcessLines(p, Lines(rest))
  {
    hide Lines;
    FirstLine(comment, '\r', rest);
    assert ProcessLine(p, comment) == p;
    assert ([comment] + Lines(rest))[1..] == Lines(rest);
  }

  lemma {:induction false} CommentsIgnored(p: Parser, comment: string, n: nat, rest: string)
    requires OneLine(comment) && comment != "" && comment[0] == ':'
    requires rest == "" || rest[0] != '\n'
    ensures ProcessLines(p, Lines(Repeat(comment + "\r", n) + rest)) == ProcessLines(p, Lines(rest))
    decreases n
  {
    hide Lines, ProcessLines;
    if n == 0 {
      assert Repeat(comment + "\r", n) + rest == rest;
    } else {
      var more := Repeat(comment + "\r", n - 1) + rest;
      assert Repeat(comment + "\r", n) + rest == comment + "\r" + more;
      assert n > 1 ==> Repeat(comment + "\r", n - 1) == comment + "\r" + Repeat(comment + "\r", n - 2);
      CommentIgnored(p, comment, more);
      CommentsIgnored(p, comment, n - 1, rest);
    }
  }

  lemma {:induction false} RepeatIsOneLine(s: string, n: nat)
    requires OneLine(s)
    ensures OneLine(Repeat(s, n))
    decreases n
  {
    if n > 0 {
      RepeatIsOneLine(s, n - 1);
    }
  }

  lemma PrefixIgnored(p: Parser, profile: string, rest: string)
    requires rest == "" || rest[0] != '\n'
    ensures ProcessLines(p, Lines(StreamPrefix(profile) + rest)) == ProcessLines(p, Lines(rest))
  {
    hide Lines, ProcessLines, Repeat;
    if profile == SSE_COMMENT_FLOOD_PROFILE {
      RepeatIsOneLine("x", COMMENT_LINE_BYTES - |COMMENT_PREFIX| - 1);
      OneLineConcat(COMMENT_PREFIX, Repeat("x", COMMENT_LINE_BYTES - |COMMENT_PREFIX| - 1));
      CommentsIgnored(p, FloodComment(), COMMENT_LINE_COUNT, rest);
    } else if profile == SSE_CR_COMMENTS_PROFILE {
      CommentIgnored(p, ": reviewer keepalive", rest);
    } else {
      assert "" + rest == rest;
    }
  }

  // ---- the theorems -----------------------------------------------------------

  lemma NoByteOrderMark(payloads: seq<string>, profile: string)
    ensures StripByteOrderMark(Encode(payloads, profile)) == Encode(payloads, profile)
  {
    hide Repeat, EncodeEvents;
    var s, events := Encode(payloads, profile), EncodeEvents(payloads, LineEnd(profile));
    assert events == "" || events[0] == 'd' by { EventsStart(payloads, LineEnd(profile)); }
    assert StreamPrefix(profile) == "" || StreamPrefix(profile)[0] == ':' by { PrefixStart(profile); }
  }

  lemma EventsStart(payloads: seq<string>, end: char)
    ensures var s := EncodeEvents(payloads, end); s == "" || s[0] == 'd'
  {}

  lemma PrefixStart(profile: string)
    ensures var s := StreamPrefix(profile); s == "" || s[0] == ':'
  {
    var n := COMMENT_LINE_COUNT;
    assert Repeat(FloodComment() + "\r", n) == FloodComment() + "\r" + Repeat(FloodComment() + "\r", n - 1);
  }

  /** Every framing carries one-line payloads unchanged, in order, as message events. */
  lemma StreamDecodes(payloads: seq<string>, profile: string)
    requires OneLineEach(payloads)
    ensures Decode(Encode(payloads, profile)) == MessageEvents(payloads, "")
  {
    hide Lines, ProcessLines, StreamPrefix, StripByteOrderMark;
    var end := LineEnd(profile);
    NoByteOrderMark(payloads, profile);
    EventsStart(payloads, end);
    PrefixIgnored(EMPTY_PARSER, profile, EncodeEvents(payloads, end));
    EventsDecode(EMPTY_PARSER, payloads, end);
    assert [] + MessageEvents(payloads, "") == MessageEvents(payloads, "");
  }

  /** For JSON messages no condition is left: their text always fits on one line. */
  lemma MessagesDecode(messages: seq<Message>, profile: string)
    ensures Decode(Encode(DumpsAll(messages), profile)) == MessageEvents(DumpsAll(messages), "")
  {
    DumpsAllIsOneLineEach(messages);
    StreamDecodes(DumpsAll(messages), profile);
  }

  /** The two comment profiles end every line with CR alone, and every other one with LF alone. */
  lemma {:induction false} LineEndsUsed(payloads: seq<string>, profile: string)
    requires OneLineEach(payloads)
    ensures profile == "sse-cr-comments" || profile == "sse-comment-flood" ==> '\n' !in Encode(payloads, profile)
    ensures profile != "sse-cr-comments" && profile != "sse-comment-flood" ==> '\r' !in Encode(payloads, profile)
  {
    hide Repeat, EncodeEvents;
    EventsHoldOnly(payloads, LineEnd(profile));
    if profile == SSE_COMMENT_FLOOD_PROFILE {
      RepeatIsOneLine("x", COMMENT_LINE_BYTES - |COMMENT_PREFIX| - 1);
      OneLineConcat(COMMENT_PREFIX, Repeat("x", COMMENT_LINE_BYTES - |COMMENT_PREFIX| - 1));
      RepeatHoldsOnly(FloodComment() + "\r", COMMENT_LINE_COUNT);
    }
  }

  /** Every character is this line end or no line end. */
  predicate HoldsOnly(s: string, end: char) {
    forall i | 0 <= i < |s| :: IsLineEnd(s[i]) ==> s[i] == end
  }

  lemma {:induction false} RepeatHoldsOnly(s: string, n: nat)
    requires HoldsOnly(s, '\r')
    ensures HoldsOnly(Repeat(s, n), '\r')
    decreases n
  {
    if n > 0 {
      RepeatHoldsOnly(s, n - 1);
    }
  }

  lemma {:induction false} EventsHoldOnly(payloads: seq<string>, end: char)
    requires OneLineEach(payloads)
    ensures HoldsOnly(EncodeEvents(payloads, end), end)
  {
    if payloads != [] {
      assert OneLine(payloads[0]) && OneLine("data: ");
      EventsHoldOnly(payloads[1..], end);
    }
  }

  /** The comment flood alone is longer than the event limit it is meant to probe. */
  lemma FloodExceedsLimit()
    ensures |StreamPrefix(SSE_COMMENT_FLOOD_PROFILE)| > EVENT_LIMIT_BYTES
  {
    hide Repeat;
    assert |FloodComment() + "\r"| == COMMENT_LINE_BYTES;
  }
}
