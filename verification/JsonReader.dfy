/** A reader for the JSON that `json.dumps` writes, so that an event's text can be taken back to its message. */
module JsonReader {
  import opened Wrappers
  import opened Text
  import opened JsonText
  import Toml = TomlLiterals
  import opened SseStream

  /** One character of a string; unlike TOML, JSON may hold U+007F as it is. */
  function ReadChar(s: string): (r: Read<char>)
    requires s != ""
    ensures r.Some? ==> |r.value.1| < |s|
  {
    if s[0] == Toml.DELETE then Some((s[0], s[1..])) else Toml.ReadChar(s)
  }

  /** The rest of a string, after its opening quote. */
  function ReadText(s: string): (r: Read<string>)
    ensures r.Some? ==> |r.value.1| < |s|
    decreases |s|
  {
    if s == "" then None
    else if s[0] == '"' then Some(("", s[1..]))
    else
      var (c, rest) :- ReadChar(s);
      var (text, rest') :- ReadText(rest);
      Some(([c] + text, rest'))
  }

  function ReadInt(s: string): (r: Read<int>)
    ensures r.Some? ==> |r.value.1| < |s|
  {
    var negative := s != "" && s[0] == '-';
    var body := if negative then s[1..] else s;
    var k := DigitsPrefix(body);
    if k == 0 then None
    else
      var n: int := Toml.ReadNat(body[..k]);
      Some((if negative then -n else n, body[k..]))
  }

  function ReadMessage(s: string): (r: Read<Message>)
    ensures r.Some? ==> |r.value.1| < |s|
    decreases |s|, 0
  {
    if s == "" then None
    else if s[0] == '"' then
      var (text, rest) :- ReadText(s[1..]);
      Some((Message.Text(text), rest))
    else if StartsWith(s, "[]") then Some((List([]), s[2..]))
    else if s[0] == '[' then
      var (items, rest) :- ReadItems(s[1..]);
      Some((List(items), rest))
    else if StartsWith(s, "{}") then Some((Object([]), s[2..]))
    else if s[0] == '{' then
      var (members, rest) :- ReadMembers(s[1..]);
      Some((Object(members), rest))
    else if StartsWith(s, "null") then Some((Null, s[4..]))
    else if StartsWith(s, "true") then Some((Bool(true), s[4..]))
    else if StartsWith(s, "false") then Some((Bool(false), s[5..]))
    else
      var (n, rest) :- ReadInt(s);
      Some((Int(n), rest))
  }

  /** The rest of a list that is not empty, after `[` or `,`. */
  function ReadItems(s: string): (r: Read<seq<Message>>)
    ensures r.Some? ==> |r.value.1| < |s|
    decreases |s|, 1
  {
    var (item, rest) :- ReadMessage(s);
    if rest == "" then None
    else if rest[0] == ']' then Some(([item], rest[1..]))
    else if rest[0] == ',' then
      var (items, rest') :- ReadItems(rest[1..]);
      Some(([item] + items, rest'))
    else None
  }

  /** The rest of an object that is not empty, after `{` or `,`. */
  function ReadMembers(s: string): (r: Read<seq<Member>>)
    ensures r.Some? ==> |r.value.1| < |s|
    decreases |s|, 1
  {
    if s == "" || s[0] != '"' then None
    else
      var (name, after) :- ReadText(s[1..]);
      if after == "" || after[0] != ':' then None
      else
        var (value, rest) :- ReadMessage(after[1..]);
        if rest == "" then None
        else if rest[0] == '}' then Some(([Member(name, value)], rest[1..]))
        else if rest[0] == ',' then
          var (members, rest') :- ReadMembers(rest[1..]);
          Some(([Member(name, value)] + members, rest'))
        else None
  }

  /** A whole text as one message. */
  function Loads(s: string): Option<Message> {
    var (m, rest) :- ReadMessage(s);
    if rest == "" then Some(m) else None
  }

  // ---- reading what was written -----------------------------------------------

  lemma {:induction false} QuotedTextReads(text: string, rest: string)
    ensures ReadText(QuoteBody(text) + "\"" + rest) == Some((text, rest))
  {
    if text == "" {
      assert QuoteBody(text) + "\"" + rest == "\"" + rest;
    } else {
      var tail := QuoteBody(text[1..]) + "\"" + rest;
      var s := QuoteChar(text[0]) + tail;
      assert QuoteBody(text) + "\"" + rest == s;
      hide ReadChar, Toml.ReadChar, QuoteChar;
      Toml.QuotedCharReads(text[0], tail);
      EscapesStart(text[0], tail);
      QuotedTextReads(text[1..], rest);
      assert text == [text[0]] + text[1..];
    }
  }

  lemma EscapesStart(c: char, tail: string)
    ensures var s := QuoteChar(c) + tail; ReadChar(s) == Some((c, tail))
  {
    var s := QuoteChar(c) + tail;
    Toml.QuotedCharReads(c, tail);
    hide Toml.ReadChar;
    if c == Toml.DELETE {
      assert QuoteChar(c) == [c];
      assert s[1..] == tail;
    } else {
      assert s[0] == QuoteChar(c)[0];
    }
  }

  lemma QuoteReads(text: string, rest: string)
    ensures var s := Quote(text) + rest; s != "" && s[0] == '"' && ReadText(s[1..]) == Some((text, rest))
  {
    hide ReadText, QuoteBody;
    QuotedTextReads(text, rest);
    assert (Quote(text) + rest)[1..] == QuoteBody(text) + "\"" + rest;
  }

  /** What may follow a message without being read as part of it. */
  predicate Ends(rest: string) {
    rest == "" || !IsDigit(rest[0])
  }

  lemma PrintedIntReads(n: int, rest: string)
    requires Ends(rest)
    ensures var s := PrintInt(n) + rest;
            s != "" && (s[0] == '-' || IsDigit(s[0])) && ReadInt(s) == Some((n, rest))
  {
    hide PrintNat, DigitsPrefix, Toml.ReadNat;
    var m := if n < 0 then -n else n;
    var digits := PrintNat(m);
    Toml.PrintedNatDigits(m);
    Toml.PrintedNatReads(m);
    DigitsPrefixStops(digits, rest);
    var s, body := PrintInt(n) + rest, digits + rest;
    assert body[..|digits|] == digits && body[|digits|..] == rest;
    if n < 0 {
      assert s == "-" + body && s[1..] == body;
    } else {
      assert s == body;
    }
  }

  lemma DumpsStart(m: Message)
    ensures Dumps(m) != "" && Dumps(m)[0] != ']'
  {
    if m.Int? {
      PrintedIntReads(m.n, "");
      assert PrintInt(m.n) + "" == PrintInt(m.n);
    }
  }

  /** Reading the text of a message gives the message back and leaves what follows. */
  lemma {:induction false} DumpsReads(m: Message, rest: string)
    requires m.Int? ==> Ends(rest)
    ensures ReadMessage(Dumps(m) + rest) == Some((m, rest))
    decreases m, 1
  {
    hide ReadItems, ReadMembers, ReadText, ReadInt, Quote, PrintInt, DumpsItems, DumpsMembers;
    var s := Dumps(m) + rest;
    match m {
      case Null => assert s[..4] == "null" && s[4..] == rest;
      case Bool(b) => BoolReads(b, rest);
      case Int(n) => PrintedIntReads(n, rest);
      case Text(text) => TextReads(text, rest);
      case List(items) => ListReads(items, rest);
      case Object(members) => ObjectReads(members, rest);
    }
  }

  lemma TextReads(text: string, rest: string)
    ensures ReadMessage(Quote(text) + rest) == Some((Message.Text(text), rest))
  {
    hide ReadText, Quote;
    QuoteReads(text, rest);
  }

  lemma BoolReads(b: bool, rest: string)
    ensures ReadMessage((if b then "true" else "false") + rest) == Some((Bool(b), rest))
  {
    var s := (if b then "true" else "false") + rest;
    if b {
      assert s[..4] == "true" && s[4..] == rest;
    } else {
      assert s[..5] == "false" && s[5..] == rest;
      assert s[0] == 'f';
    }
  }

  lemma BracketsRead(body: string, items: seq<Message>, rest: string)
    requires body != "" && body[0] != ']' && ReadItems(body + "]" + rest) == Some((items, rest))
    ensures ReadMessage("[" + body + "]" + rest) == Some((List(items), rest))
  {
    hide ReadItems, ReadMembers, ReadText, ReadInt;
    var s := "[" + body + "]" + rest;
    assert s[1..] == body + "]" + rest && s[1] == body[0];
    assert !StartsWith(s, "[]") by { assert s[..2][1] == s[1]; }
    hide StartsWith;
  }

  lemma BracesRead(body: string, members: seq<Member>, rest: string)
    requires body != "" && body[0] != '}' && ReadMembers(body + "}" + rest) == Some((members, rest))
    ensures ReadMessage("{" + body + "}" + rest) == Some((Object(members), rest))
  {
    hide ReadItems, ReadMembers, ReadText, ReadInt;
    var s := "{" + body + "}" + rest;
    assert s[0] == '{' && s[1..] == body + "}" + rest && s[1] == body[0];
    assert !StartsWith(s, "{}") by { assert s[..2][1] == s[1]; }
    assert !StartsWith(s, "[]") by { assert s[..2][0] == s[0]; }
    hide StartsWith;
  }

  lemma {:induction false} ListReads(items: seq<Message>, rest: string)
    ensures ReadMessage("[" + DumpsItems(items) + "]" + rest) == Some((List(items), rest))
    decreases items, 1
  {
    hide ReadItems, ReadMembers, ReadText, ReadInt, Dumps;
    if items == [] {
      var s := "[" + DumpsItems(items) + "]" + rest;
      assert DumpsItems(items) == "";
      assert s[..2] == "[]" && s[2..] == rest;
    } else {
      ItemsRead(items, rest);
      DumpsStart(items[0]);
      assert DumpsItems(items)[0] == Dumps(items[0])[0];
      hide ReadMessage;
      BracketsRead(DumpsItems(items), items, rest);
    }
  }

  lemma {:induction false} ItemsRead(items: seq<Message>, rest: string)
    requires items != []
    ensures ReadItems(DumpsItems(items) + "]" + rest) == Some((items, rest))
    decreases items, 0
  {
    hide ReadMessage, Dumps;
    var first := Dumps(items[0]);
    var s := DumpsItems(items) + "]" + rest;
    if |items| == 1 {
      assert s == first + ("]" + rest);
      assert ("]" + rest)[0] == ']' && ("]" + rest)[1..] == rest;
      DumpsReads(items[0], "]" + rest);
      assert items == [items[0]];
    } else {
      var tail := DumpsItems(items[1..]) + "]" + rest;
      assert s == first + ("," + tail);
      assert ("," + tail)[0] == ',' && ("," + tail)[1..] == tail;
      DumpsReads(items[0], "," + tail);
      ItemsRead(items[1..], rest);
      assert items == [items[0]] + items[1..];
    }
  }

  lemma {:induction false} ObjectReads(members: seq<Member>, rest: string)
    ensures ReadMessage("{" + DumpsMembers(members) + "}" + rest) == Some((Object(members), rest))
    decreases members, 1
  {
    hide ReadItems, ReadMembers, ReadText, ReadInt, Dumps;
    if members == [] {
      var s := "{" + DumpsMembers(members) + "}" + rest;
      assert DumpsMembers(members) == "";
      assert s[..2] == "{}" && s[2..] == rest && s[0] == '{';
      assert !StartsWith(s, "[]") by { assert s[..2][0] == s[0]; }
    } else {
      hide ReadMessage;
      MembersRead(members, rest);
      MembersStart(members);
      BracesRead(DumpsMembers(members), members, rest);
    }
  }

  lemma MembersStart(members: seq<Member>)
    requires members != []
    ensures DumpsMembers(members) != "" && DumpsMembers(members)[0] == '"'
  {
    hide Dumps, QuoteBody;
    assert Quote(members[0].name)[0] == '"';
  }

  lemma {:induction false} MembersRead(members: seq<Member>, rest: string)
    requires members != []
    ensures ReadMembers(DumpsMembers(members) + "}" + rest) == Some((members, rest))
    decreases members, 0
  {
    hide ReadMessage, ReadText, Quote, Dumps;
    var name, value := members[0].name, members[0].value;
    var s := DumpsMembers(members) + "}" + rest;
    var last := |members| == 1;
    var after := if last then "}" + rest else "," + (DumpsMembers(members[1..]) + "}" + rest);
    assert s == Quote(name) + (":" + (Dumps(value) + after));
    QuoteReads(name, ":" + (Dumps(value) + after));
    assert (":" + (Dumps(value) + after))[1..] == Dumps(value) + after;
    DumpsReads(value, after);
    if last {
      assert after[1..] == rest && members == [members[0]];
    } else {
      assert after[1..] == DumpsMembers(members[1..]) + "}" + rest;
      MembersRead(members[1..], rest);
      assert members == [members[0]] + members[1..];
    }
  }

  /** A message's text determines the message. */
  lemma LoadsDumps(m: Message)
    ensures Loads(Dumps(m)) == Some(m)
  {
    hide ReadMessage, Dumps;
    DumpsReads(m, "");
    assert Dumps(m) + "" == Dumps(m);
  }

  // ---- messages through an event stream ---------------------------------------

  /** The messages that the events of a stream carry. */
  function LoadsAll(events: seq<Event>): seq<Option<Message>> {
    if events == [] then [] else [Loads(events[0].data)] + LoadsAll(events[1..])
  }

  function AllSome(messages: seq<Message>): seq<Option<Message>> {
    if messages == [] then [] else [Some(messages[0])] + AllSome(messages[1..])
  }

  lemma {:induction false} EventsLoad(messages: seq<Message>, lastEventId: string)
    ensures LoadsAll(MessageEvents(DumpsAll(messages), lastEventId)) == AllSome(messages)
  {
    hide Loads, Dumps;
    if messages != [] {
      var event := Event("message", Dumps(messages[0]), lastEventId);
      var rest := MessageEvents(DumpsAll(messages[1..]), lastEventId);
      assert DumpsAll(messages)[1..] == DumpsAll(messages[1..]);
      assert MessageEvents(DumpsAll(messages), lastEventId) == [event] + rest;
      assert ([event] + rest)[1..] == rest;
      LoadsDumps(messages[0]);
      EventsLoad(messages[1..], lastEventId);
    }
  }

  /** Under every framing, reading the stream and then its texts gives back exactly the messages sent. */
  lemma MessagesRecovered(messages: seq<Message>, profile: string)
    ensures LoadsAll(Decode(Encode(DumpsAll(messages), profile))) == AllSome(messages)
  {
    hide Decode, Encode, DumpsAll, LoadsAll, AllSome;
    MessagesDecode(messages, profile);
    EventsLoad(messages, "");
  }
}
