/**
 * The TOML literal printer of the TypeScript SDK (`toTomlValue`, `formatTomlKey`)
 * and a reader for the part of TOML v1.0.0 that it writes: basic strings, decimal
 * integers, booleans, arrays and inline tables.
 */
module TomlLiterals {
  import opened Wrappers
  import opened JsonText
  import opened Text

  // ---- values -----------------------------------------------------------------

  /** JavaScript prints every integer below this bound in plain decimal. */
  const PLAIN_DECIMAL_BOUND: int := 1_000_000_000_000_000_000_000

  type PlainInteger = n: int | -PLAIN_DECIMAL_BOUND < n < PLAIN_DECIMAL_BOUND

  /** A configuration value handed to the SDK. Object entries are in enumeration order. */
  datatype Value =
    | Str(text: string)
    | Num(n: PlainInteger)
    | NonFinite
    | Bool(b: bool)
    | Null
    | Arr(items: seq<Value>)
    | Obj(entries: seq<Entry>)

  datatype Entry = Entry(key: string, value: Value)

  /** A TOML value as the command line program holds it. */
  datatype Toml =
    | String(text: string)
    | Integer(n: int)
    | Boolean(b: bool)
    | Array(items: seq<Toml>)
    | Table(entries: map<string, Toml>)

  datatype PrintError = NotFinite | NullValue | EmptyKey | NotPlainObject

  function Keys(entries: seq<Entry>): set<string> {
    set e | e in entries :: e.key
  }

  /** Objects never hold a key twice. */
  predicate DistinctKeys(v: Value)
    decreases v, 1
  {
    match v
    case Arr(items) => DistinctKeysItems(items)
    case Obj(entries) => DistinctKeysEntries(entries)
    case _ => true
  }

  predicate DistinctKeysItems(items: seq<Value>)
    decreases items, 0
  {
    items == [] || (DistinctKeys(items[0]) && DistinctKeysItems(items[1..]))
  }

  predicate DistinctKeysEntries(entries: seq<Entry>)
    decreases entries, 0
  {
    entries == [] ||
    (&& entries[0].key !in Keys(entries[1..])
     && DistinctKeys(entries[0].value)
     && DistinctKeysEntries(entries[1..]))
  }

  /** The TOML value an SDK value stands for. Only used on values that print. */
  function Meaning(v: Value): Toml
    decreases v, 1
  {
    match v
    case Str(text) => String(text)
    case Num(n) => Integer(n)
    case Bool(b) => Boolean(b)
    case Arr(items) => Array(MeaningItems(items))
    case Obj(entries) => Table(MeaningEntries(entries))
    case NonFinite => Boolean(false)
    case Null => Boolean(false)
  }

  function MeaningItems(items: seq<Value>): (r: seq<Toml>)
    decreases items, 0
  {
    if items == [] then [] else [Meaning(items[0])] + MeaningItems(items[1..])
  }

  function MeaningEntries(entries: seq<Entry>): (r: map<string, Toml>)
    ensures r.Keys == Keys(entries)
    decreases entries, 0
  {
    if entries == [] then map[]
    else
      var rest := MeaningEntries(entries[1..]);
      assert Keys(entries) == {entries[0].key} + Keys(entries[1..]) by {
        assert entries == [entries[0]] + entries[1..];
      }
      rest[entries[0].key := Meaning(entries[0].value)]
  }

  // ---- the printer ------------------------------------------------------------

  predicate IsBareKeyChar(c: char) {
    'A' <= c <= 'Z' || 'a' <= c <= 'z' || '0' <= c <= '9' || c == '_' || c == '-'
  }

  predicate IsBareKey(key: string) {
    key != "" && forall i | 0 <= i < |key| :: IsBareKeyChar(key[i])
  }

  function PrintKey(key: string): string {
    if IsBareKey(key) then key else Quote(key)
  }

  function Print(v: Value): Result<string, PrintError>
    decreases v, 1
  {
    match v
    case Str(text) => Ok(Quote(text))
    case Num(n) => Ok(PrintInt(n))
    case NonFinite => Err(NotFinite)
    case Bool(b) => Ok(if b then "true" else "false")
    case Null => Err(NullValue)
    case Arr(items) => var body :- PrintItems(items); Ok("[" + body + "]")
    case Obj(entries) => var body :- PrintEntries(entries); Ok("{" + body + "}")
  }

  function PrintItems(items: seq<Value>): Result<string, PrintError>
    decreases items, 0
  {
    if items == [] then Ok("")
    else
      var first :- Print(items[0]);
      var rest :- PrintItems(items[1..]);
      Ok(first + (if |items| == 1 then "" else ", " + rest))
  }

  function PrintEntries(entries: seq<Entry>): Result<string, PrintError>
    decreases entries, 0
  {
    if entries == [] then Ok("")
    else if entries[0].key == "" then Err(EmptyKey)
    else
      var first :- Print(entries[0].value);
      var rest :- PrintEntries(entries[1..]);
      Ok(PrintKey(entries[0].key) + " = " + first + (if |entries| == 1 then "" else ", " + rest))
  }

  // ---- the reader -------------------------------------------------------------

  const DELETE: char := '\U{7F}'
  const I64_MIN: int := -0x8000_0000_0000_0000
  const I64_MAX: int := 0x7FFF_FFFF_FFFF_FFFF

  function SkipBlanks(s: string): (r: string)
    ensures |r| <= |s|
  {
    if s != "" && (s[0] == ' ' || s[0] == '\t') then SkipBlanks(s[1..]) else s
  }

  function HexValue(c: char): Option<int> {
    if '0' <= c <= '9' then Some(c as int - '0' as int)
    else if 'a' <= c <= 'f' then Some(c as int - 'a' as int + 10)
    else if 'A' <= c <= 'F' then Some(c as int - 'A' as int + 10)
    else None
  }

  function HexNumber(s: string): Option<int> {
    if s == "" then Some(0)
    else
      var high :- HexNumber(s[..|s| - 1]);
      var low :- HexValue(s[|s| - 1]);
      Some(16 * high + low)
  }

  /** The character of a `\u` or `\U` escape, which must be a Unicode scalar value. */
  function ScalarOf(digits: string): Option<char> {
    var n :- HexNumber(digits);
    if 0 <= n < 0xD800 || 0xE000 <= n < 0x11_0000 then Some(n as char) else None
  }

  /** One possibly escaped character of a basic string. */
  function ReadChar(s: string): (r: Read<char>)
    requires s != ""
    ensures r.Some? ==> |r.value.1| < |s|
  {
    if s[0] == '\\' then
      if |s| < 2 then None
      else if s[1] == 'b' then Some(('\U{08}', s[2..]))
      else if s[1] == 't' then Some(('\t', s[2..]))
      else if s[1] == 'n' then Some(('\n', s[2..]))
      else if s[1] == 'f' then Some(('\U{0C}', s[2..]))
      else if s[1] == 'r' then Some(('\r', s[2..]))
      else if s[1] == '"' || s[1] == '\\' then Some((s[1], s[2..]))
      else if s[1] == 'u' && |s| >= 6 then var c :- ScalarOf(s[2..6]); Some((c, s[6..]))
      else if s[1] == 'U' && |s| >= 10 then var c :- ScalarOf(s[2..10]); Some((c, s[10..]))
      else None
    else if (s[0] < ' ' && s[0] != '\t') || s[0] == DELETE then None
    else Some((s[0], s[1..]))
  }

  /** The rest of a basic string, after its opening quote. */
  function ReadStringBody(s: string): (r: Read<string>)
    ensures r.Some? ==> |r.value.1| < |s|
    decreases |s|
  {
    if s == "" then None
    else if s[0] == '"' then Some(("", s[1..]))
    else
      var (c, rest) :- ReadChar(s);
      var (text, rest') :- ReadStringBody(rest);
      Some(([c] + text, rest'))
  }

  function ReadNat(digits: string): (n: nat)
  {
    if digits == "" then 0
    else
      var last := digits[|digits| - 1];
      10 * ReadNat(digits[..|digits| - 1]) + (if IsDigit(last) then last as int - '0' as int else 0)
  }

  /** What may follow a number or a boolean. */
  predicate Delimited(rest: string) {
    rest == "" || rest[0] in {' ', '\t', ',', ']', '}', '\n', '\r', '#'}
  }

  /** An integer token once its digits are known: no leading zero, 64 bits, a delimiter. */
  function FinishInteger(negative: bool, digits: string, rest: string): (r: Read<Toml>)
    ensures r.Some? ==> digits != "" && r.value.1 == rest
  {
    var n := if negative then 0 - ReadNat(digits) else ReadNat(digits);
    if digits == "" || (|digits| > 1 && digits[0] == '0') then None
    else if !(I64_MIN <= n <= I64_MAX) || !Delimited(rest) then None
    else Some((Integer(n), rest))
  }

  function ReadInteger(s: string): (r: Read<Toml>)
    ensures r.Some? ==> |r.value.1| < |s|
  {
    var signed := s != "" && (s[0] == '-' || s[0] == '+');
    var body := if signed then s[1..] else s;
    var k := DigitsPrefix(body);
    FinishInteger(signed && s[0] == '-', body[..k], body[k..])
  }

  function BareKeyPrefix(s: string): (n: nat)
    ensures n <= |s|
  {
    if s != "" && IsBareKeyChar(s[0]) then 1 + BareKeyPrefix(s[1..]) else 0
  }

  function ReadKey(s: string): (r: Read<string>)
    ensures r.Some? ==> |r.value.1| < |s|
  {
    if s != "" && s[0] == '"' then ReadStringBody(s[1..])
    else
      var k := BareKeyPrefix(s);
      if k == 0 then None else Some((s[..k], s[k..]))
  }

  function ReadValue(s: string): (r: Read<Toml>)
    ensures r.Some? ==> |r.value.1| < |s|
    decreases |s|, 1
  {
    if s == "" then None
    else if s[0] == '"' then
      var (text, rest) :- ReadStringBody(s[1..]);
      Some((String(text), rest))
    else if s[0] == '[' then
      var (items, rest) :- ReadItems(s[1..]);
      Some((Array(items), rest))
    else if s[0] == '{' then
      var s' := SkipBlanks(s[1..]);
      if s' != "" && s'[0] == '}' then Some((Table(map[]), s'[1..]))
      else
        var (entries, rest) :- ReadEntries(s[1..]);
        Some((Table(entries), rest))
    else if |s| >= 4 && s[..4] == "true" && Delimited(s[4..]) then Some((Boolean(true), s[4..]))
    else if |s| >= 5 && s[..5] == "false" && Delimited(s[5..]) then Some((Boolean(false), s[5..]))
    else ReadInteger(s)
  }

  /** The rest of an array, after `[` or `,`; a trailing comma is allowed. */
  function ReadItems(s: string): (r: Read<seq<Toml>>)
    ensures r.Some? ==> |r.value.1| < |s|
    decreases |s|, 2
  {
    var s := SkipBlanks(s);
    if s == "" then None
    else if s[0] == ']' then Some(([], s[1..]))
    else
      var (item, rest) :- ReadValue(s);
      var rest := SkipBlanks(rest);
      if rest == "" then None
      else if rest[0] == ']' then Some(([item], rest[1..]))
      else if rest[0] == ',' then
        var (items, rest') :- ReadItems(rest[1..]);
        Some(([item] + items, rest'))
      else None
  }

  /** The rest of an inline table, after `{` or `,`; no key may repeat. */
  function ReadEntries(s: string): (r: Read<map<string, Toml>>)
    ensures r.Some? ==> |r.value.1| < |s|
    decreases |s|, 2
  {
    var (key, s) :- ReadKey(SkipBlanks(s));
    var s := SkipBlanks(s);
    if s == "" || s[0] != '=' then None
    else
      var (value, rest) :- ReadValue(SkipBlanks(s[1..]));
      var rest := SkipBlanks(rest);
      if rest == "" then None
      else if rest[0] == '}' then Some((map[key := value], rest[1..]))
      else if rest[0] == ',' then
        var (entries, rest') :- ReadEntries(rest[1..]);
        if key in entries then None else Some((entries[key := value], rest'))
      else None
  }

  // ---- which values survive ---------------------------------------------------

  predicate ReadableText(s: string) {
    DELETE !in s
  }

  /** No string or quoted key holds U+007F, and every integer fits 64 bits. */
  predicate Readable(v: Value)
    decreases v, 1
  {
    match v
    case Str(text) => ReadableText(text)
    case Num(n) => I64_MIN <= n <= I64_MAX
    case Arr(items) => ReadableItems(items)
    case Obj(entries) => ReadableEntries(entries)
    case _ => true
  }

  predicate ReadableItems(items: seq<Value>)
    decreases items, 0
  {
    items == [] || (Readable(items[0]) && ReadableItems(items[1..]))
  }

  predicate ReadableEntries(entries: seq<Entry>)
    decreases entries, 0
  {
    entries == [] ||
    (&& ReadableText(entries[0].key)
     && Readable(entries[0].value)
     && ReadableEntries(entries[1..]))
  }

  // ---- strings ----------------------------------------------------------------

  lemma QuotedCharReads(c: char, tail: string)
    ensures var s := QuoteChar(c) + tail;
            s != "" && s[0] != '"' &&
            ReadChar(s) == if c == DELETE then None else Some((c, tail))
  {
    var s := QuoteChar(c) + tail;
    if c < ' ' && |QuoteChar(c)| == 6 {
      var digits := s[2..6];
      assert digits == ['0', '0', HexDigit(c as int / 16), HexDigit(c as int % 16)];
      HexByte(c as int);
      assert s[6..] == tail;
    } else if |QuoteChar(c)| == 2 {
      assert s[2..] == tail;
    } else {
      assert s[1..] == tail;
    }
  }

  lemma HexByte(n: int)
    requires 0 <= n < 32
    ensures HexNumber(['0', '0', HexDigit(n / 16), HexDigit(n % 16)]) == Some(n)
  {
    var s := ['0', '0', HexDigit(n / 16), HexDigit(n % 16)];
    HexDigitValue(n / 16);
    HexDigitValue(n % 16);
    assert s[..3] == ['0', '0', HexDigit(n / 16)];
    assert s[..3][..2] == ['0', '0'];
    assert s[..3][..2][..1] == ['0'];
    assert s[..3][..2][..1][..0] == [];
    assert HexNumber(['0']) == Some(0);
    assert HexNumber(['0', '0']) == Some(0);
    assert HexNumber(s[..3]) == Some(n / 16);
  }

  lemma HexDigitValue(n: int)
    requires 0 <= n < 16
    ensures HexValue(HexDigit(n)) == Some(n)
  {}

  lemma {:induction false} QuotedBodyReads(text: string, rest: string)
    ensures ReadStringBody(QuoteBody(text) + "\"" + rest)
         == if ReadableText(text) then Some((text, rest)) else None
  {
    if text == "" {
      assert QuoteBody(text) + "\"" + rest == "\"" + rest;
    } else {
      var tail := QuoteBody(text[1..]) + "\"" + rest;
      assert QuoteBody(text) + "\"" + rest == QuoteChar(text[0]) + tail;
      QuotedCharReads(text[0], tail);
      QuotedBodyReads(text[1..], rest);
      assert text == [text[0]] + text[1..];
    }
  }

  lemma QuotedReads(text: string, rest: string)
    ensures var s := Quote(text) + rest;
            s[0] == '"' &&
            ReadStringBody(s[1..]) == if ReadableText(text) then Some((text, rest)) else None
  {
    hide ReadStringBody, QuoteBody, ReadableText;
    QuotedBodyReads(text, rest);
    assert (Quote(text) + rest)[1..] == QuoteBody(text) + "\"" + rest;
  }

  // ---- integers ---------------------------------------------------------------

  predicate AllDigits(s: string) {
    forall i | 0 <= i < |s| :: IsDigit(s[i])
  }

  lemma {:induction false} PrintedNatDigits(n: nat)
    ensures PrintNat(n) != "" && AllDigits(PrintNat(n))
    ensures n > 0 ==> PrintNat(n)[0] != '0'
    ensures n == 0 ==> |PrintNat(n)| == 1
  {
    if n >= 10 {
      PrintedNatDigits(n / 10);
    }
  }

  lemma ReadNatAppend(digits: string, last: char)
    requires IsDigit(last)
    ensures ReadNat(digits + [last]) == 10 * ReadNat(digits) + (last as int - '0' as int)
  {
    assert (digits + [last])[..|digits + [last]| - 1] == digits;
  }

  lemma {:induction false} PrintedNatReads(n: nat)
    ensures ReadNat(PrintNat(n)) == n
  {
    if n < 10 {
      assert [Digit(n)] == "" + [Digit(n)];
      ReadNatAppend("", Digit(n));
    } else {
      PrintedNatReads(n / 10);
      ReadNatAppend(PrintNat(n / 10), Digit(n % 10));
    }
  }

  lemma DigitsRead(s: string, digits: string, rest: string)
    requires digits != "" && AllDigits(digits)
    requires Delimited(rest)
    requires s == digits + rest || s == "-" + digits + rest
    ensures ReadInteger(s) == FinishInteger(s[0] == '-', digits, rest)
  {
    hide FinishInteger, DigitsPrefix;
    DigitsPrefixStops(digits, rest);
    var body := digits + rest;
    assert body[..|digits|] == digits && body[|digits|..] == rest;
    assert s[0] == '-' ==> s[1..] == body;
  }

  lemma PrintedIntegerReads(n: int, rest: string)
    requires Delimited(rest)
    ensures ReadInteger(PrintInt(n) + rest)
         == if I64_MIN <= n <= I64_MAX then Some((Integer(n), rest)) else None
  {
    var m := if n < 0 then -n else n;
    PrintedNatDigits(m);
    PrintedNatReads(m);
    DigitsRead(PrintInt(n) + rest, PrintNat(m), rest);
  }

  // ---- keys -------------------------------------------------------------------

  lemma {:induction false} BareKeyPrefixStops(key: string, rest: string)
    requires forall i | 0 <= i < |key| :: IsBareKeyChar(key[i])
    requires rest == "" || !IsBareKeyChar(rest[0])
    ensures BareKeyPrefix(key + rest) == |key|
  {
    if key == "" {
      assert key + rest == rest;
    } else {
      assert (key + rest)[1..] == key[1..] + rest;
      BareKeyPrefixStops(key[1..], rest);
    }
  }

  lemma PrintedKeyReads(key: string, rest: string)
    requires key != ""
    requires rest != "" && !IsBareKeyChar(rest[0])
    ensures var s := PrintKey(key) + rest;
            s[0] != ' ' && s[0] != '\t' && s[0] != '}' &&
            ReadKey(s) == if ReadableText(key) then Some((key, rest)) else None
  {
    var s := PrintKey(key) + rest;
    if IsBareKey(key) {
      BareKeyPrefixStops(key, rest);
      assert s[..|key|] == key && s[|key|..] == rest;
    } else {
      QuotedReads(key, rest);
    }
  }

  // ---- whole values -----------------------------------------------------------

  /** What the reader should make of a printed value followed by `rest`. */
  function Expected(v: Value, rest: string): Read<Toml> {
    if Readable(v) then Some((Meaning(v), rest)) else None
  }

  function ExpectedItems(items: seq<Value>, rest: string): Read<seq<Toml>> {
    if ReadableItems(items) then Some((MeaningItems(items), rest)) else None
  }

  function ExpectedEntries(entries: seq<Entry>, rest: string): Read<map<string, Toml>> {
    if ReadableEntries(entries) then Some((MeaningEntries(entries), rest)) else None
  }

  lemma PrintedStart(v: Value)
    requires Print(v).Ok?
    ensures var s := Print(v).value;
            s != "" && s[0] != ' ' && s[0] != '\t' && s[0] != ']' && s[0] != '}' && s[0] != ','
  {
    if v.Num? {
      NumberStart(v.n, "");
      assert PrintInt(v.n) + "" == PrintInt(v.n);
    }
  }

  /**
   * Reading a printed value back gives the value it stands for and leaves the
   * following text untouched, if and only if the value is readable.
   */
  lemma {:induction false} PrintedReads(v: Value, rest: string)
    requires DistinctKeys(v) && Print(v).Ok?
    requires v.Num? || v.Bool? ==> Delimited(rest)
    ensures ReadValue(Print(v).value + rest) == Expected(v, rest)
    decreases v, 1
  {
    hide ReadValue;
    match v
    case Str(text) =>
      PrintedTextReads(text, rest);
    case Num(n) =>
      PrintedNumberReads(n, rest);
    case Bool(b) =>
      PrintedBoolReads(b, rest);
    case Arr(items) =>
      PrintedArrayReads(items, rest);
    case Obj(entries) =>
      PrintedTableReads(entries, rest);
  }

  lemma PrintedTextReads(text: string, rest: string)
    ensures ReadValue(Print(Str(text)).value + rest) == Expected(Str(text), rest)
  {
    hide ReadStringBody, ReadInteger, QuoteBody, ReadItems, ReadEntries;
    QuotedReads(text, rest);
  }

  lemma PrintedNumberReads(n: PlainInteger, rest: string)
    requires Delimited(rest)
    ensures ReadValue(Print(Num(n)).value + rest) == Expected(Num(n), rest)
  {
    hide ReadStringBody, ReadInteger, PrintNat, ReadItems, ReadEntries;
    PrintedIntegerReads(n, rest);
    NumberStart(n, rest);
  }

  lemma {:induction false} PrintedArrayReads(items: seq<Value>, rest: string)
    requires DistinctKeysItems(items) && PrintItems(items).Ok?
    ensures ReadValue(Print(Arr(items)).value + rest) == Expected(Arr(items), rest)
    decreases items, 1
  {
    hide ReadStringBody, ReadInteger, ReadItems, ReadEntries, PrintItems, ReadableItems, MeaningItems;
    var s := Print(Arr(items)).value + rest;
    PrintedItemsRead(items, rest);
    assert s[1..] == PrintItems(items).value + "]" + rest;
  }

  lemma TableRead(s: string)
    requires s != "" && s[0] == '{'
    ensures ReadValue(s)
         == var body := SkipBlanks(s[1..]);
            if body != "" && body[0] == '}' then Some((Table(map[]), body[1..]))
            else
              var entries := ReadEntries(s[1..]);
              if entries.None? then None else Some((Table(entries.value.0), entries.value.1))
  {
    hide ReadStringBody, ReadInteger, ReadItems, ReadEntries, SkipBlanks;
  }

  lemma {:induction false} PrintedTableReads(entries: seq<Entry>, rest: string)
    requires DistinctKeysEntries(entries) && PrintEntries(entries).Ok?
    ensures ReadValue(Print(Obj(entries)).value + rest) == Expected(Obj(entries), rest)
    decreases entries, 1
  {
    hide ReadValue, ReadEntries, ReadableEntries, MeaningEntries;
    var s, body := Print(Obj(entries)).value + rest, PrintEntries(entries).value + "}" + rest;
    TableRead(s);
    assert s[1..] == body by {
      hide PrintEntries;
      Braced(PrintEntries(entries).value, rest);
    }
    if entries == [] {
      assert body == "}" + rest && body[1..] == rest;
      NoEntriesExpected(rest);
    } else {
      hide PrintEntries;
      PrintedEntriesRead(entries, rest);
    }
  }

  lemma Braced(body: string, rest: string)
    ensures ("{" + body + "}" + rest)[1..] == body + "}" + rest
  {
  }

  lemma NoEntriesExpected(rest: string)
    ensures ExpectedEntries([], rest) == Some((map[], rest))
  {
  }

  lemma PrintedBoolReads(b: bool, rest: string)
    requires Delimited(rest)
    ensures ReadValue((if b then "true" else "false") + rest) == Some((Boolean(b), rest))
  {
    var literal := if b then "true" else "false";
    assert (literal + rest)[|literal|..] == rest;
    assert (literal + rest)[..|literal|] == literal;
  }

  lemma NumberStart(n: int, rest: string)
    ensures var s := PrintInt(n) + rest; s != "" && (s[0] == '-' || IsDigit(s[0]))
  {
    PrintedNatDigits(if n < 0 then -n else n);
  }

  lemma {:induction false} PrintedItemsRead(items: seq<Value>, rest: string)
    requires DistinctKeysItems(items) && PrintItems(items).Ok?
    ensures ReadItems(PrintItems(items).value + "]" + rest) == ExpectedItems(items, rest)
    decreases items, 0
  {
    hide ReadValue, Print;
    var s := PrintItems(items).value + "]" + rest;
    if items == [] {
      assert s == "]" + rest;
    } else {
      var first := Print(items[0]).value;
      var more := if |items| == 1 then "]" + rest
                  else ", " + PrintItems(items[1..]).value + "]" + rest;
      assert s == first + more;
      PrintedStart(items[0]);
      PrintedReads(items[0], more);
      if |items| == 1 {
        assert items[1..] == [];
        assert MeaningItems(items) == [Meaning(items[0])];
        assert ReadableItems(items) == Readable(items[0]);
        assert SkipBlanks(more) == more && more[1..] == rest;
      } else {
        var tail := PrintItems(items[1..]).value + "]" + rest;
        PrintedItemsRead(items[1..], rest);
        assert more[1..] == " " + tail;
        assert SkipBlanks(" " + tail) == SkipBlanks(tail) by { assert (" " + tail)[1..] == tail; }
      }
    }
  }

  lemma EntryHeadReads(key: string, tail: string)
    requires key != ""
    requires tail != "" && tail[0] != ' ' && tail[0] != '\t'
    ensures var s := PrintKey(key) + " = " + tail;
            && s[0] != '}' && SkipBlanks(s) == s
            && ReadKey(s) == if ReadableText(key) then Some((key, " = " + tail)) else None
    ensures SkipBlanks(" = " + tail) == "= " + tail
    ensures SkipBlanks(("= " + tail)[1..]) == tail
  {
    hide ReadStringBody, QuoteBody, ReadKey, IsBareKey;
    assert PrintKey(key) + " = " + tail == PrintKey(key) + (" = " + tail);
    PrintedKeyReads(key, " = " + tail);
    assert (" = " + tail)[1..] == "= " + tail;
    assert ("= " + tail)[1..] == " " + tail;
    assert (" " + tail)[1..] == tail;
  }

  lemma BlankBeforeEntries(tail: string)
    ensures ReadEntries(" " + tail) == ReadEntries(tail)
  {
    assert (" " + tail)[1..] == tail;
    assert SkipBlanks(" " + tail) == SkipBlanks(tail);
  }

  lemma LastEntry(entries: seq<Entry>)
    requires |entries| == 1
    ensures MeaningEntries(entries) == map[entries[0].key := Meaning(entries[0].value)]
    ensures ReadableEntries(entries) == (ReadableText(entries[0].key) && Readable(entries[0].value))
  {
    hide Meaning, Readable, ReadableText;
    assert entries[1..] == [];
  }

  lemma FirstEntry(entries: seq<Entry>)
    requires entries != [] && DistinctKeysEntries(entries)
    ensures MeaningEntries(entries) == MeaningEntries(entries[1..])[entries[0].key := Meaning(entries[0].value)]
    ensures entries[0].key !in MeaningEntries(entries[1..])
    ensures ReadableEntries(entries) == (ReadableText(entries[0].key) && Readable(entries[0].value) && ReadableEntries(entries[1..]))
  {
    hide Meaning, Readable, ReadableText;
  }

  /** What follows the first entry of a printed table. */
  function AfterFirst(entries: seq<Entry>, rest: string): string
    requires entries != [] && PrintEntries(entries).Ok?
  {
    if |entries| == 1 then "}" + rest else ", " + (PrintEntries(entries[1..]).value + "}" + rest)
  }

  lemma FirstPrinted(entries: seq<Entry>)
    requires entries != [] && PrintEntries(entries).Ok?
    ensures Print(entries[0].value).Ok? && PrintEntries(entries[1..]).Ok? && entries[0].key != ""
    ensures PrintEntries(entries).value
         == PrintKey(entries[0].key) + " = " + Print(entries[0].value).value
            + if |entries| == 1 then "" else ", " + PrintEntries(entries[1..]).value
  {
    hide Print, PrintKey;
  }

  lemma EntriesPrinted(entries: seq<Entry>, rest: string)
    requires entries != [] && PrintEntries(entries).Ok?
    ensures Print(entries[0].value).Ok? && PrintEntries(entries[1..]).Ok? && entries[0].key != ""
    ensures PrintEntries(entries).value + "}" + rest
         == PrintKey(entries[0].key) + " = " + (Print(entries[0].value).value + AfterFirst(entries, rest))
  {
    FirstPrinted(entries);
    hide Print, PrintKey, PrintEntries;
    if |entries| == 1 {
      Regrouped(PrintKey(entries[0].key) + " = ", Print(entries[0].value).value, "", "", rest);
    } else {
      Regrouped(PrintKey(entries[0].key) + " = ", Print(entries[0].value).value, ", ", PrintEntries(entries[1..]).value, rest);
    }
  }

  lemma Regrouped(head: string, first: string, comma: string, later: string, rest: string)
    ensures head + first + (comma + later) + "}" + rest == head + (first + (comma + (later + "}" + rest)))
    ensures head + first + "" + "}" + rest == head + (first + ("}" + rest))
  {
  }

  /** One entry of an inline table is read, and what follows decides. */
  lemma EntryReads(key: string, first: string, more: string, value: Option<Toml>)
    requires key != "" && first != "" && first[0] != ' ' && first[0] != '\t'
    requires ReadValue(first + more) == if value.Some? then Some((value.value, more)) else None
    requires more != "" && (more[0] == '}' || more[0] == ',')
    ensures var s := PrintKey(key) + " = " + (first + more);
            && s[0] != '}' && SkipBlanks(s) == s
            && ReadEntries(s)
               == if !ReadableText(key) || value.None? then None
                  else if more[0] == '}' then Some((map[key := value.value], more[1..]))
                  else
                    var later := ReadEntries(more[1..]);
                    if later.None? || key in later.value.0 then None
                    else Some((later.value.0[key := value.value], later.value.1))
  {
    hide ReadValue, ReadKey, PrintKey, ReadableText;
    EntryHeadReads(key, first + more);
    assert SkipBlanks(more) == more;
  }

  lemma {:induction false} PrintedEntriesRead(entries: seq<Entry>, rest: string)
    requires entries != [] && DistinctKeysEntries(entries) && PrintEntries(entries).Ok?
    ensures var s := PrintEntries(entries).value + "}" + rest;
            s[0] != '}' && SkipBlanks(s) == s &&
            ReadEntries(s) == ExpectedEntries(entries, rest)
    decreases entries, 0
  {
    hide ReadValue, ReadEntries, Print, PrintEntries, PrintKey, SkipBlanks, Meaning, MeaningEntries, Readable, ReadableEntries, ReadableText;
    var e, more := entries[0], AfterFirst(entries, rest);
    EntriesPrinted(entries, rest);
    PrintedStart(e.value);
    PrintedReads(e.value, more);
    EntryReads(e.key, Print(e.value).value, more, if Readable(e.value) then Some(Meaning(e.value)) else None);
    if |entries| == 1 {
      assert more[1..] == rest;
      LastEntry(entries);
    } else {
      var tail := PrintEntries(entries[1..]).value + "}" + rest;
      PrintedEntriesRead(entries[1..], rest);
      FirstEntry(entries);
      assert more[1..] == " " + tail;
      BlankBeforeEntries(tail);
    }
  }

  /** Numbers and booleans only end where a delimiter follows; other values always do. */
  lemma ScalarsNeedDelimiter(v: Value, rest: string, t: Toml)
    requires v.Num? || v.Bool?
    requires !Delimited(rest)
    ensures ReadValue(Print(v).value + rest) != Some((t, rest))
  {
    hide ReadStringBody, ReadItems, ReadEntries, DigitsPrefix, PrintNat, ReadNat;
    var s := Print(v).value + rest;
    if v.Num? {
      NumberStart(v.n, rest);
    } else {
      assert s[|Print(v).value|..] == rest;
      assert s[0] == 't' || s[0] == 'f';
    }
  }
}
