/**
 * Structured configuration on its way from the TypeScript SDK to the command line
 * program: `serializeConfigOverrides` flattens an object into `path=literal`
 * strings, `parse_overrides` splits each string again, and
 * `build_cli_overrides_layer` folds the results into one table.
 */
module ConfigOverrides {
  import opened Wrappers
  import opened JsonText
  import opened TomlLiterals

  // ---- the sender -------------------------------------------------------------

  function ChildPath(prefix: string, key: string): string {
    if prefix == "" then key else prefix + "." + key
  }

  /** The override strings an entry list contributes below `prefix`, in order. */
  function FlattenEntries(entries: seq<Entry>, prefix: string): Result<seq<string>, PrintError>
    decreases entries, 0
  {
    if entries == [] then Ok([])
    else if entries[0].key == "" then Err(EmptyKey)
    else
      var first :- Flatten(entries[0].value, ChildPath(prefix, entries[0].key));
      var rest :- FlattenEntries(entries[1..], prefix);
      Ok(first + rest)
  }

  function Flatten(value: Value, prefix: string): Result<seq<string>, PrintError>
    decreases value, 1
  {
    if value.Obj? then
      if value.entries == [] then Ok(if prefix == "" then [] else [prefix + "={}"])
      else FlattenEntries(value.entries, prefix)
    else if prefix == "" then Err(NotPlainObject)
    else
      var literal :- Print(value);
      Ok([prefix + "=" + literal])
  }

  /** The array that the recursive flattener pushes onto. */
  class OverrideList {
    var items: seq<string>

    constructor ()
      ensures items == []
    {
      items := [];
    }

    method Push(override: string)
      modifies this
      ensures items == old(items) + [override]
    {
      items := items + [override];
    }
  }

  lemma FlattenedStep(entries: seq<Entry>, prefix: string)
    requires entries != []
    ensures var e := entries[0];
            FlattenEntries(entries, prefix)
            == if e.key == "" then Err(EmptyKey)
               else
                 var first, rest := Flatten(e.value, ChildPath(prefix, e.key)), FlattenEntries(entries[1..], prefix);
                 if first.Err? then first else if rest.Err? then rest else Ok(first.value + rest.value)
  {
    hide Flatten;
  }

  lemma NothingFlattened(prefix: string)
    ensures FlattenEntries([], prefix) == Ok([])
  {}

  /** On success exactly the flattened overrides were appended; on failure what was there stays. */
  method FlattenConfigOverrides(value: Value, prefix: string, overrides: OverrideList)
    returns (thrown: Option<PrintError>)
    modifies overrides
    ensures thrown.None? ==>
              Flatten(value, prefix).Ok? &&
              overrides.items == old(overrides.items) + Flatten(value, prefix).value
    ensures thrown.Some? ==>
              Flatten(value, prefix) == Err(thrown.value) && old(overrides.items) <= overrides.items
    decreases value, 0
  {
    if !value.Obj? {
      if prefix == "" {
        return Some(NotPlainObject);
      }
      var literal := Print(value);
      if literal.Err? {
        return Some(literal.error);
      }
      overrides.Push(prefix + "=" + literal.value);
      return None;
    }
    var entries := value.entries;
    if prefix == "" && entries == [] {
      return None;
    }
    if prefix != "" && entries == [] {
      overrides.Push(prefix + "={}");
      return None;
    }
    thrown := FlattenAll(entries, prefix, overrides);
  }

  /** The loop over the entries of an object. */
  method FlattenAll(entries: seq<Entry>, prefix: string, overrides: OverrideList)
    returns (thrown: Option<PrintError>)
    modifies overrides
    ensures thrown.None? ==>
              FlattenEntries(entries, prefix).Ok? &&
              overrides.items == old(overrides.items) + FlattenEntries(entries, prefix).value
    ensures thrown.Some? ==>
              FlattenEntries(entries, prefix) == Err(thrown.value) && old(overrides.items) <= overrides.items
    decreases entries, 2
  {
    hide Print, Flatten, FlattenEntries;
    ghost var all := FlattenEntries(entries, prefix);
    ghost var done := [];
    var i := 0;
    assert entries[0..] == entries;
    assert all.Ok? ==> [] + all.value == all.value;
    while i < |entries|
      invariant i <= |entries|
      invariant overrides.items == old(overrides.items) + done
      invariant var rest := FlattenEntries(entries[i..], prefix);
                all == if rest.Ok? then Ok(done + rest.value) else rest
    {
      var key, child := entries[i].key, entries[i].value;
      assert entries[i..][1..] == entries[i + 1..];
      FlattenedStep(entries[i..], prefix);
      if key == "" {
        return Some(EmptyKey);
      }
      var failure := FlattenChild(child, ChildPath(prefix, key), overrides);
      if failure.Some? {
        return failure;
      }
      ghost var added, rest := Flatten(child, ChildPath(prefix, key)).value, FlattenEntries(entries[i + 1..], prefix);
      Regroup(old(overrides.items), done, added, if rest.Ok? then rest.value else []);
      done := done + added;
      i := i + 1;
    }
    assert entries[i..] == [];
    NothingFlattened(prefix);
    assert done + [] == done;
    return None;
  }

  lemma Regroup(a: seq<string>, b: seq<string>, c: seq<string>, d: seq<string>)
    ensures a + b + c == a + (b + c) && b + (c + d) == b + c + d
  {}

  /** One iteration of the loop: nested objects recurse, other values are printed. */
  method FlattenChild(child: Value, path: string, overrides: OverrideList)
    returns (thrown: Option<PrintError>)
    requires path != ""
    modifies overrides
    ensures thrown.None? ==>
              Flatten(child, path).Ok? &&
              overrides.items == old(overrides.items) + Flatten(child, path).value
    ensures thrown.Some? ==>
              Flatten(child, path) == Err(thrown.value) && old(overrides.items) <= overrides.items
    decreases child, 1
  {
    if child.Obj? {
      thrown := FlattenConfigOverrides(child, path, overrides);
    } else {
      var literal := Print(child);
      if literal.Err? {
        return Some(literal.error);
      }
      overrides.Push(path + "=" + literal.value);
      thrown := None;
    }
  }

  method SerializeConfigOverrides(config: Value) returns (r: Result<seq<string>, PrintError>)
    ensures r == Flatten(config, "")
  {
    var overrides := new OverrideList();
    var thrown := FlattenConfigOverrides(config, "", overrides);
    assert thrown.None? ==> [] + Flatten(config, "").value == Flatten(config, "").value;
    r := if thrown.Some? then Err(thrown.value) else Ok(overrides.items);
  }

  // ---- the receiver: one override ---------------------------------------------

  datatype OverrideError = MissingEquals | EmptyPath

  const LEGACY_ALIAS := "use_legacy_landlock"
  const LEGACY_TARGET := "features.use_legacy_landlock"

  /** Unicode White_Space, which Rust's `trim` removes. */
  predicate IsWhitespace(c: char) {
    var n := c as int;
    || 0x09 <= n <= 0x0D || n == 0x20 || n == 0x85 || n == 0xA0 || n == 0x1680
    || 0x2000 <= n <= 0x200A || n == 0x2028 || n == 0x2029 || n == 0x202F || n == 0x205F || n == 0x3000
  }

  predicate IsQuote(c: char) { c == '"' || c == '\'' }

  function DropLeading(s: string, drop: char -> bool): (r: string)
    ensures |r| <= |s| && (r == "" || !drop(r[0]))
    ensures r == s <==> s == "" || !drop(s[0])
  {
    if s != "" && drop(s[0]) then DropLeading(s[1..], drop) else s
  }

  function DropTrailing(s: string, drop: char -> bool): (r: string)
    ensures r <= s && (r == "" || !drop(r[|r| - 1]))
    ensures r == s <==> s == "" || !drop(s[|s| - 1])
  {
    if s != "" && drop(s[|s| - 1]) then DropTrailing(s[..|s| - 1], drop) else s
  }

  function TrimMatches(s: string, drop: char -> bool): (r: string)
    ensures |r| <= |s|
    ensures r == "" || (!drop(r[0]) && !drop(r[|r| - 1]))
  {
    DropTrailing(DropLeading(s, drop), drop)
  }

  function Trim(s: string): (r: string)
    ensures |r| <= |s|
  {
    TrimMatches(s, IsWhitespace)
  }

  lemma TrimMatchesKeeps(s: string, drop: char -> bool)
    ensures TrimMatches(s, drop) == s <==> s == "" || (!drop(s[0]) && !drop(s[|s| - 1]))
  {}

  /** The position of the first `c`, or the length when there is none. */
  function IndexOf(s: string, c: char): (i: nat)
    ensures i <= |s| && c !in s[..i]
    ensures i < |s| ==> s[i] == c
    ensures i == |s| <==> c !in s
  {
    if s == "" then 0
    else if s[0] == c then 0
    else
      var i := 1 + IndexOf(s[1..], c);
      assert s[..i] == [s[0]] + s[1..][..i - 1];
      assert s == [s[0]] + s[1..];
      i
  }

  /** A complete TOML value, as the right-hand side of an assignment. */
  function ParseTomlValue(raw: string): Option<Toml> {
    var (value, rest) :- ReadValue(SkipBlanks(raw));
    if SkipBlanks(rest) == "" then Some(value) else None
  }

  function CanonicalPath(path: string): string {
    if path == LEGACY_ALIAS then LEGACY_TARGET else path
  }

  /** Text that is not TOML is taken literally, without its outer quotes. */
  function ParseOverrideValue(raw: string): Toml {
    match ParseTomlValue(raw)
    case Some(value) => value
    case None => String(TrimMatches(Trim(raw), IsQuote))
  }

  function ParseOverride(s: string): Result<(string, Toml), OverrideError> {
    var i := IndexOf(s, '=');
    if i == |s| then Err(MissingEquals)
    else
      var path := Trim(s[..i]);
      if path == "" then Err(EmptyPath)
      else Ok((CanonicalPath(path), ParseOverrideValue(Trim(s[i + 1..]))))
  }

  // ---- which literals arrive --------------------------------------------------

  /** A string that survives being read without its quotes and without escapes. */
  predicate RawSafe(text: string) {
    QuoteBody(text) == text && (text == "" || (!IsQuote(text[0]) && !IsQuote(text[|text| - 1])))
  }

  /** The condition under which a literal is understood on arrival. */
  predicate Arrives(v: Value) {
    Readable(v) || (v.Str? && RawSafe(v.text))
  }

  lemma {:induction false} QuoteBodyShape(text: string)
    ensures |QuoteBody(text)| >= |text|
    ensures text != "" ==>
              var q := QuoteBody(text);
              && (IsQuote(q[0]) ==> IsQuote(text[0]))
              && (IsQuote(q[|q| - 1]) ==> IsQuote(text[|text| - 1]))
  {
    if text != "" {
      QuoteBodyShape(text[1..]);
      if |text| == 1 {
        assert QuoteBody(text) == QuoteChar(text[0]) + QuoteBody("");
        assert QuoteBody(text) == QuoteChar(text[0]);
      }
    }
  }

  lemma QuotesTrimOff(body: string)
    ensures TrimMatches("\"" + body + "\"", IsQuote) == TrimMatches(body, IsQuote)
  {
    var s := "\"" + body + "\"";
    assert s[1..] == body + "\"";
    assert DropLeading(s, IsQuote) == DropLeading(body + "\"", IsQuote);
    DropLeadingAppend(body);
  }

  lemma {:induction false} DropLeadingAppend(body: string)
    ensures DropTrailing(DropLeading(body + "\"", IsQuote), IsQuote)
         == DropTrailing(DropLeading(body, IsQuote), IsQuote)
  {
    var s := body + "\"";
    if body == "" {
      assert s == "\"" && s[1..] == "";
      assert DropLeading(s, IsQuote) == DropLeading(s[1..], IsQuote) == "";
    } else if IsQuote(body[0]) {
      assert s[1..] == body[1..] + "\"";
      DropLeadingAppend(body[1..]);
    } else {
      assert s[..|s| - 1] == body;
    }
  }

  lemma RawTextReads(text: string)
    ensures TrimMatches(Quote(text), IsQuote) == text <==> RawSafe(text)
  {
    QuotesTrimOff(QuoteBody(text));
    QuoteBodyShape(text);
    TrimMatchesKeeps(text, IsQuote);
    var q, r := QuoteBody(text), TrimMatches(QuoteBody(text), IsQuote);
    if r == text && text != "" {
      assert !IsQuote(text[0]) && !IsQuote(text[|text| - 1]);
      TrimMatchesKeeps(q, IsQuote);
    }
  }

  lemma PrintedEnds(v: Value)
    requires Print(v).Ok?
    ensures var s := Print(v).value;
            s != "" && !IsWhitespace(s[0]) && !IsWhitespace(s[|s| - 1])
  {
    if v.Num? {
      PrintedNatDigits(if v.n < 0 then -v.n else v.n);
    }
  }

  /** A printed literal is received as the value it stands for exactly when `Arrives` holds. */
  lemma LiteralArrives(v: Value)
    requires DistinctKeys(v) && Print(v).Ok?
    ensures ParseOverrideValue(Trim(Print(v).value)) == Meaning(v) <==> Arrives(v)
  {
    var s := Print(v).value;
    PrintedEnds(v);
    TrimMatchesKeeps(s, IsWhitespace);
    assert Trim(s) == s;
    PrintedReads(v, "");
    assert s + "" == s;
    PrintedStart(v);
    assert SkipBlanks(s) == s;
    if !Readable(v) {
      assert ParseOverrideValue(s) == String(TrimMatches(s, IsQuote));
      if v.Str? {
        RawTextReads(v.text);
      }
    }
  }

  // ---- paths ------------------------------------------------------------------

  type Segments = seq<string>

  function JoinPath(segs: Segments): string {
    if segs == [] then "" else ChildPath(JoinPath(segs[..|segs| - 1]), segs[|segs| - 1])
  }

  /** The pieces between dots; there is always at least one. */
  function SplitPath(path: string): (segs: Segments)
    ensures segs != []
    ensures forall i | 0 <= i < |segs| :: '.' !in segs[i]
    decreases |path|
  {
    var i := IndexOf(path, '.');
    if i == |path| then [path] else [path[..i]] + SplitPath(path[i + 1..])
  }

  lemma SplitStep(path: string)
    ensures var i := IndexOf(path, '.');
            SplitPath(path) == if i == |path| then [path] else [path[..i]] + SplitPath(path[i + 1..])
  {
    hide IndexOf;
  }

  /** Splitting at a dot in the middle. */
  lemma {:induction false} SplitDot(a: string, b: string)
    ensures SplitPath(a + "." + b) == SplitPath(a) + SplitPath(b)
    decreases |a|
  {
    hide IndexOf, SplitPath;
    var s := a + "." + b;
    var i := IndexOf(a, '.');
    SplitStep(a);
    SplitStep(s);
    assert IndexOf(s, '.') == i by { IndexOfUnique(s, '.', i); }
    if i == |a| {
      assert s[..i] == a && s[i + 1..] == b;
    } else {
      assert s[..i] == a[..i];
      assert s[i + 1..] == a[i + 1..] + "." + b;
      SplitDot(a[i + 1..], b);
    }
  }

  lemma SplitAppend(path: string, key: string)
    requires '.' !in key
    ensures SplitPath(path + "." + key) == SplitPath(path) + [key]
  {
    hide SplitPath;
    SplitDot(path, key);
    SplitSingle(key);
  }

  lemma IndexOfUnique(s: string, c: char, i: nat)
    requires i < |s| && c !in s[..i] && s[i] == c
    ensures IndexOf(s, c) == i
  {}

  lemma {:induction false} SplitJoin(segs: Segments)
    requires segs != [] && forall i | 0 <= i < |segs| :: segs[i] != "" && '.' !in segs[i]
    ensures JoinPath(segs) != "" && SplitPath(JoinPath(segs)) == segs
  {
    var n := |segs| - 1;
    assert segs == segs[..n] + [segs[n]];
    if n == 0 {
      assert segs[..n] == [];
    } else {
      SplitJoin(segs[..n]);
      SplitAppend(JoinPath(segs[..n]), segs[n]);
    }
  }

  /** Joining with dots undoes splitting at dots. */
  function JoinRight(segs: Segments): string
    requires segs != []
  {
    if |segs| == 1 then segs[0] else segs[0] + "." + JoinRight(segs[1..])
  }

  lemma {:induction false} SplitInjective(path: string)
    ensures JoinRight(SplitPath(path)) == path
    decreases |path|
  {
    hide IndexOf, SplitPath;
    var i := IndexOf(path, '.');
    SplitStep(path);
    if i < |path| {
      var rest := SplitPath(path[i + 1..]);
      SplitInjective(path[i + 1..]);
      assert ([path[..i]] + rest)[1..] == rest;
      assert path == path[..i] + "." + path[i + 1..];
    }
  }

  // ---- one override, end to end -----------------------------------------------

  type Located = (Segments, Toml)

  function Receive(s: string): Result<Located, OverrideError> {
    var (path, value) :- ParseOverride(s);
    Ok((SplitPath(path), value))
  }

  /** The conditions on a path under which the receiver splits it as the sender joined it. */
  predicate PathArrives(segs: Segments) {
    var path := JoinPath(segs);
    && (forall i | 0 <= i < |segs| :: '.' !in segs[i])
    && '=' !in path && Trim(path) == path && path != LEGACY_ALIAS
  }

  lemma LegacyNames()
    ensures Trim(LEGACY_TARGET) == LEGACY_TARGET && '=' !in LEGACY_TARGET && LEGACY_TARGET != LEGACY_ALIAS
  {
    hide IsWhitespace;
    assert !IsWhitespace('f') && !IsWhitespace('k') by { LettersAreNotBlank(); }
    TrimMatchesKeeps(LEGACY_TARGET, IsWhitespace);
  }

  lemma LettersAreNotBlank()
    ensures !IsWhitespace('f') && !IsWhitespace('k')
  {}

  lemma PathReceived(path: string, literal: string)
    requires path != ""
    ensures var r := ParseOverride(path + "=" + literal);
            (r.Ok? && r.value.0 == path) <==> ('=' !in path && Trim(path) == path && path != LEGACY_ALIAS)
    ensures '=' !in path && Trim(path) == path ==>
              ParseOverride(path + "=" + literal)
              == Ok((CanonicalPath(path), ParseOverrideValue(Trim(literal))))
  {
    hide IndexOf, TrimMatches, Trim, LEGACY_ALIAS, LEGACY_TARGET, ParseOverrideValue;
    LegacyNames();
    var s := path + "=" + literal;
    if '=' !in path {
      IndexOfUnique(s, '=', |path|);
      assert s[..|path|] == path && s[|path| + 1..] == literal;
    } else {
      var j := IndexOf(path, '=');
      assert s[..j] == path[..j];
      IndexOfUnique(s, '=', j);
      assert |Trim(s[..j])| < |path|;
    }
  }

  /** The receiver recovers the sender's path and value exactly when both arrive. */
  lemma OverrideReceived(segs: Segments, v: Value)
    requires segs != [] && forall i | 0 <= i < |segs| :: segs[i] != ""
    requires DistinctKeys(v) && Print(v).Ok?
    requires JoinPath(segs) != ""
    ensures Receive(JoinPath(segs) + "=" + Print(v).value) == Ok((segs, Meaning(v)))
            <==> PathArrives(segs) && Arrives(v)
  {
    hide ParseOverride, ParseOverrideValue, Readable, Print, Trim, SplitPath, Meaning, Arrives, CanonicalPath;
    var path, literal := JoinPath(segs), Print(v).value;
    PathReceived(path, literal);
    LiteralArrives(v);
    SplitInjective(path);
    var r := ParseOverride(path + "=" + literal);
    if forall i | 0 <= i < |segs| :: '.' !in segs[i] {
      SplitJoin(segs);
      if r.Ok? {
        SplitInjective(r.value.0);
      }
    }
    assert path != LEGACY_ALIAS ==> CanonicalPath(path) == path by { CanonicalKeeps(path); }
  }

  lemma CanonicalKeeps(path: string)
    ensures path != LEGACY_ALIAS ==> CanonicalPath(path) == path
  {}

  // ---- the receiver: the whole layer ------------------------------------------

  /** `merge_toml_values`, which only tables at structured feature paths reach. */
  type Merge = (Toml, Toml) -> Toml

  const STRUCTURED_FEATURES := ["multi_agent_v2", "network_proxy", "sleep_tool"]

  predicate IsStructuredFeaturePath(path: Segments) {
    var n := |path|;
    && (n == 2 || (n == 4 && path[0] == "profiles"))
    && path[n - 2] == "features" && path[n - 1] in STRUCTURED_FEATURES
  }

  function EnabledTable(enabled: Toml): Toml {
    Table(map["enabled" := enabled])
  }

  /** What the last segment of a path stores when `key` may already hold something. */
  function Store(table: map<string, Toml>, key: string, value: Toml, structured: bool, merge: Merge)
    : map<string, Toml>
  {
    if !structured || key !in table then table[key := value]
    else
      var existing := table[key];
      if existing.Table? && value.Boolean? then table[key := Table(existing.entries["enabled" := value])]
      else if existing.Boolean? && value.Table? then table[key := merge(EnabledTable(existing), value)]
      else if existing.Table? && value.Table? then table[key := merge(existing, value)]
      else table[key := value]
  }

  /** `apply_toml_override` below the already traversed segments. */
  function Apply(current: Toml, traversed: Segments, segs: Segments, value: Toml, merge: Merge): (r: Toml)
    requires segs != []
    ensures r.Table?
    decreases |segs|
  {
    var table := if current.Table? then current.entries else map[];
    var key, here := segs[0], traversed + [segs[0]];
    if |segs| == 1 then
      Table(Store(table, key, value, IsStructuredFeaturePath(here), merge))
    else
      var found := if key in table then table[key] else Table(map[]);
      var child := if IsStructuredFeaturePath(here) && found.Boolean? then EnabledTable(found) else found;
      Table(table[key := Apply(child, here, segs[1..], value, merge)])
  }

  predicate Rooted(located: seq<Located>) {
    forall i | 0 <= i < |located| :: located[i].0 != []
  }

  function ApplyAll(current: Toml, traversed: Segments, located: seq<Located>, merge: Merge): (r: Toml)
    requires Rooted(located)
    ensures current.Table? ==> r.Table?
    decreases |located|
  {
    if located == [] then current
    else
      ApplyAll(Apply(current, traversed, located[0].0, located[0].1, merge), traversed, located[1..], merge)
  }

  function ReceiveAll(overrides: seq<string>): (r: Result<seq<Located>, OverrideError>)
    ensures r.Ok? ==> |r.value| == |overrides| && Rooted(r.value)
  {
    if overrides == [] then Ok([])
    else
      var first :- Receive(overrides[0]);
      var rest :- ReceiveAll(overrides[1..]);
      Ok([first] + rest)
  }

  /** `parse_overrides` followed by `build_cli_overrides_layer`. */
  function BuildLayer(overrides: seq<string>, merge: Merge): Result<Toml, OverrideError> {
    var located :- ReceiveAll(overrides);
    Ok(ApplyAll(Table(map[]), [], located, merge))
  }

  // ---- what the sender means to set -------------------------------------------

  predicate IsBranch(v: Value) {
    v.Obj? && v.entries != []
  }

  function Prepend(segs: Segments, located: seq<Located>): (r: seq<Located>)
    ensures |r| == |located|
    ensures segs != [] || Rooted(located) ==> Rooted(r)
  {
    seq(|located|, i requires 0 <= i < |located| => (segs + located[i].0, located[i].1))
  }

  /** Every leaf of the object with the keys leading to it, in enumeration order. */
  function Leaves(entries: seq<Entry>): (r: seq<Located>)
    ensures Rooted(r)
    decreases entries
  {
    if entries == [] then []
    else
      var e := entries[0];
      (if IsBranch(e.value) then Prepend([e.key], Leaves(e.value.entries)) else [([e.key], Meaning(e.value))])
      + Leaves(entries[1..])
  }

  /** The leaves of `entries` as seen from the root, where `segs` leads to them. */
  function LeavesBelow(segs: Segments, entries: seq<Entry>): (r: seq<Located>)
    ensures Rooted(r)
    decreases entries
  {
    if entries == [] then []
    else
      var e := entries[0];
      (if IsBranch(e.value) then LeavesBelow(segs + [e.key], e.value.entries)
       else [(segs + [e.key], Meaning(e.value))])
      + LeavesBelow(segs, entries[1..])
  }

  lemma PrependAppend(segs: Segments, a: seq<Located>, b: seq<Located>)
    ensures Prepend(segs, a + b) == Prepend(segs, a) + Prepend(segs, b)
  {}

  lemma PrependTwice(outer: Segments, inner: Segments, located: seq<Located>)
    ensures Prepend(outer + inner, located) == Prepend(outer, Prepend(inner, located))
  {
    forall i | 0 <= i < |located|
      ensures Prepend(outer + inner, located)[i] == Prepend(outer, Prepend(inner, located))[i]
    {
      assert outer + inner + located[i].0 == outer + (inner + located[i].0);
    }
  }

  lemma {:induction false} LeavesBelowPrepends(segs: Segments, entries: seq<Entry>)
    ensures LeavesBelow(segs, entries) == Prepend(segs, Leaves(entries))
    decreases entries
  {
    hide Prepend;
    if entries == [] {
      assert |Prepend(segs, [])| == 0;
    } else {
      var e := entries[0];
      var mine := if IsBranch(e.value) then Prepend([e.key], Leaves(e.value.entries)) else [([e.key], Meaning(e.value))];
      LeavesBelowPrepends(segs, entries[1..]);
      PrependAppend(segs, mine, Leaves(entries[1..]));
      if IsBranch(e.value) {
        LeavesBelowPrepends(segs + [e.key], e.value.entries);
        PrependTwice(segs, [e.key], Leaves(e.value.entries));
      } else {
        PrependOne(segs, mine[0]);
      }
    }
  }

  lemma PrependOne(segs: Segments, leaf: Located)
    ensures Prepend(segs, [leaf]) == [(segs + leaf.0, leaf.1)]
  {}

  /** Every path and every literal of the object arrives. */
  predicate AllArrive(segs: Segments, entries: seq<Entry>)
    decreases entries
  {
    entries == [] ||
    var e := entries[0];
    (&& (if IsBranch(e.value) then AllArrive(segs + [e.key], e.value.entries)
         else PathArrives(segs + [e.key]) && Arrives(e.value))
     && AllArrive(segs, entries[1..]))
  }

  // ---- the transfer theorems --------------------------------------------------

  predicate NonEmptySegments(segs: Segments) {
    forall i | 0 <= i < |segs| :: segs[i] != ""
  }

  lemma JoinChild(segs: Segments, key: string)
    requires NonEmptySegments(segs) && key != ""
    ensures JoinPath(segs + [key]) == ChildPath(JoinPath(segs), key) != ""
    ensures NonEmptySegments(segs + [key])
  {
    assert (segs + [key])[..|segs|] == segs;
  }

  lemma {:induction false} ReceiveAllAppend(a: seq<string>, b: seq<string>, x: seq<Located>, y: seq<Located>)
    requires |x| == |a| && Rooted(x) && |y| == |b| && Rooted(y)
    ensures ReceiveAll(a + b) == Ok(x + y) <==> ReceiveAll(a) == Ok(x) && ReceiveAll(b) == Ok(y)
  {
    hide Receive;
    if a == [] {
      assert a + b == b && x + y == y;
    } else {
      assert (a + b)[1..] == a[1..] + b;
      assert (x + y)[1..] == x[1..] + y;
      ReceiveAllAppend(a[1..], b, x[1..], y);
      var r := ReceiveAll(a[1..]);
      assert x == [x[0]] + x[1..];
      assert x + y == [x[0]] + (x[1..] + y);
    }
  }

  lemma LeafOverride(path: string, v: Value)
    requires !IsBranch(v) && path != ""
    ensures Flatten(v, path) == if Print(v).Ok? then Ok([path + "=" + Print(v).value]) else Err(Print(v).error)
  {
    if v.Obj? {
      assert v == Obj([]);
      assert PrintEntries([]) == Ok("");
      assert Print(v) == Ok("{" + "" + "}");
      assert Print(v).value == "{}";
      assert path + "={}" == path + "=" + "{}";
    }
  }

  /** One leaf: a list of one override is received as one located value. */
  lemma LeafReceived(segs: Segments, v: Value)
    requires segs != [] && NonEmptySegments(segs) && JoinPath(segs) != ""
    requires DistinctKeys(v) && Print(v).Ok?
    ensures ReceiveAll([JoinPath(segs) + "=" + Print(v).value]) == Ok([(segs, Meaning(v))])
            <==> PathArrives(segs) && Arrives(v)
  {
    hide Receive, Print, Meaning, PathArrives, Arrives, JoinPath;
    OverrideReceived(segs, v);
    var s := JoinPath(segs) + "=" + Print(v).value;
    assert [s][1..] == [];
    assert ReceiveAll([s]).Ok? <==> Receive(s).Ok?;
    assert Receive(s).Ok? ==> ReceiveAll([s]).value == [Receive(s).value];
  }

  /** The receiver finds every leaf where the sender put it exactly when everything arrives. */
  lemma {:induction false} LeavesReceived(segs: Segments, entries: seq<Entry>)
    requires NonEmptySegments(segs)
    requires DistinctKeysEntries(entries) && FlattenEntries(entries, JoinPath(segs)).Ok?
    ensures |LeavesBelow(segs, entries)| == |FlattenEntries(entries, JoinPath(segs)).value|
    ensures ReceiveAll(FlattenEntries(entries, JoinPath(segs)).value) == Ok(LeavesBelow(segs, entries))
            <==> AllArrive(segs, entries)
    decreases entries
  {
    hide Receive, Print, Meaning, PathArrives, Arrives, JoinPath, NonEmptySegments;
    if entries != [] {
      var e := entries[0];
      var here := segs + [e.key];
      JoinChild(segs, e.key);
      LeavesReceived(segs, entries[1..]);
      var first := Flatten(e.value, JoinPath(here)).value;
      var mine := if IsBranch(e.value) then LeavesBelow(here, e.value.entries) else [(here, Meaning(e.value))];
      if IsBranch(e.value) {
        LeavesReceived(here, e.value.entries);
      } else {
        LeafOverride(JoinPath(here), e.value);
        LeafReceived(here, e.value);
      }
      ReceiveAllAppend(first, FlattenEntries(entries[1..], JoinPath(segs)).value,
                       mine, LeavesBelow(segs, entries[1..]));
    }
  }

  // ---- rebuilding the table ---------------------------------------------------

  lemma {:induction false} ApplyAllAppend(t: Toml, traversed: Segments, a: seq<Located>, b: seq<Located>, merge: Merge)
    requires Rooted(a) && Rooted(b)
    ensures ApplyAll(t, traversed, a + b, merge)
         == ApplyAll(ApplyAll(t, traversed, a, merge), traversed, b, merge)
    decreases |a|
  {
    if a == [] {
      assert a + b == b;
    } else {
      assert (a + b)[1..] == a[1..] + b;
      ApplyAllAppend(Apply(t, traversed, a[0].0, a[0].1, merge), traversed, a[1..], b, merge);
    }
  }

  /** Overrides below one key act on the table that the key holds. */
  lemma {:induction false} ApplyAllUnder(
    table: map<string, Toml>, traversed: Segments, key: string, located: seq<Located>, merge: Merge)
    requires Rooted(located) && located != []
    requires key in table ==> table[key].Table?
    ensures var child := if key in table then table[key] else Table(map[]);
            ApplyAll(Table(table), traversed, Prepend([key], located), merge)
            == Table(table[key := ApplyAll(child, traversed + [key], located, merge)])
    decreases |located|
  {
    var under := Prepend([key], located);
    var child := if key in table then table[key] else Table(map[]);
    var first := Apply(child, traversed + [key], located[0].0, located[0].1, merge);
    assert ([key] + located[0].0)[1..] == located[0].0;
    assert Apply(Table(table), traversed, under[0].0, under[0].1, merge) == Table(table[key := first]);
    assert under[1..] == Prepend([key], located[1..]);
    if |located| == 1 {
      assert ApplyAll(first, traversed + [key], located[1..], merge) == first;
    } else {
      ApplyAllUnder(table[key := first], traversed, key, located[1..], merge);
      var last := ApplyAll(first, traversed + [key], located[1..], merge);
      assert table[key := first][key := last] == table[key := last];
    }
  }

  lemma {:induction false} BranchHasLeaves(entries: seq<Entry>)
    requires entries != []
    ensures Leaves(entries) != []
    decreases entries
  {
    if IsBranch(entries[0].value) {
      BranchHasLeaves(entries[0].value.entries);
    }
  }

  lemma LeafApplied(table: map<string, Toml>, traversed: Segments, key: string, value: Toml, merge: Merge)
    requires key !in table
    ensures ApplyAll(Table(table), traversed, [([key], value)], merge) == Table(table[key := value])
  {
    var located: seq<Located> := [([key], value)];
    assert located[1..] == [];
    assert Apply(Table(table), traversed, [key], value, merge) == Table(table[key := value]);
  }

  lemma MeaningExtends(table: map<string, Toml>, entries: seq<Entry>)
    requires entries != [] && DistinctKeysEntries(entries)
    ensures var e := entries[0];
            table[e.key := Meaning(e.value)] + MeaningEntries(entries[1..]) == table + MeaningEntries(entries)
  {
    hide Meaning;
  }

  /** Setting every leaf of an object in a table free of its keys adds exactly the object. */
  lemma {:induction false} LeavesRebuild(
    table: map<string, Toml>, traversed: Segments, entries: seq<Entry>, merge: Merge)
    requires DistinctKeysEntries(entries) && table.Keys !! Keys(entries)
    ensures ApplyAll(Table(table), traversed, Leaves(entries), merge)
         == Table(table + MeaningEntries(entries))
    decreases entries
  {
    hide ApplyAll, Apply, Prepend;
    if entries == [] {
      assert table + map[] == table;
      assert ApplyAll(Table(table), traversed, [], merge) == Table(table) by { NothingApplied(Table(table), traversed, merge); }
    } else {
      var e, rest := entries[0], entries[1..];
      assert entries == [e] + rest;
      assert e.key in Keys(entries) && Keys(rest) <= Keys(entries);
      EntryRebuilt(table, traversed, e, merge);
      ApplyAllAppend(Table(table), traversed, EntryLeaves(e), Leaves(rest), merge);
      LeavesRebuild(table[e.key := Meaning(e.value)], traversed, rest, merge);
      MeaningExtends(table, entries);
    }
  }

  /** The leaves of one entry. */
  function EntryLeaves(e: Entry): seq<Located> {
    if IsBranch(e.value) then Prepend([e.key], Leaves(e.value.entries)) else [([e.key], Meaning(e.value))]
  }

  lemma {:induction false} EntryRebuilt(table: map<string, Toml>, traversed: Segments, e: Entry, merge: Merge)
    requires DistinctKeys(e.value) && e.key !in table
    ensures Rooted(EntryLeaves(e))
    ensures ApplyAll(Table(table), traversed, EntryLeaves(e), merge) == Table(table[e.key := Meaning(e.value)])
    decreases e
  {
    hide ApplyAll, Apply, Prepend, Leaves;
    if IsBranch(e.value) {
      BranchHasLeaves(e.value.entries);
      ApplyAllUnder(table, traversed, e.key, Leaves(e.value.entries), merge);
      LeavesRebuild(map[], traversed + [e.key], e.value.entries, merge);
      assert map[] + MeaningEntries(e.value.entries) == MeaningEntries(e.value.entries);
    } else {
      LeafApplied(table, traversed, e.key, Meaning(e.value), merge);
    }
  }

  lemma NothingApplied(t: Toml, traversed: Segments, merge: Merge)
    ensures ApplyAll(t, traversed, [], merge) == t
  {}

  lemma PrependNothing(located: seq<Located>)
    ensures Prepend([], located) == located
  {
    forall i | 0 <= i < |located| ensures Prepend([], located)[i] == located[i] {
      assert [] + located[i].0 == located[i].0;
    }
  }

  /**
   * The command line program finds each leaf of the configuration at its own path
   * exactly when every path and literal arrives, and then it rebuilds the whole
   * configuration, nested empty objects included, whatever the feature merge does.
   */
  lemma ConfigurationRebuilt(config: Value, merge: Merge)
    requires config.Obj? && DistinctKeys(config) && Flatten(config, "").Ok?
    ensures var overrides := Flatten(config, "").value;
            && (ReceiveAll(overrides) == Ok(Leaves(config.entries)) <==> AllArrive([], config.entries))
            && (AllArrive([], config.entries) ==> BuildLayer(overrides, merge) == Ok(Meaning(config)))
  {
    hide Receive, ReceiveAll, Print, FlattenEntries, ApplyAll, AllArrive, Leaves, LeavesBelow, Prepend, MeaningEntries;
    var entries := config.entries;
    var overrides := Flatten(config, "").value;
    assert overrides == FlattenEntries(entries, "").value by { NothingFlattened(""); }
    assert FlattenEntries(entries, JoinPath([])) == FlattenEntries(entries, "");
    LeavesReceived([], entries);
    LeavesBelowPrepends([], entries);
    PrependNothing(Leaves(entries));
    if AllArrive([], entries) {
      LeavesRebuild(map[], [], entries, merge);
      assert map[] + MeaningEntries(entries) == MeaningEntries(entries);
    }
  }

  /** A dot in the key of a leaf makes the receiver build a nested table instead. */
  lemma DottedKeyNests(x: string, y: string, v: Value, merge: Merge)
    requires '.' !in x && '.' !in y && '=' !in x && '=' !in y && !IsBranch(v) && Print(v).Ok?
    requires var key := x + "." + y; Trim(key) == key && key != LEGACY_ALIAS
    ensures var config := Obj([Entry(x + "." + y, v)]);
            && Flatten(config, "").Ok?
            && BuildLayer(Flatten(config, "").value, merge)
               == Ok(Table(map[x := Table(map[y := ParseOverrideValue(Trim(Print(v).value))])]))
               != Ok(Meaning(config))
  {
    hide Trim, ParseOverride, ParseOverrideValue, SplitPath, LEGACY_ALIAS, IsStructuredFeaturePath, Print;
    var key, entries := x + "." + y, [Entry(x + "." + y, v)];
    var literal := Print(v).value;
    var value := ParseOverrideValue(Trim(literal));
    var s := key + "=" + literal;
    LeafOverride(key, v);
    assert Flatten(Obj(entries), "") == Ok([s]) by {
      assert FlattenEntries(entries[1..], "") == Ok([]);
      assert FlattenEntries(entries, "") == Ok([s] + []);
      assert [s] + [] == [s];
    }
    assert Receive(s) == Ok(([x, y], value)) by {
      PathReceived(key, literal);
      SplitAppend(x, y);
      SplitSingle(x);
      assert '=' !in key;
      assert [x] + [y] == [x, y];
      assert ParseOverride(s) == Ok((key, value));
    }
    hide Receive, FlattenEntries, Flatten, Meaning;
    assert [s][1..] == [];
    var located: seq<Located> := [([x, y], value)];
    assert ReceiveAll([s]) == Ok([([x, y], value)] + []);
    assert located + [] == located && located[1..] == [] && [x, y][1..] == [y];
    assert Apply(Table(map[]), [], [x, y], value, merge)
        == Table(map[x := Table(map[y := value])]);
    assert ApplyAll(Table(map[]), [], located, merge) == Table(map[x := Table(map[y := value])]);
    assert |x| < |key|;
    assert Meaning(Obj(entries)) == Table(MeaningEntries(entries)) by { ObjectMeaning(entries); }
    assert key in MeaningEntries(entries);
  }

  lemma ObjectMeaning(entries: seq<Entry>)
    ensures Meaning(Obj(entries)) == Table(MeaningEntries(entries))
  {}

  lemma SplitSingle(key: string)
    requires '.' !in key
    ensures SplitPath(key) == [key]
  {}
}
