/**
 * When a configuration reaches the command line program unchanged: exactly when every
 * path and every literal arrives. A table the receiver builds has only the keys that
 * paths lead to, and a key that does not arrive always leads to a shorter one, so the
 * longest such key of a table is missing from what is built.
 */
module ConfigArrival {
  import opened Wrappers
  import opened TomlLiterals
  import opened ConfigOverrides

  // ---- keys of one level ------------------------------------------------------

  /** Segments that have arrived, seen from below. */
  predicate Clean(segs: Segments) {
    && (forall i | 0 <= i < |segs| :: segs[i] != "" && '.' !in segs[i] && '=' !in segs[i])
    && (segs != [] ==> !IsWhitespace(segs[0][0]))
  }

  /** The key of an entry below arrived segments survives splitting, trimming and the alias. */
  predicate KeyArrives(segs: Segments, e: Entry)
    requires e.key != ""
  {
    && '.' !in e.key && '=' !in e.key
    && (segs == [] ==> !IsWhitespace(e.key[0]))
    && (!IsBranch(e.value) ==>
          !IsWhitespace(e.key[|e.key| - 1]) && (segs == [] ==> e.key != LEGACY_ALIAS))
  }

  /** What precedes a key in a path. */
  function Lead(segs: Segments): string {
    if segs == [] then "" else JoinPath(segs) + "."
  }

  lemma {:induction false} LeadClean(segs: Segments)
    requires Clean(segs)
    ensures '=' !in JoinPath(segs) && '=' !in Lead(segs)
    ensures segs != [] ==> JoinPath(segs) != "" && !IsWhitespace(Lead(segs)[0]) && !IsWhitespace(JoinPath(segs)[0])
  {
    hide IsWhitespace;
    if segs != [] {
      var n := |segs| - 1;
      assert segs == segs[..n] + [segs[n]];
      LeadClean(segs[..n]);
      if n > 0 {
        assert JoinPath(segs) == JoinPath(segs[..n]) + "." + segs[n];
        assert segs[..n][0] == segs[0];
      } else {
        assert segs[..n] == [];
        assert JoinPath(segs) == segs[0];
      }
    }
  }

  lemma SplitLead(segs: Segments, rest: string)
    requires Clean(segs)
    ensures SplitPath(Lead(segs) + rest) == segs + SplitPath(rest)
  {
    hide SplitPath, JoinPath;
    if segs == [] {
      assert Lead(segs) + rest == rest;
    } else {
      SplitJoin(segs);
      SplitDot(JoinPath(segs), rest);
    }
  }

  // ---- trimming ---------------------------------------------------------------

  lemma {:induction false} TrailingUnder(a: string, b: string)
    requires a != "" && !IsWhitespace(a[|a| - 1])
    ensures DropTrailing(a + b, IsWhitespace) == a + DropTrailing(b, IsWhitespace)
    decreases |b|
  {
    hide IsWhitespace;
    if b == "" {
      assert a + b == a;
    } else if IsWhitespace(b[|b| - 1]) {
      assert (a + b)[..|a + b| - 1] == a + b[..|b| - 1];
      TrailingUnder(a, b[..|b| - 1]);
    }
  }

  lemma {:induction false} LeadingOver(a: string, b: string)
    requires b != "" && !IsWhitespace(b[0])
    ensures DropLeading(a + b, IsWhitespace) == DropLeading(a, IsWhitespace) + b
  {
    hide IsWhitespace;
    if a == "" {
      assert a + b == b;
    } else if IsWhitespace(a[0]) {
      assert (a + b)[1..] == a[1..] + b;
      LeadingOver(a[1..], b);
    }
  }

  lemma DotIsNoBlank()
    ensures !IsWhitespace('.')
  {
  }

  // ---- what the receiver splits -----------------------------------------------

  function Cut(r: string): string {
    r[..IndexOf(r, '=')]
  }

  /** The part of a received path below arrived segments, before it is split. */
  function Remainder(segs: Segments, r: string): string {
    if segs == [] then CanonicalPath(Trim(Cut(r))) else DropTrailing(Cut(r), IsWhitespace)
  }

  lemma ReceivedBelow(segs: Segments, r: string)
    requires Clean(segs) && '=' in r && Receive(Lead(segs) + r).Ok?
    ensures Receive(Lead(segs) + r).value.0 == segs + SplitPath(Remainder(segs, r))
  {
    hide IsWhitespace, IndexOf, SplitPath, Trim, CanonicalPath, ParseOverrideValue, Remainder;
    var lead, s := Lead(segs), Lead(segs) + r;
    var i := IndexOf(r, '=');
    LeadClean(segs);
    IndexOfUnique(s, '=', |lead| + i);
    assert s[..|lead| + i] == lead + Cut(r);
    RemainderTrimmed(segs, r);
    SplitLead(segs, Remainder(segs, r));
  }

  /** Trimming and the alias act below arrived segments only. */
  lemma RemainderTrimmed(segs: Segments, r: string)
    requires Clean(segs)
    ensures CanonicalPath(Trim(Lead(segs) + Cut(r))) == Lead(segs) + Remainder(segs, r)
  {
    hide IsWhitespace, LEGACY_ALIAS, LEGACY_TARGET, Cut;
    var lead, cut := Lead(segs), Cut(r);
    LeadClean(segs);
    if segs == [] {
      assert lead + cut == cut;
      assert lead + Remainder(segs, r) == Remainder(segs, r);
    } else {
      DotIsNoBlank();
      TrailingUnder(lead, cut);
      var path := lead + Remainder(segs, r);
      assert DropLeading(lead + cut, IsWhitespace) == lead + cut;
      assert path[|lead| - 1] == '.';
      NotAlias(path, |lead| - 1);
    }
  }

  lemma NotAlias(path: string, i: nat)
    requires i < |path| && path[i] == '.'
    ensures path != LEGACY_ALIAS && CanonicalPath(path) == path
  {
    assert '.' !in LEGACY_ALIAS;
  }

  // ---- the first segment of the remainder -------------------------------------

  function Head(s: string): string {
    SplitPath(s)[0]
  }

  lemma HeadBound(s: string)
    ensures |Head(s)| <= |s|
    ensures '.' in s ==> |Head(s)| < |s|
    ensures '.' !in s ==> Head(s) == s
  {
    hide IndexOf;
  }

  lemma HeadOfDotted(a: string, b: string)
    ensures Head(a + "." + b) == Head(a)
  {
    hide SplitPath;
    SplitDot(a, b);
  }

  /** The alias leads to a shorter first segment. */
  lemma HeadCanonical(path: string)
    ensures |Head(CanonicalPath(path))| <= |path|
    ensures path == LEGACY_ALIAS ==> |Head(CanonicalPath(path))| < |path|
  {
    hide SplitPath;
    HeadBound(path);
    if path == LEGACY_ALIAS {
      assert LEGACY_TARGET == "features" + "." + "use_legacy_landlock";
      HeadOfDotted("features", "use_legacy_landlock");
      HeadBound("features");
    }
  }

  lemma CutKey(key: string, tail: string)
    requires tail != "" && (tail[0] == '=' || tail[0] == '.') && '=' in key + tail
    ensures '=' in key ==> |Cut(key + tail)| < |key|
    ensures '=' !in key && tail[0] == '=' ==> Cut(key + tail) == key
    ensures '=' !in key && tail[0] == '.' ==>
              |Cut(key + tail)| > |key| && Cut(key + tail) == key + "." + Cut(key + tail)[|key| + 1..]
  {
    hide IndexOf;
    var r := key + tail;
    if '=' in key {
      var i := IndexOf(key, '=');
      assert r[..i] == key[..i];
      IndexOfUnique(r, '=', i);
    } else if tail[0] == '=' {
      assert r[..|key|] == key;
      IndexOfUnique(r, '=', |key|);
    } else {
      var i := IndexOf(r, '=');
      assert r[..|key|] == key && r[|key|] == '.';
      assert forall j | 0 <= j < |key| :: r[j] == key[j] && r[j] != '=';
      assert Cut(r)[..|key|] == key && Cut(r)[|key|] == '.';
    }
  }

  /** A path that ends with the key: only blanks and the alias can change it, apart from dots. */
  lemma LeafHead(segs: Segments, e: Entry)
    requires e.key != "" && '=' !in e.key && !IsBranch(e.value)
    ensures var rest := if segs == [] then CanonicalPath(Trim(e.key)) else DropTrailing(e.key, IsWhitespace);
            && (KeyArrives(segs, e) ==> rest == e.key && Head(rest) == e.key)
            && (!KeyArrives(segs, e) ==> |Head(rest)| < |e.key|)
  {
    hide IsWhitespace, SplitPath, CanonicalPath, LEGACY_ALIAS, LEGACY_TARGET;
    var key := e.key;
    HeadBound(key);
    TrimMatchesKeeps(key, IsWhitespace);
    if segs == [] {
      HeadCanonical(Trim(key));
      CanonicalKeeps(Trim(key));
    } else {
      HeadBound(DropTrailing(key, IsWhitespace));
    }
  }

  /** A path that goes on after the key: only blanks in front of the first key can change it, apart from dots. */
  lemma BranchHead(segs: Segments, e: Entry, more: string)
    requires e.key != "" && '=' !in e.key && IsBranch(e.value)
    ensures var cut := e.key + "." + more;
            var rest := if segs == [] then CanonicalPath(Trim(cut)) else DropTrailing(cut, IsWhitespace);
            && (KeyArrives(segs, e) ==> Head(rest) == e.key)
            && (!KeyArrives(segs, e) ==> |Head(rest)| < |e.key|)
  {
    hide IsWhitespace, SplitPath, CanonicalPath, LEGACY_ALIAS, LEGACY_TARGET;
    var key, cut := e.key, e.key + "." + more;
    var front := if segs == [] then DropLeading(key, IsWhitespace) else key;
    DotIsNoBlank();
    assert cut == key + ("." + more);
    LeadingOver(key, "." + more);
    assert front + ("." + more) == front + "." + more;
    TrailingUnder(front + ".", more);
    var kept := DropTrailing(more, IsWhitespace);
    var rest := front + "." + kept;
    assert rest[|front|] == '.';
    NotAlias(rest, |front|);
    HeadOfDotted(front, kept);
    HeadBound(front);
    assert if segs == [] then Trim(cut) == rest else DropTrailing(cut, IsWhitespace) == rest;
  }

  /** A path received below arrived segments; its next segment is the key, or shorter than the key. */
  predicate HeadFits(segs: Segments, e: Entry, path: Segments)
    requires e.key != ""
  {
    && segs < path
    && if KeyArrives(segs, e) then path[|segs|] == e.key else |path[|segs|]| < |e.key|
  }

  lemma HeadReceived(segs: Segments, e: Entry, tail: string)
    requires Clean(segs) && e.key != ""
    requires tail != "" && tail[0] == (if IsBranch(e.value) then '.' else '=') && '=' in tail
    requires Receive(Lead(segs) + (e.key + tail)).Ok?
    ensures HeadFits(segs, e, Receive(Lead(segs) + (e.key + tail)).value.0)
  {
    hide Receive, SplitPath, Cut, IsWhitespace, Trim, CanonicalPath;
    var r := e.key + tail;
    ReceivedBelow(segs, r);
    CutKey(e.key, tail);
    var rest := Remainder(segs, r);
    if '=' in e.key {
      HeadCanonical(Trim(Cut(r)));
      HeadBound(rest);
    } else if IsBranch(e.value) {
      BranchHead(segs, e, Cut(r)[|e.key| + 1..]);
    } else {
      LeafHead(segs, e);
    }
    assert (segs + SplitPath(rest))[|segs|] == Head(rest);
  }

  // ---- the paths of one level -------------------------------------------------

  /** The string goes on after the path with the given character, and an equals sign follows. */
  predicate GoesOn(s: string, path: string, c: char) {
    |path| < |s| && s[..|path|] == path && s[|path|] == c && '=' in s[|path|..]
  }

  lemma GoesOnBelow(s: string, prefix: string, key: string, c: char)
    requires GoesOn(s, prefix + "." + key, c)
    ensures GoesOn(s, prefix, '.')
  {
    var path := prefix + "." + key;
    assert s[..|prefix|] == path[..|prefix|] == prefix;
    assert s[|prefix|] == path[|prefix|];
    assert s[|path|..] == s[|prefix|..][|path| - |prefix|..];
  }

  lemma {:induction false} FlattenGoesOn(v: Value, path: string, s: string)
    requires path != "" && Flatten(v, path).Ok? && s in Flatten(v, path).value
    ensures GoesOn(s, path, if IsBranch(v) then '.' else '=')
    decreases v, 1
  {
    hide Print;
    if IsBranch(v) {
      EntriesGoOn(v.entries, path, s);
    } else {
      LeafOverride(path, v);
      assert s[|path|..][0] == '=';
    }
  }

  lemma {:induction false} EntriesGoOn(entries: seq<Entry>, prefix: string, s: string)
    requires prefix != "" && FlattenEntries(entries, prefix).Ok? && s in FlattenEntries(entries, prefix).value
    ensures GoesOn(s, prefix, '.')
    decreases entries, 0
  {
    hide GoesOn, Flatten;
    var e := entries[0];
    var path := ChildPath(prefix, e.key);
    if s in Flatten(e.value, path).value {
      FlattenGoesOn(e.value, path, s);
      GoesOnBelow(s, prefix, e.key, if IsBranch(e.value) then '.' else '=');
    } else {
      EntriesGoOn(entries[1..], prefix, s);
    }
  }

  lemma {:induction false} ReceiveAllSplits(a: seq<string>, b: seq<string>)
    requires ReceiveAll(a + b).Ok?
    ensures ReceiveAll(a).Ok? && ReceiveAll(b).Ok? && ReceiveAll(a + b).value == ReceiveAll(a).value + ReceiveAll(b).value
  {
    hide Receive;
    if a == [] {
      assert a + b == b;
    } else {
      assert (a + b)[1..] == a[1..] + b;
      ReceiveAllSplits(a[1..], b);
    }
  }

  lemma {:induction false} ReceivedAt(overrides: seq<string>, j: nat)
    requires ReceiveAll(overrides).Ok? && j < |overrides|
    ensures Receive(overrides[j]) == Ok(ReceiveAll(overrides).value[j])
  {
    hide Receive;
    if j > 0 {
      ReceivedAt(overrides[1..], j - 1);
    }
  }

  /** Every path received for an entry fits that entry. */
  lemma EntryHeads(segs: Segments, e: Entry)
    requires Clean(segs) && e.key != ""
    requires var path := JoinPath(segs + [e.key]);
             Flatten(e.value, path).Ok? && ReceiveAll(Flatten(e.value, path).value).Ok?
    ensures var located := ReceiveAll(Flatten(e.value, JoinPath(segs + [e.key])).value).value;
            forall j | 0 <= j < |located| :: HeadFits(segs, e, located[j].0)
  {
    hide Receive, Flatten, HeadFits, JoinPath;
    var path := JoinPath(segs + [e.key]);
    var overrides := Flatten(e.value, path).value;
    JoinLead(segs, e.key);
    forall j | 0 <= j < |overrides| ensures HeadFits(segs, e, ReceiveAll(overrides).value[j].0) {
      var s := overrides[j];
      ReceivedAt(overrides, j);
      FlattenGoesOn(e.value, path, s);
      hide Lead;
      LeadTaken(Lead(segs), e.key, s);
      HeadReceived(segs, e, s[|path|..]);
    }
  }

  lemma LeadTaken(lead: string, key: string, s: string)
    requires |lead + key| <= |s| && s[..|lead + key|] == lead + key
    ensures s == lead + (key + s[|lead + key|..])
  {
    assert s == s[..|lead + key|] + s[|lead + key|..];
  }

  lemma JoinLead(segs: Segments, key: string)
    requires Clean(segs) && key != ""
    ensures JoinPath(segs + [key]) == Lead(segs) + key != ""
    ensures JoinPath(segs + [key]) == ChildPath(JoinPath(segs), key)
  {
    LeadClean(segs);
    assert (segs + [key])[..|segs|] == segs;
  }

  /** The overrides of a list of entries, in the two pieces of its first entry and the others. */
  lemma Pieces(segs: Segments, entries: seq<Entry>)
    requires Clean(segs) && entries != [] && FlattenEntries(entries, JoinPath(segs)).Ok?
    requires ReceiveAll(FlattenEntries(entries, JoinPath(segs)).value).Ok?
    ensures var e, path, prefix := entries[0], JoinPath(segs + [entries[0].key]), JoinPath(segs);
            && e.key != "" && Flatten(e.value, path).Ok? && FlattenEntries(entries[1..], prefix).Ok?
            && ReceiveAll(Flatten(e.value, path).value).Ok? && ReceiveAll(FlattenEntries(entries[1..], prefix).value).Ok?
            && ReceiveAll(FlattenEntries(entries, prefix).value).value
               == ReceiveAll(Flatten(e.value, path).value).value
                  + ReceiveAll(FlattenEntries(entries[1..], prefix).value).value
  {
    hide Flatten, ReceiveAll, JoinPath;
    var e, prefix := entries[0], JoinPath(segs);
    JoinLead(segs, e.key);
    ReceiveAllSplits(Flatten(e.value, ChildPath(prefix, e.key)).value, FlattenEntries(entries[1..], prefix).value);
  }

  predicate SomeHeadFits(segs: Segments, entries: seq<Entry>, path: Segments) {
    exists i :: 0 <= i < |entries| && entries[i].key != "" && HeadFits(segs, entries[i], path)
  }

  /** Everything received for a list of entries. */
  function Received(segs: Segments, entries: seq<Entry>): seq<Located>
    requires FlattenEntries(entries, JoinPath(segs)).Ok?
    requires ReceiveAll(FlattenEntries(entries, JoinPath(segs)).value).Ok?
  {
    ReceiveAll(FlattenEntries(entries, JoinPath(segs)).value).value
  }

  lemma FirstHeadFits(segs: Segments, entries: seq<Entry>, path: Segments)
    requires entries != [] && entries[0].key != "" && HeadFits(segs, entries[0], path)
    ensures segs < path && SomeHeadFits(segs, entries, path)
  {
    hide KeyArrives;
  }

  lemma LaterHeadFits(segs: Segments, entries: seq<Entry>, path: Segments)
    requires entries != [] && SomeHeadFits(segs, entries[1..], path)
    ensures SomeHeadFits(segs, entries, path)
  {
    hide HeadFits;
    var rest := entries[1..];
    var i :| 0 <= i < |rest| && rest[i].key != "" && HeadFits(segs, rest[i], path);
    assert entries[i + 1] == rest[i];
  }

  lemma {:induction false} HeadsFit(segs: Segments, entries: seq<Entry>)
    requires Clean(segs) && FlattenEntries(entries, JoinPath(segs)).Ok?
    requires ReceiveAll(FlattenEntries(entries, JoinPath(segs)).value).Ok?
    ensures forall j | 0 <= j < |Received(segs, entries)| ::
              segs < Received(segs, entries)[j].0 && SomeHeadFits(segs, entries, Received(segs, entries)[j].0)
    ensures forall i | 0 <= i < |entries| :: entries[i].key != ""
  {
    hide Flatten, JoinPath, KeyArrives, HeadFits, SomeHeadFits;
    if entries != [] {
      hide ReceiveAll, FlattenEntries, Clean;
      var e, rest := entries[0], entries[1..];
      Pieces(segs, entries);
      EntryHeads(segs, e);
      HeadsFit(segs, rest);
      HeadsFitAll(segs, entries, ReceiveAll(Flatten(e.value, JoinPath(segs + [e.key])).value).value, Received(segs, rest));
      KeysNamed(entries);
    }
  }

  lemma HeadsFitAll(segs: Segments, entries: seq<Entry>, mine: seq<Located>, others: seq<Located>)
    requires entries != [] && entries[0].key != ""
    requires forall j | 0 <= j < |mine| :: HeadFits(segs, entries[0], mine[j].0)
    requires forall j | 0 <= j < |others| :: segs < others[j].0 && SomeHeadFits(segs, entries[1..], others[j].0)
    ensures forall j | 0 <= j < |mine + others| ::
              segs < (mine + others)[j].0 && SomeHeadFits(segs, entries, (mine + others)[j].0)
  {
    hide HeadFits, SomeHeadFits;
    forall j | 0 <= j < |mine + others|
      ensures segs < (mine + others)[j].0 && SomeHeadFits(segs, entries, (mine + others)[j].0)
    {
      if j < |mine| {
        FirstHeadFits(segs, entries, mine[j].0);
      } else {
        LaterHeadFits(segs, entries, others[j - |mine|].0);
      }
    }
  }

  lemma KeysNamed(entries: seq<Entry>)
    requires entries != [] && entries[0].key != "" && forall i | 0 <= i < |entries[1..]| :: entries[1..][i].key != ""
    ensures forall i | 0 <= i < |entries| :: entries[i].key != ""
  {
    forall i | 0 <= i < |entries| ensures entries[i].key != "" {
      assert i > 0 ==> entries[i] == entries[1..][i - 1];
    }
  }

  // ---- the keys of the table built --------------------------------------------

  /** Received paths, seen from below the given number of segments. */
  predicate Deep(n: nat, located: seq<Located>) {
    forall j | 0 <= j < |located| :: |located[j].0| > n
  }

  function Below(n: nat, located: seq<Located>): (r: seq<Located>)
    requires Deep(n, located)
    ensures |r| == |located| && Rooted(r)
  {
    seq(|located|, j requires 0 <= j < |located| => (located[j].0[n..], located[j].1))
  }

  function Heads(located: seq<Located>): set<string>
    requires Rooted(located)
  {
    set j | 0 <= j < |located| :: located[j].0[0]
  }

  lemma HeadsCons(located: seq<Located>)
    requires Rooted(located) && located != []
    ensures Heads(located) == {located[0].0[0]} + Heads(located[1..])
  {
    forall x | x in Heads(located) ensures x in {located[0].0[0]} + Heads(located[1..]) {
      var j :| 0 <= j < |located| && located[j].0[0] == x;
      assert j > 0 ==> located[1..][j - 1] == located[j];
    }
    forall x | x in Heads(located[1..]) ensures x in Heads(located) {
      var j :| 0 <= j < |located[1..]| && located[1..][j].0[0] == x;
      assert located[j + 1] == located[1..][j];
    }
  }

  lemma {:induction false} BuiltKeys(table: map<string, Toml>, traversed: Segments, located: seq<Located>, merge: Merge)
    requires Rooted(located)
    ensures ApplyAll(Table(table), traversed, located, merge).entries.Keys == table.Keys + Heads(located)
    decreases |located|
  {
    if located != [] {
      hide Apply, ApplyAll, Heads;
      var next := Apply(Table(table), traversed, located[0].0, located[0].1, merge);
      ApplyOne(table, traversed, located, merge);
      BuiltKeys(next.entries, traversed, located[1..], merge);
      HeadsCons(located);
    }
  }

  lemma ApplyOne(table: map<string, Toml>, traversed: Segments, located: seq<Located>, merge: Merge)
    requires Rooted(located) && located != []
    ensures var next := Apply(Table(table), traversed, located[0].0, located[0].1, merge);
            && next.entries.Keys == table.Keys + {located[0].0[0]}
            && (forall k | k in table && k != located[0].0[0] :: next.entries[k] == table[k])
            && Rooted(located[1..])
            && ApplyAll(Table(table), traversed, located, merge)
               == ApplyAll(Table(next.entries), traversed, located[1..], merge)
  {
    hide IsStructuredFeaturePath;
  }

  /** A key that no path leads to keeps its value. */
  lemma {:induction false} OthersKept(table: map<string, Toml>, traversed: Segments, located: seq<Located>, merge: Merge, key: string)
    requires Rooted(located) && key in table && forall j | 0 <= j < |located| :: located[j].0[0] != key
    ensures key in ApplyAll(Table(table), traversed, located, merge).entries
    ensures ApplyAll(Table(table), traversed, located, merge).entries[key] == table[key]
    decreases |located|
  {
    if located != [] {
      hide Apply, ApplyAll;
      ApplyOne(table, traversed, located, merge);
      var next := Apply(Table(table), traversed, located[0].0, located[0].1, merge);
      OthersKept(next.entries, traversed, located[1..], merge, key);
    }
  }

  // ---- every key arrives ------------------------------------------------------

  function LongestKey(entries: seq<Entry>): (n: nat)
    ensures forall i | 0 <= i < |entries| :: |entries[i].key| <= n
  {
    if entries == [] then 0
    else
      var rest := LongestKey(entries[1..]);
      assert forall i | 0 < i < |entries| :: entries[i] == entries[1..][i - 1];
      if |entries[0].key| > rest then |entries[0].key| else rest
  }

  lemma {:induction false} DistinctAt(entries: seq<Entry>, i: nat, j: nat)
    requires DistinctKeysEntries(entries) && i < j < |entries|
    ensures entries[i].key != entries[j].key
  {
    if i == 0 {
      assert entries[1..][j - 1] == entries[j];
      assert entries[j].key in Keys(entries[1..]);
    } else {
      DistinctAt(entries[1..], i - 1, j - 1);
    }
  }

  /**
   * If every key of the entries is the next segment of some received path, every key
   * arrives: the path that leads to a key that does not arrive belongs to a longer one.
   */
  lemma {:induction false} KeyForced(segs: Segments, entries: seq<Entry>, located: seq<Located>, i: nat)
    requires DistinctKeysEntries(entries) && i < |entries| && Deep(|segs|, located)
    requires forall k | 0 <= k < |entries| :: entries[k].key != "" && entries[k].key in Heads(Below(|segs|, located))
    requires forall j | 0 <= j < |located| :: SomeHeadFits(segs, entries, located[j].0)
    ensures KeyArrives(segs, entries[i])
    decreases LongestKey(entries) - |entries[i].key|
  {
    hide KeyArrives;
    var key := entries[i].key;
    if !KeyArrives(segs, entries[i]) {
      assert key in Heads(Below(|segs|, located));
      var j :| 0 <= j < |located| && located[j].0[|segs|] == key;
      var k :| 0 <= k < |entries| && entries[k].key != "" && HeadFits(segs, entries[k], located[j].0);
      if KeyArrives(segs, entries[k]) {
        if k < i { DistinctAt(entries, k, i); }
        if i < k { DistinctAt(entries, i, k); }
      } else {
        KeyForced(segs, entries, located, k);
      }
    }
  }

  predicate KeysArrive(segs: Segments, entries: seq<Entry>) {
    forall i | 0 <= i < |entries| :: entries[i].key != "" && KeyArrives(segs, entries[i])
  }

  lemma CleanChild(segs: Segments, e: Entry)
    requires Clean(segs) && e.key != "" && KeyArrives(segs, e)
    ensures Clean(segs + [e.key])
    ensures !IsBranch(e.value) ==> PathArrives(segs + [e.key])
  {
    hide IsWhitespace, JoinPath;
    var here := segs + [e.key];
    assert Clean(here);
    LeadClean(here);
    if !IsBranch(e.value) {
      var path := JoinPath(here);
      JoinLead(segs, e.key);
      assert path[|path| - 1] == e.key[|e.key| - 1];
      TrimMatchesKeeps(path, IsWhitespace);
      if segs != [] {
        NotAlias(path, |Lead(segs)| - 1);
      } else {
        assert path == e.key;
      }
    }
  }

  // ---- every literal arrives --------------------------------------------------

  lemma LeafLocated(segs: Segments, e: Entry)
    requires Clean(segs) && e.key != "" && KeyArrives(segs, e) && !IsBranch(e.value)
    requires Flatten(e.value, JoinPath(segs + [e.key])).Ok?
    ensures Print(e.value).Ok?
    ensures ReceiveAll(Flatten(e.value, JoinPath(segs + [e.key])).value)
         == Ok([(segs + [e.key], ParseOverrideValue(Trim(Print(e.value).value)))])
  {
    hide Print, ParseOverrideValue, PathArrives, Trim, ParseOverride, SplitPath, JoinPath, Flatten, LEGACY_ALIAS, LEGACY_TARGET, IsWhitespace;
    var here := segs + [e.key];
    var path := JoinPath(here);
    JoinLead(segs, e.key);
    CleanChild(segs, e);
    LeafOverride(path, e.value);
    var literal := Print(e.value).value;
    var s := path + "=" + literal;
    PathReceived(path, literal);
    PathFacts(here);
    SplitJoin(here);
    assert Receive(s) == Ok((here, ParseOverrideValue(Trim(literal))));
    ReceiveOne(s);
  }

  lemma ReceiveOne(s: string)
    requires Receive(s).Ok?
    ensures ReceiveAll([s]) == Ok([Receive(s).value])
  {
    hide Receive;
    assert [s][1..] == [];
    assert [Receive(s).value] + [] == [Receive(s).value];
  }

  lemma PathFacts(segs: Segments)
    requires PathArrives(segs)
    ensures var path := JoinPath(segs);
            '=' !in path && Trim(path) == path && CanonicalPath(path) == path
  {
  }

  /** All received paths start with the given segments and go on. */
  predicate AllUnder(segs: Segments, located: seq<Located>) {
    forall j | 0 <= j < |located| :: segs < located[j].0
  }

  lemma BelowSplits(n: nat, a: seq<Located>, b: seq<Located>)
    requires Deep(n, a + b)
    ensures Deep(n, a) && Deep(n, b) && Below(n, a + b) == Below(n, a) + Below(n, b)
  {
    assert forall j | 0 <= j < |a| :: (a + b)[j] == a[j];
    assert forall j | 0 <= j < |b| :: (a + b)[|a| + j] == b[j];
  }

  lemma BelowChild(segs: Segments, key: string, located: seq<Located>)
    requires AllUnder(segs + [key], located)
    ensures Deep(|segs|, located) && Deep(|segs| + 1, located)
    ensures Below(|segs|, located) == Prepend([key], Below(|segs| + 1, located))
  {
    forall j | 0 <= j < |located|
      ensures Below(|segs|, located)[j] == Prepend([key], Below(|segs| + 1, located))[j]
    {
      var path := located[j].0;
      assert path[..|segs| + 1] == segs + [key];
      assert path[|segs|..] == [key] + path[|segs| + 1..];
    }
  }

  /** A table built for entries whose keys all arrive holds, for each, what was received for it alone. */
  lemma FirstBuilt(segs: Segments, entries: seq<Entry>, table: map<string, Toml>, merge: Merge, mine: seq<Located>, others: seq<Located>, value: Toml)
    requires entries != [] && entries[0].key != "" && KeyArrives(segs, entries[0]) && DistinctKeysEntries(entries)
    requires Deep(|segs|, mine + others) && Deep(|segs|, mine) && Deep(|segs|, others)
    requires KeysArrive(segs, entries)
    requires forall j | 0 <= j < |others| :: SomeHeadFits(segs, entries[1..], others[j].0)
    requires ApplyAll(Table(table), segs, Below(|segs|, mine), merge) == Table(table[entries[0].key := value])
    requires table.Keys !! Keys(entries)
    requires ApplyAll(Table(table), segs, Below(|segs|, mine + others), merge) == Table(table + MeaningEntries(entries))
    ensures value == Meaning(entries[0].value)
    ensures var next := table[entries[0].key := value];
            ApplyAll(Table(next), segs, Below(|segs|, others), merge) == Table(next + MeaningEntries(entries[1..]))
  {
    hide ApplyAll, Meaning, KeyArrives;
    var key, next := entries[0].key, table[entries[0].key := value];
    BelowSplits(|segs|, mine, others);
    ApplyAllAppend(Table(table), segs, Below(|segs|, mine), Below(|segs|, others), merge);
    forall j | 0 <= j < |others| ensures Below(|segs|, others)[j].0[0] != key {
      var k :| 0 <= k < |entries[1..]| && entries[1..][k].key != "" && HeadFits(segs, entries[1..][k], others[j].0);
      assert entries[1..][k] == entries[k + 1];
      DistinctAt(entries, 0, k + 1);
    }
    OthersKept(next, segs, Below(|segs|, others), merge, key);
    assert (table + MeaningEntries(entries))[key] == Meaning(entries[0].value);
    MeaningExtends(table, entries);
  }

  lemma {:induction false} SomethingSent(v: Value, path: string)
    requires path != "" && Flatten(v, path).Ok?
    ensures Flatten(v, path).value != []
  {
    hide Print;
    if IsBranch(v) {
      SomethingSent(v.entries[0].value, ChildPath(path, v.entries[0].key));
    }
  }

  /** What was received for one entry alone amounts to. */
  function EntryValue(segs: Segments, e: Entry, mine: seq<Located>, merge: Merge): Toml
    requires mine != [] && (IsBranch(e.value) ==> Deep(|segs| + 1, mine))
  {
    if IsBranch(e.value) then ApplyAll(Table(map[]), segs + [e.key], Below(|segs| + 1, mine), merge) else mine[0].1
  }

  function EntryReceived(segs: Segments, e: Entry): seq<Located>
    requires Flatten(e.value, JoinPath(segs + [e.key])).Ok?
    requires ReceiveAll(Flatten(e.value, JoinPath(segs + [e.key])).value).Ok?
  {
    ReceiveAll(Flatten(e.value, JoinPath(segs + [e.key])).value).value
  }

  lemma BranchReceived(segs: Segments, e: Entry)
    requires Clean(segs) && e.key != "" && KeyArrives(segs, e) && IsBranch(e.value)
    requires var path := JoinPath(segs + [e.key]);
             Flatten(e.value, path).Ok? && ReceiveAll(Flatten(e.value, path).value).Ok?
    ensures FlattenEntries(e.value.entries, JoinPath(segs + [e.key])) == Flatten(e.value, JoinPath(segs + [e.key]))
    ensures EntryReceived(segs, e) == Received(segs + [e.key], e.value.entries)
    ensures EntryReceived(segs, e) != [] && AllUnder(segs + [e.key], EntryReceived(segs, e))
    ensures Deep(|segs| + 1, EntryReceived(segs, e))
  {
    hide ReceiveAll, FlattenEntries, KeyArrives, JoinPath, Clean;
    var here := segs + [e.key];
    CleanChild(segs, e);
    JoinLead(segs, e.key);
    HeadsFit(here, e.value.entries);
    SomethingSent(e.value, JoinPath(here));
  }

  lemma EntryBuilt(segs: Segments, e: Entry, table: map<string, Toml>, merge: Merge)
    requires Clean(segs) && e.key != "" && KeyArrives(segs, e) && e.key !in table
    requires var path := JoinPath(segs + [e.key]);
             Flatten(e.value, path).Ok? && ReceiveAll(Flatten(e.value, path).value).Ok?
    ensures var mine := EntryReceived(segs, e);
            && mine != [] && Deep(|segs|, mine) && (IsBranch(e.value) ==> Deep(|segs| + 1, mine))
            && ApplyAll(Table(table), segs, Below(|segs|, mine), merge)
               == Table(table[e.key := EntryValue(segs, e, mine, merge)])
  {
    hide ApplyAll, ReceiveAll, Flatten, FlattenEntries, KeyArrives, JoinPath, Clean, ParseOverrideValue, Print;
    var mine := EntryReceived(segs, e);
    if IsBranch(e.value) {
      BranchReceived(segs, e);
      BelowChild(segs, e.key, mine);
      ApplyAllUnder(table, segs, e.key, Below(|segs| + 1, mine), merge);
    } else {
      LeafLocated(segs, e);
      assert (segs + [e.key])[|segs|..] == [e.key];
      assert Below(|segs|, mine) == [([e.key], mine[0].1)];
      LeafApplied(table, segs, e.key, mine[0].1, merge);
    }
  }

  lemma RestDisjoint(table: map<string, Toml>, entries: seq<Entry>, value: Toml)
    requires entries != [] && DistinctKeysEntries(entries) && table.Keys !! Keys(entries)
    ensures entries[0].key !in table && table[entries[0].key := value].Keys !! Keys(entries[1..])
  {
    assert entries[0].key in Keys(entries);
    assert forall e | e in entries[1..] :: e in entries;
    assert Keys(entries[1..]) <= Keys(entries);
  }

  /** A layer that equals the entries' own table forces every path and literal to arrive. */
  lemma {:induction false} LayerForces(segs: Segments, entries: seq<Entry>, merge: Merge)
    requires Clean(segs) && DistinctKeysEntries(entries) && FlattenEntries(entries, JoinPath(segs)).Ok?
    requires ReceiveAll(FlattenEntries(entries, JoinPath(segs)).value).Ok?
    requires Deep(|segs|, Received(segs, entries))
    requires ApplyAll(Table(map[]), segs, Below(|segs|, Received(segs, entries)), merge) == Table(MeaningEntries(entries))
    ensures AllArrive(segs, entries)
    decreases entries, 1
  {
    hide ApplyAll, AllArrive, FlattenEntries, ReceiveAll, KeyArrives, MeaningEntries, JoinPath, Clean;
    var located := Received(segs, entries);
    HeadsFit(segs, entries);
    BuiltKeys(map[], segs, Below(|segs|, located), merge);
    forall i | 0 <= i < |entries| ensures KeyArrives(segs, entries[i]) {
      assert forall k | 0 <= k < |entries| :: entries[k].key in Keys(entries);
      KeyForced(segs, entries, located, i);
    }
    assert map[] + MeaningEntries(entries) == MeaningEntries(entries);
    EntriesForce(segs, entries, map[], merge);
  }

  /** The entries from some key on have been received, and what they build is their own table. */
  ghost predicate Rebuilt(segs: Segments, entries: seq<Entry>, table: map<string, Toml>, merge: Merge) {
    && FlattenEntries(entries, JoinPath(segs)).Ok? && ReceiveAll(FlattenEntries(entries, JoinPath(segs)).value).Ok?
    && table.Keys !! Keys(entries) && Deep(|segs|, Received(segs, entries))
    && ApplyAll(Table(table), segs, Below(|segs|, Received(segs, entries)), merge) == Table(table + MeaningEntries(entries))
  }

  /** One entry's received value is its meaning. */
  ghost predicate EntryMeans(segs: Segments, e: Entry, merge: Merge) {
    && Flatten(e.value, JoinPath(segs + [e.key])).Ok? && ReceiveAll(Flatten(e.value, JoinPath(segs + [e.key])).value).Ok?
    && var mine := EntryReceived(segs, e);
       && mine != [] && (IsBranch(e.value) ==> Deep(|segs| + 1, mine))
       && EntryValue(segs, e, mine, merge) == Meaning(e.value)
  }

  lemma FirstForced(segs: Segments, entries: seq<Entry>, table: map<string, Toml>, merge: Merge)
    requires entries != [] && Clean(segs) && DistinctKeysEntries(entries) && KeysArrive(segs, entries)
    requires Rebuilt(segs, entries, table, merge)
    ensures EntryMeans(segs, entries[0], merge)
    ensures Rebuilt(segs, entries[1..], table[entries[0].key := Meaning(entries[0].value)], merge)
  {
    hide ApplyAll, FlattenEntries, Flatten, ReceiveAll, KeyArrives, MeaningEntries, JoinPath, Clean, Print, ParseOverrideValue, Meaning, Below, HeadFits;
    var e, rest := entries[0], entries[1..];
    assert KeyArrives(segs, e);
    Pieces(segs, entries);
    HeadsFit(segs, rest);
    HeadsFit(segs, entries);
    var mine, others := EntryReceived(segs, e), Received(segs, rest);
    RestDisjoint(table, entries, Meaning(e.value));
    EntryBuilt(segs, e, table, merge);
    BelowSplits(|segs|, mine, others);
    FirstBuilt(segs, entries, table, merge, mine, others, EntryValue(segs, e, mine, merge));
  }

  lemma {:induction false} EntriesForce(segs: Segments, entries: seq<Entry>, table: map<string, Toml>, merge: Merge)
    requires Clean(segs) && DistinctKeysEntries(entries) && KeysArrive(segs, entries)
    requires Rebuilt(segs, entries, table, merge)
    ensures AllArrive(segs, entries)
    decreases entries, 0
  {
    hide Rebuilt, EntryMeans, KeyArrives, Clean, PathArrives, Arrives, Meaning;
    if entries != [] {
      var e, rest := entries[0], entries[1..];
      assert KeyArrives(segs, e);
      CleanChild(segs, e);
      FirstForced(segs, entries, table, merge);
      EntryForced(segs, e, merge);
      assert KeysArrive(segs, rest) by { assert forall i | 0 <= i < |rest| :: rest[i] == entries[i + 1]; }
      EntriesForce(segs, rest, table[e.key := Meaning(e.value)], merge);
    }
  }

  lemma {:induction false} EntryForced(segs: Segments, e: Entry, merge: Merge)
    requires Clean(segs) && e.key != "" && KeyArrives(segs, e) && DistinctKeys(e.value)
    requires EntryMeans(segs, e, merge)
    ensures if IsBranch(e.value) then AllArrive(segs + [e.key], e.value.entries)
            else PathArrives(segs + [e.key]) && Arrives(e.value)
    decreases e.value
  {
    hide ApplyAll, ReceiveAll, Flatten, FlattenEntries, KeyArrives, JoinPath, Clean, ParseOverrideValue, Print, PathArrives, Arrives;
    CleanChild(segs, e);
    if IsBranch(e.value) {
      BranchReceived(segs, e);
      LayerForces(segs + [e.key], e.value.entries, merge);
    } else {
      LeafLocated(segs, e);
      LiteralArrives(e.value);
    }
  }

  // ---- the theorem ------------------------------------------------------------

  /**
   * A configuration reaches the program unchanged if and only if every path and every
   * literal arrives, whatever the feature merge does.
   */
  lemma ConfigurationArrives(config: Value, merge: Merge)
    requires config.Obj? && DistinctKeys(config) && Flatten(config, "").Ok?
    ensures BuildLayer(Flatten(config, "").value, merge) == Ok(Meaning(config)) <==> AllArrive([], config.entries)
  {
    hide ApplyAll, ReceiveAll, FlattenEntries, AllArrive, MeaningEntries;
    ConfigurationRebuilt(config, merge);
    var entries, overrides := config.entries, Flatten(config, "").value;
    if BuildLayer(overrides, merge) == Ok(Meaning(config)) {
      assert JoinPath([]) == "";
      assert FlattenEntries(entries, "") == Ok(overrides) by { NothingFlattened(""); }
      var located := Received([], entries);
      HeadsFit([], entries);
      assert Deep(0, located);
      assert Below(0, located) == located;
      LayerForces([], entries, merge);
    }
  }

  /** In particular a dot or an equals sign in any top-level key is enough to lose the configuration. */
  lemma SpecialKeyIsLost(config: Value, merge: Merge, i: nat)
    requires config.Obj? && DistinctKeys(config) && Flatten(config, "").Ok?
    requires i < |config.entries| && ('.' in config.entries[i].key || '=' in config.entries[i].key)
    ensures BuildLayer(Flatten(config, "").value, merge) != Ok(Meaning(config))
  {
    hide BuildLayer, Flatten, Meaning;
    ConfigurationArrives(config, merge);
    SpecialKeyFails([], config.entries, i);
  }

  lemma {:induction false} SpecialKeyFails(segs: Segments, entries: seq<Entry>, i: nat)
    requires i < |entries| && ('.' in entries[i].key || '=' in entries[i].key)
    ensures !AllArrive(segs, entries)
    decreases entries, 0
  {
    hide PathArrives, Arrives;
    var e := entries[0];
    if i > 0 {
      SpecialKeyFails(segs, entries[1..], i - 1);
    } else if IsBranch(e.value) {
      SpecialSegmentFails(segs + [e.key], e.value.entries, |segs|);
    } else {
      SpecialPathFails(segs + [e.key], |segs|);
    }
  }

  lemma {:induction false} SpecialSegmentFails(segs: Segments, entries: seq<Entry>, k: nat)
    requires entries != [] && k < |segs| && ('.' in segs[k] || '=' in segs[k])
    ensures !AllArrive(segs, entries)
    decreases entries
  {
    hide PathArrives, Arrives;
    var e := entries[0];
    if IsBranch(e.value) {
      SpecialSegmentFails(segs + [e.key], e.value.entries, k);
    } else {
      SpecialPathFails(segs + [e.key], k);
    }
  }

  lemma {:induction false} SpecialPathFails(segs: Segments, k: nat)
    requires k < |segs| && ('.' in segs[k] || '=' in segs[k])
    ensures !PathArrives(segs)
  {
    if '.' !in segs[k] {
      InPath(segs, k, '=');
    }
  }

  lemma {:induction false} InPath(segs: Segments, k: nat, c: char)
    requires k < |segs| && c in segs[k]
    ensures c in JoinPath(segs)
  {
    var n := |segs| - 1;
    if k < n {
      InPath(segs[..n], k, c);
    }
  }
}
