/** Which configurations cannot be sent and with which error, and which overrides are not understood. */
module ConfigErrors {
  import opened Wrappers
  import opened TomlLiterals
  import opened ConfigOverrides

  // ---- the sender -------------------------------------------------------------

  /** Everything wrong with a value, in the order in which it is met. */
  function Problems(v: Value): seq<PrintError>
    decreases v, 1
  {
    match v
    case NonFinite => [NotFinite]
    case Null => [NullValue]
    case Arr(items) => ItemProblems(items)
    case Obj(entries) => EntryProblems(entries)
    case _ => []
  }

  function ItemProblems(items: seq<Value>): seq<PrintError>
    decreases items, 0
  {
    if items == [] then [] else Problems(items[0]) + ItemProblems(items[1..])
  }

  function EntryProblems(entries: seq<Entry>): seq<PrintError>
    decreases entries, 0
  {
    if entries == [] then []
    else (if entries[0].key == "" then [EmptyKey] else []) + Problems(entries[0].value) + EntryProblems(entries[1..])
  }

  ghost predicate FirstProblem<T>(r: Result<T, PrintError>, problems: seq<PrintError>) {
    if problems == [] then r.Ok? else r == Err(problems[0])
  }

  /** A value prints exactly when nothing is wrong with it; otherwise the first thing wrong is thrown. */
  lemma {:induction false} PrintFails(v: Value)
    ensures FirstProblem(Print(v), Problems(v))
    decreases v, 1
  {
    match v
    case Arr(items) => ItemsFail(items);
    case Obj(entries) => EntriesFail(entries);
    case _ =>
  }

  lemma {:induction false} ItemsFail(items: seq<Value>)
    ensures FirstProblem(PrintItems(items), ItemProblems(items))
    decreases items, 0
  {
    hide Print, Problems;
    if items != [] {
      PrintFails(items[0]);
      ItemsFail(items[1..]);
    }
  }

  lemma {:induction false} EntriesFail(entries: seq<Entry>)
    ensures FirstProblem(PrintEntries(entries), EntryProblems(entries))
    decreases entries, 0
  {
    hide Print, Problems, PrintKey;
    if entries != [] {
      PrintFails(entries[0].value);
      EntriesFail(entries[1..]);
    }
  }

  lemma {:induction false} FlattenFails(v: Value, prefix: string)
    requires prefix != ""
    ensures FirstProblem(Flatten(v, prefix), Problems(v))
    decreases v, 1
  {
    hide Print;
    if v.Obj? {
      FlattenEntriesFails(v.entries, prefix);
    } else {
      PrintFails(v);
    }
  }

  lemma {:induction false} FlattenEntriesFails(entries: seq<Entry>, prefix: string)
    ensures FirstProblem(FlattenEntries(entries, prefix), EntryProblems(entries))
    decreases entries, 0
  {
    hide Flatten, Problems;
    if entries != [] && entries[0].key != "" {
      FlattenFails(entries[0].value, ChildPath(prefix, entries[0].key));
      FlattenEntriesFails(entries[1..], prefix);
    }
  }

  /** A configuration is sent exactly when it is an object with nothing wrong in it; otherwise the first error is thrown. */
  lemma ConfigurationFails(config: Value)
    ensures config.Obj? ==> FirstProblem(Flatten(config, ""), Problems(config))
    ensures !config.Obj? ==> Flatten(config, "") == Err(NotPlainObject)
  {
    hide FlattenEntries, EntryProblems;
    if config.Obj? {
      FlattenEntriesFails(config.entries, "");
      NoProblems();
    }
  }

  lemma NoProblems()
    ensures EntryProblems([]) == []
  {
  }

  // ---- the receiver -----------------------------------------------------------

  predicate AllOf(s: string, drop: char -> bool) {
    forall i | 0 <= i < |s| :: drop(s[i])
  }

  /** The text without what is dropped at either end. */
  ghost predicate IsTrimmed(s: string, drop: char -> bool, r: string) {
    && (r == "" || (!drop(r[0]) && !drop(r[|r| - 1])))
    && exists a, b :: AllOf(a, drop) && AllOf(b, drop) && s == a + r + b
  }

  lemma {:induction false} LeadingDropped(s: string, drop: char -> bool)
    ensures exists a :: AllOf(a, drop) && s == a + DropLeading(s, drop)
  {
    if s != "" && drop(s[0]) {
      LeadingDropped(s[1..], drop);
      var a :| AllOf(a, drop) && s[1..] == a + DropLeading(s[1..], drop);
      assert AllOf([s[0]] + a, drop) && s == [s[0]] + a + DropLeading(s, drop);
    } else {
      assert AllOf("", drop) && s == "" + DropLeading(s, drop);
    }
  }

  lemma {:induction false} TrailingDropped(s: string, drop: char -> bool)
    ensures exists b :: AllOf(b, drop) && s == DropTrailing(s, drop) + b
  {
    if s != "" && drop(s[|s| - 1]) {
      var t := s[..|s| - 1];
      TrailingDropped(t, drop);
      var b :| AllOf(b, drop) && t == DropTrailing(t, drop) + b;
      assert AllOf(b + [s[|s| - 1]], drop) && s == DropTrailing(s, drop) + (b + [s[|s| - 1]]);
    } else {
      assert AllOf("", drop) && s == DropTrailing(s, drop) + "";
    }
  }

  lemma TrimmedSo(s: string, drop: char -> bool)
    ensures IsTrimmed(s, drop, TrimMatches(s, drop))
  {
    hide DropLeading, DropTrailing, AllOf;
    LeadingDropped(s, drop);
    var a :| AllOf(a, drop) && s == a + DropLeading(s, drop);
    TrailingDropped(DropLeading(s, drop), drop);
    var b :| AllOf(b, drop) && DropLeading(s, drop) == TrimMatches(s, drop) + b;
    assert s == a + TrimMatches(s, drop) + b;
  }

  /** Nothing else is the trimmed text. */
  lemma {:induction false} TrimmedOnce(s: string, drop: char -> bool, r: string)
    requires IsTrimmed(s, drop, r)
    ensures TrimMatches(s, drop) == r
  {
    var a, b :| AllOf(a, drop) && AllOf(b, drop) && s == a + r + b;
    assert s == a + (r + b);
    LeadingAll(a, r + b, drop);
    if r == "" {
      assert r + b == b;
      LeadingNone(b, drop);
    } else {
      assert DropLeading(r + b, drop) == r + b;
      TrailingAll(r, b, drop);
    }
  }

  lemma {:induction false} LeadingAll(a: string, s: string, drop: char -> bool)
    requires AllOf(a, drop)
    ensures DropLeading(a + s, drop) == DropLeading(s, drop)
    decreases |a|
  {
    if a == "" {
      assert a + s == s;
    } else {
      assert (a + s)[1..] == a[1..] + s;
      LeadingAll(a[1..], s, drop);
    }
  }

  lemma LeadingNone(b: string, drop: char -> bool)
    requires AllOf(b, drop)
    ensures DropLeading(b, drop) == ""
  {
    LeadingAll(b, "", drop);
    assert b + "" == b;
  }

  lemma {:induction false} TrailingAll(s: string, b: string, drop: char -> bool)
    requires AllOf(b, drop) && (s == "" || !drop(s[|s| - 1]))
    ensures DropTrailing(s + b, drop) == s
    decreases |b|
  {
    if b == "" {
      assert s + b == s;
    } else {
      assert (s + b)[..|s + b| - 1] == s + b[..|b| - 1];
      TrailingAll(s, b[..|b| - 1], drop);
    }
  }

  /** Trimming takes off exactly what is to be dropped at either end. */
  lemma TrimMeans(s: string, drop: char -> bool, r: string)
    ensures IsTrimmed(s, drop, r) <==> r == TrimMatches(s, drop)
  {
    hide IsTrimmed, TrimMatches;
    TrimmedSo(s, drop);
    if IsTrimmed(s, drop, r) {
      TrimmedOnce(s, drop, r);
    }
  }

  /**
   * An override is a path and a value around its first equals sign, both without the blanks
   * at their ends; it is refused without such a sign, and then without a path.
   */
  lemma OverrideMeans(s: string)
    ensures '=' !in s ==> ParseOverride(s) == Err(MissingEquals)
    ensures forall before, after, path | s == before + "=" + after && '=' !in before && IsTrimmed(before, IsWhitespace, path) ::
              if path == "" then ParseOverride(s) == Err(EmptyPath)
              else
                && ParseOverride(s).Ok?
                && ParseOverride(s).value.0 == (if path == "use_legacy_landlock" then "features.use_legacy_landlock" else path)
                && (forall text | IsTrimmed(after, IsWhitespace, text) :: ParseOverride(s).value.1 == ParseOverrideValue(text))
  {
    hide IsWhitespace, IsTrimmed, ParseOverrideValue, IndexOf;
    forall before, after, path | s == before + "=" + after && '=' !in before && IsTrimmed(before, IsWhitespace, path)
      ensures if path == "" then ParseOverride(s) == Err(EmptyPath)
              else
                && ParseOverride(s).Ok?
                && ParseOverride(s).value.0 == (if path == "use_legacy_landlock" then "features.use_legacy_landlock" else path)
                && (forall text | IsTrimmed(after, IsWhitespace, text) :: ParseOverride(s).value.1 == ParseOverrideValue(text))
    {
      OverrideCut(s, before, after, path);
    }
  }

  lemma OverrideCut(s: string, before: string, after: string, path: string)
    requires s == before + "=" + after && '=' !in before && IsTrimmed(before, IsWhitespace, path)
    ensures if path == "" then ParseOverride(s) == Err(EmptyPath)
            else
              && ParseOverride(s).Ok?
              && ParseOverride(s).value.0 == (if path == "use_legacy_landlock" then "features.use_legacy_landlock" else path)
              && (forall text | IsTrimmed(after, IsWhitespace, text) :: ParseOverride(s).value.1 == ParseOverrideValue(text))
  {
    hide IsWhitespace, IsTrimmed, ParseOverrideValue, IndexOf, TrimMatches;
    IndexOfUnique(s, '=', |before|);
    assert s[..|before|] == before && s[|before| + 1..] == after;
    TrimmedOnce(before, IsWhitespace, path);
    forall text | IsTrimmed(after, IsWhitespace, text) ensures Trim(after) == text {
      TrimmedOnce(after, IsWhitespace, text);
    }
  }

  /** A text that is no TOML value stands for itself, without the quotes at its ends. */
  lemma RawTextMeans(text: string, bare: string)
    requires IsTrimmed(text, IsWhitespace, text) && ParseTomlValue(text).None? && IsTrimmed(text, IsQuote, bare)
    ensures ParseOverrideValue(text) == String(bare)
  {
    hide IsWhitespace, IsTrimmed, ParseTomlValue, TrimMatches;
    TrimmedOnce(text, IsWhitespace, text);
    TrimmedOnce(text, IsQuote, bare);
  }
}
