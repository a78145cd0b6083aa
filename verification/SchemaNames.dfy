/**
 * The name a variant deserves, said without the code that builds it: the words of the text
 * that tells the variant apart, each with its first letter raised, in front of the base.
 */
module SchemaNames {
  import opened Wrappers
  import opened SchemaTitles

  const DIGITS := "0123456789"
  const SMALL := "abcdefghijklmnopqrstuvwxyz"
  const CAPITAL := "ABCDEFGHIJKLMNOPQRSTUVWXYZ"

  // ---- words ------------------------------------------------------------------

  predicate InWord(c: char) {
    c in DIGITS || c in SMALL || c in CAPITAL
  }

  predicate IsWord(s: string) {
    s != "" && forall i | 0 <= i < |s| :: InWord(s[i])
  }

  predicate IsGap(s: string) {
    forall i | 0 <= i < |s| :: !InWord(s[i])
  }

  function Interleave(gaps: seq<string>, words: seq<string>): string
    requires |gaps| == |words| + 1
  {
    gaps[0] + if words == [] then "" else words[0] + Interleave(gaps[1..], words[1..])
  }

  /** The text is these words in this order, with something else around and between them. */
  predicate HasWords(s: string, gaps: seq<string>, words: seq<string>) {
    && |gaps| == |words| + 1 && s == Interleave(gaps, words)
    && (forall i | 0 <= i < |words| :: IsWord(words[i]))
    && (forall i | 0 <= i < |gaps| :: IsGap(gaps[i]) && (0 < i < |words| ==> gaps[i] != ""))
  }

  /** The second character is the first one as a capital, if it is a small letter, and the first one itself otherwise. */
  ghost predicate IsCapitalOf(c: char, d: char) {
    if c in SMALL then exists i :: 0 <= i < 26 && SMALL[i] == c && CAPITAL[i] == d else d == c
  }

  ghost predicate IsRaised(word: string, raised: string) {
    |raised| == |word| && word != "" && IsCapitalOf(word[0], raised[0]) && raised[1..] == word[1..]
  }

  function Joined(parts: seq<string>): string {
    if parts == [] then "" else parts[0] + Joined(parts[1..])
  }

  ghost predicate AllRaised(words: seq<string>, parts: seq<string>) {
    |parts| == |words| && forall i | 0 <= i < |words| :: IsRaised(words[i], parts[i])
  }

  /** The words of the text, raised and put together; `Value` for a text without words. */
  ghost predicate IsPascal(s: string, r: string) {
    exists gaps, words, parts ::
      HasWords(s, gaps, words) && AllRaised(words, parts) && r == if words == [] then "Value" else Joined(parts)
  }

  lemma WordCharacters(c: char)
    ensures InWord(c) <==> IsAlphanumeric(c)
    ensures c in SMALL <==> 'a' <= c <= 'z'
  {
    hide DIGITS, SMALL, CAPITAL;
    DigitCharacters(c);
    SmallCharacters(c);
    CapitalCharacters(c);
  }

  lemma DigitCharacters(c: char)
    ensures c in DIGITS <==> '0' <= c <= '9'
  {
    if '0' <= c <= '9' { DigitAt(c as int - 48); }
  }

  lemma SmallCharacters(c: char)
    ensures c in SMALL <==> 'a' <= c <= 'z'
  {
    hide CAPITAL;
    if 'a' <= c <= 'z' { LetterAt(c as int - 97); }
  }

  lemma CapitalCharacters(c: char)
    ensures c in CAPITAL <==> 'A' <= c <= 'Z'
  {
    hide SMALL;
    if 'A' <= c <= 'Z' { LetterAt(c as int - 65); }
  }

  lemma DigitAt(i: nat)
    requires i < 10
    ensures DIGITS[i] == (48 + i) as char
  {
  }

  lemma LetterAt(i: nat)
    requires i < 26
    ensures SMALL[i] == (97 + i) as char && CAPITAL[i] == (65 + i) as char
  {
  }

  lemma UpperRaises(c: char)
    ensures IsCapitalOf(c, Upper(c))
  {
    WordCharacters(c);
    if 'a' <= c <= 'z' {
      LetterAt(c as int - 97);
    }
  }

  lemma RaisedIsUpper(c: char, d: char)
    requires IsCapitalOf(c, d)
    ensures d == Upper(c)
  {
    WordCharacters(c);
    if c in SMALL {
      var i :| 0 <= i < 26 && SMALL[i] == c && CAPITAL[i] == d;
      hide SMALL, CAPITAL;
      LetterAt(i);
    }
  }

  // ---- the code finds the words -----------------------------------------------

  lemma {:induction false} GapSkipped(gap: string, rest: string, start: bool)
    requires IsGap(gap)
    ensures Capitalised(gap + rest, start) == Capitalised(rest, start || gap != "")
    decreases |gap|
  {
    hide InWord, IsAlphanumeric, Upper;
    if gap == "" {
      assert gap + rest == rest;
    } else {
      WordCharacters(gap[0]);
      assert (gap + rest)[1..] == gap[1..] + rest;
      GapSkipped(gap[1..], rest, true);
    }
  }

  lemma {:induction false} RunKept(run: string, rest: string)
    requires forall i | 0 <= i < |run| :: InWord(run[i])
    ensures Capitalised(run + rest, false) == run + Capitalised(rest, false)
    decreases |run|
  {
    hide InWord, IsAlphanumeric, Upper;
    if run == "" {
      assert run + rest == rest;
    } else {
      WordCharacters(run[0]);
      assert (run + rest)[1..] == run[1..] + rest;
      RunKept(run[1..], rest);
      assert run == [run[0]] + run[1..];
    }
  }

  lemma WordRaised(word: string, raised: string, rest: string)
    requires IsWord(word) && IsRaised(word, raised)
    ensures Capitalised(word + rest, true) == raised + Capitalised(rest, false)
  {
    hide InWord, IsAlphanumeric, Upper, IsCapitalOf;
    RaisedIsUpper(word[0], raised[0]);
    WordCharacters(word[0]);
    WordStarts(word[0], word[1..], rest);
    RunKept(word[1..], rest);
    assert word == [word[0]] + word[1..] && raised == [raised[0]] + raised[1..];
  }

  lemma WordStarts(c: char, run: string, rest: string)
    requires IsAlphanumeric(c)
    ensures Capitalised([c] + run + rest, true) == [Upper(c)] + Capitalised(run + rest, false)
  {
    hide IsAlphanumeric, Upper;
    var s := [c] + run + rest;
    assert s[0] == c && s[1..] == run + rest;
  }

  lemma {:induction false} WordsCapitalised(s: string, gaps: seq<string>, words: seq<string>, parts: seq<string>, start: bool)
    requires HasWords(s, gaps, words) && AllRaised(words, parts) && (start || words == [] || gaps[0] != "")
    ensures Capitalised(s, start) == Joined(parts)
    decreases |words|
  {
    hide IsWord, IsGap, IsRaised, Capitalised;
    if words == [] {
      assert s == gaps[0] + "";
      GapSkipped(gaps[0], "", start);
      EmptyCapitalised(start || gaps[0] != "");
    } else {
      var rest := Interleave(gaps[1..], words[1..]);
      GapSkipped(gaps[0], words[0] + rest, start);
      WordRaised(words[0], parts[0], rest);
      WordsCapitalised(rest, gaps[1..], words[1..], parts[1..], false);
    }
  }

  lemma EmptyCapitalised(start: bool)
    ensures Capitalised("", start) == ""
  {
  }

  /** Every text has words. */
  lemma {:induction false} WordsFound(s: string) returns (gaps: seq<string>, words: seq<string>)
    ensures HasWords(s, gaps, words)
  {
    hide InWord;
    if s == "" {
      return [""], [];
    }
    var g, w := WordsFound(s[1..]);
    assert s == [s[0]] + s[1..];
    if !InWord(s[0]) {
      gaps, words := g[0 := [s[0]] + g[0]], w;
      assert gaps[1..] == g[1..];
    } else if w != [] && g[0] == "" {
      gaps, words := g, w[0 := [s[0]] + w[0]];
      assert words[1..] == w[1..];
    } else {
      gaps, words := [""] + g, [[s[0]]] + w;
      assert gaps[1..] == g && words[1..] == w;
    }
  }

  lemma {:induction false} WordsRaised(words: seq<string>) returns (parts: seq<string>)
    requires forall i | 0 <= i < |words| :: IsWord(words[i])
    ensures AllRaised(words, parts)
  {
    hide InWord, IsCapitalOf;
    parts := [];
    for k := 0 to |words|
      invariant |parts| == k && forall i | 0 <= i < k :: IsRaised(words[i], parts[i])
    {
      UpperRaises(words[k][0]);
      parts := parts + [[Upper(words[k][0])] + words[k][1..]];
    }
  }

  lemma RaisedNotEmpty(words: seq<string>, parts: seq<string>)
    requires AllRaised(words, parts)
    ensures words != [] <==> Joined(parts) != ""
  {
    if words != [] {
      assert IsRaised(words[0], parts[0]);
    }
  }

  /** The code's capitalised text is exactly the text's words, raised. */
  lemma PascalMeans(s: string, r: string)
    ensures IsPascal(s, r) <==> r == ToPascalCase(s)
  {
    hide HasWords, AllRaised, Capitalised;
    forall gaps, words, parts | HasWords(s, gaps, words) && AllRaised(words, parts)
      ensures ToPascalCase(s) == if words == [] then "Value" else Joined(parts)
    {
      WordsCapitalised(s, gaps, words, parts, true);
      RaisedNotEmpty(words, parts);
    }
    var gaps, words := WordsFound(s);
    assert forall i | 0 <= i < |words| :: IsWord(words[i]) by { WordsAreWords(s, gaps, words); }
    var parts := WordsRaised(words);
    assert ToPascalCase(s) == if words == [] then "Value" else Joined(parts);
  }

  lemma WordsAreWords(s: string, gaps: seq<string>, words: seq<string>)
    requires HasWords(s, gaps, words)
    ensures forall i | 0 <= i < |words| :: IsWord(words[i])
  {
  }

  // ---- what tells a variant apart ---------------------------------------------

  /** The property can only be this string. */
  predicate Fixes(prop: Json, literal: string) {
    && prop.Obj?
    && (|| ("const" in prop.fields && prop.fields["const"] == Str(literal))
        || (("const" in prop.fields ==> !prop.fields["const"].Str?)
            && "enum" in prop.fields && prop.fields["enum"] == Arr([Str(literal)])))
  }

  ghost predicate FixesNothing(props: Fields, key: string) {
    key in props ==> forall literal :: !Fixes(props[key], literal)
  }

  /** The first discriminator key whose property fixes a literal, with that literal. */
  ghost predicate Discriminates(props: Fields, i: nat, literal: string) {
    && i < |DISCRIMINATOR_KEYS| && DISCRIMINATOR_KEYS[i] in props && Fixes(props[DISCRIMINATOR_KEYS[i]], literal)
    && forall j | 0 <= j < i :: FixesNothing(props, DISCRIMINATOR_KEYS[j])
  }

  datatype Mark =
    | Discriminator(i: nat, literal: string)
    | OnlyProperty(key: string, fixed: Option<string>)
    | OnlyRequired(name: string)
    | OnlyLiteral(literal: string)
    | SeveralLiterals
    | Unmarked

  predicate HasProperties(m: Fields) {
    "properties" in m && m["properties"].Obj?
  }

  ghost predicate NoDiscriminator(m: Fields) {
    HasProperties(m) ==> forall j | 0 <= j < |DISCRIMINATOR_KEYS| :: FixesNothing(m["properties"].fields, DISCRIMINATOR_KEYS[j])
  }

  /** No literal, and not one property only. */
  ghost predicate ManyProperties(m: Fields) {
    NoDiscriminator(m) && (HasProperties(m) ==> |m["properties"].fields| != 1)
  }

  predicate OneRequired(m: Fields, name: string) {
    "required" in m && m["required"] == Arr([Str(name)])
  }

  ghost predicate NoneRequired(m: Fields) {
    forall name :: !OneRequired(m, name)
  }

  predicate Enumerates(m: Fields) {
    "enum" in m && m["enum"].Arr? && m["enum"].items != [] && forall i | 0 <= i < |m["enum"].items| :: m["enum"].items[i].Str?
  }

  /** How a variant is told apart; the earlier ways come first. */
  ghost predicate Marked(m: Fields, mark: Mark) {
    match mark
    case Discriminator(i, literal) => HasProperties(m) && Discriminates(m["properties"].fields, i, literal)
    case OnlyProperty(key, fixed) =>
      && HasProperties(m) && NoDiscriminator(m) && m["properties"].fields.Keys == {key}
      && (if fixed.Some? then Fixes(m["properties"].fields[key], fixed.value)
          else FixesNothing(m["properties"].fields, key))
    case OnlyRequired(name) => ManyProperties(m) && OneRequired(m, name)
    case OnlyLiteral(literal) => ManyProperties(m) && NoneRequired(m) && "enum" in m && m["enum"] == Arr([Str(literal)])
    case SeveralLiterals => ManyProperties(m) && NoneRequired(m) && Enumerates(m) && |m["enum"].items| > 1
    case Unmarked => ManyProperties(m) && NoneRequired(m) && !Enumerates(m)
  }

  // ---- the name a variant deserves --------------------------------------------

  /** The words of a text in front of a suffix. */
  ghost predicate IsNamed(text: string, suffix: string, name: Option<string>) {
    name.Some? && exists words :: IsPascal(text, words) && name.value == words + suffix
  }

  ghost predicate Deserves(base: string, mark: Mark, name: Option<string>) {
    match mark
    case Discriminator(_, literal) => IsNamed(literal, if base == "ClientRequest" then "Request" else base, name)
    case OnlyProperty(key, fixed) =>
      IsNamed(if fixed.Some? && fixed.value != "" then fixed.value else key, base, name)
    case OnlyRequired(required) => IsNamed(required, base, name)
    case OnlyLiteral(literal) => IsNamed(literal, base, name)
    case SeveralLiterals => name == Some(base + "Value")
    case Unmarked => name == None
  }

  lemma NamedIff(text: string, suffix: string, name: Option<string>)
    ensures IsNamed(text, suffix, name) <==> name == Some(ToPascalCase(text) + suffix)
  {
    hide IsPascal, ToPascalCase;
    forall words ensures IsPascal(text, words) <==> words == ToPascalCase(text) { PascalMeans(text, words); }
  }

  lemma LiteralMeans(prop: Json, literal: string)
    ensures Fixes(prop, literal) <==> StringLiteral(prop) == Some(literal)
  {
    if prop.Obj? && "enum" in prop.fields && prop.fields["enum"].Arr? && |prop.fields["enum"].items| == 1 {
      assert prop.fields["enum"].items == [prop.fields["enum"].items[0]];
    }
  }

  lemma NothingFixed(props: Fields, key: string)
    ensures FixesNothing(props, key) <==> StringLiteral(Get(props, key)).None?
  {
    hide StringLiteral, Fixes;
    if key in props {
      forall literal ensures Fixes(props[key], literal) <==> StringLiteral(props[key]) == Some(literal) {
        LiteralMeans(props[key], literal);
      }
    } else {
      assert StringLiteral(Null).None? by { NullFixesNothing(); }
    }
  }

  lemma NullFixesNothing()
    ensures StringLiteral(Null).None?
  {
  }

  lemma {:induction false} DiscriminatorFound(props: Fields, k: nat) returns (i: nat)
    requires k <= |DISCRIMINATOR_KEYS|
    ensures k <= i <= |DISCRIMINATOR_KEYS| && forall j | k <= j < i :: StringLiteral(Get(props, DISCRIMINATOR_KEYS[j])).None?
    ensures DiscriminatorLiteral(props, DISCRIMINATOR_KEYS[k..])
         == if i == |DISCRIMINATOR_KEYS| then None else StringLiteral(Get(props, DISCRIMINATOR_KEYS[i]))
    ensures i < |DISCRIMINATOR_KEYS| ==> StringLiteral(Get(props, DISCRIMINATOR_KEYS[i])).Some?
    decreases |DISCRIMINATOR_KEYS| - k
  {
    hide StringLiteral, DISCRIMINATOR_KEYS;
    i := k;
    if k < |DISCRIMINATOR_KEYS| && StringLiteral(Get(props, DISCRIMINATOR_KEYS[k])).None? {
      assert DISCRIMINATOR_KEYS[k..][1..] == DISCRIMINATOR_KEYS[k + 1..];
      i := DiscriminatorFound(props, k + 1);
    }
  }

  lemma DiscriminatorMeans(props: Fields, i: nat, literal: string)
    requires Discriminates(props, i, literal)
    ensures DiscriminatorLiteral(props, DISCRIMINATOR_KEYS) == Some(literal)
  {
    hide StringLiteral, DISCRIMINATOR_KEYS, Fixes, FixesNothing, DiscriminatorLiteral;
    var found := DiscriminatorFound(props, 0);
    assert DISCRIMINATOR_KEYS[0..] == DISCRIMINATOR_KEYS;
    LiteralMeans(props[DISCRIMINATOR_KEYS[i]], literal);
    forall j | 0 <= j < i ensures StringLiteral(Get(props, DISCRIMINATOR_KEYS[j])).None? {
      NothingFixed(props, DISCRIMINATOR_KEYS[j]);
    }
    assert found == i;
  }

  lemma NoDiscriminatorMeans(m: Fields)
    requires HasProperties(m)
    ensures NoDiscriminator(m) <==> DiscriminatorLiteral(m["properties"].fields, DISCRIMINATOR_KEYS).None?
  {
    hide StringLiteral, DISCRIMINATOR_KEYS, FixesNothing, DiscriminatorLiteral;
    var props := m["properties"].fields;
    var found := DiscriminatorFound(props, 0);
    assert DISCRIMINATOR_KEYS[0..] == DISCRIMINATOR_KEYS;
    forall j | 0 <= j < |DISCRIMINATOR_KEYS|
      ensures FixesNothing(props, DISCRIMINATOR_KEYS[j]) <==> StringLiteral(Get(props, DISCRIMINATOR_KEYS[j])).None?
    {
      NothingFixed(props, DISCRIMINATOR_KEYS[j]);
    }
  }

  lemma ManyPropertiesMeans(base: string, m: Fields)
    ensures ManyProperties(m) <==> PropertiesName(base, Get(m, "properties")).None?
  {
    hide DiscriminatorLiteral, StringLiteral, ToPascalCase;
    hide NoDiscriminator;
    if HasProperties(m) {
      NoDiscriminatorMeans(m);
    } else {
      NoPropertiesNoDiscriminator(m);
    }
  }

  lemma NoPropertiesNoDiscriminator(m: Fields)
    requires !HasProperties(m)
    ensures NoDiscriminator(m)
  {
  }

  lemma RequiredMeans(base: string, m: Fields)
    ensures NoneRequired(m) <==> RequiredName(base, Get(m, "required")).None?
    ensures forall name | OneRequired(m, name) :: RequiredName(base, Get(m, "required")) == Some(ToPascalCase(name) + base)
  {
    hide ToPascalCase;
    var required := Get(m, "required");
    if required.Arr? && |required.items| == 1 && required.items[0].Str? {
      assert required.items == [required.items[0]];
      assert OneRequired(m, required.items[0].s);
    }
  }

  lemma OnlyPropertyMeans(base: string, m: Fields, key: string, fixed: Option<string>)
    requires Marked(m, OnlyProperty(key, fixed))
    ensures PropertiesName(base, Get(m, "properties"))
         == Some(ToPascalCase(if fixed.Some? && fixed.value != "" then fixed.value else key) + base)
  {
    hide DiscriminatorLiteral, StringLiteral, ToPascalCase, Fixes, FixesNothing, DISCRIMINATOR_KEYS;
    NoDiscriminatorMeans(m);
    var props := m["properties"].fields;
    assert |props.Keys| == 1;
    assert OnlyKey(props) == key by { assert OnlyKey(props) in props.Keys; }
    if fixed.Some? {
      LiteralMeans(props[key], fixed.value);
    } else {
      NothingFixed(props, key);
    }
  }

  lemma EnumMeans(base: string, m: Fields)
    ensures EnumName(base, EnumLiterals(m)).Some? <==> Enumerates(m)
    ensures forall literal | "enum" in m && m["enum"] == Arr([Str(literal)]) ::
              EnumName(base, EnumLiterals(m)) == Some(ToPascalCase(literal) + base)
    ensures Enumerates(m) && |m["enum"].items| > 1 ==> EnumName(base, EnumLiterals(m)) == Some(base + "Value")
  {
    hide ToPascalCase;
  }

  /** The name the code derives is the one the variant deserves. */
  lemma VariantNameMeans(base: string, m: Fields, mark: Mark)
    requires Marked(m, mark)
    ensures Deserves(base, mark, VariantName(base, m))
  {
    hide ToPascalCase, IsNamed, PropertiesName, RequiredName, EnumName, EnumLiterals, NoDiscriminator, ManyProperties, NoneRequired, OneRequired, Enumerates, Discriminates;
    var name := VariantName(base, m);
    ManyPropertiesMeans(base, m);
    RequiredMeans(base, m);
    EnumMeans(base, m);
    match mark
    case Discriminator(i, literal) =>
      DiscriminatorNamed(base, m, i, literal);
      NamedIff(literal, if base == "ClientRequest" then "Request" else base, name);
    case OnlyProperty(key, fixed) =>
      OnlyPropertyMeans(base, m, key, fixed);
      NamedIff(if fixed.Some? && fixed.value != "" then fixed.value else key, base, name);
    case OnlyRequired(required) =>
      NamedIff(required, base, name);
    case OnlyLiteral(literal) =>
      NamedIff(literal, base, name);
    case SeveralLiterals =>
    case Unmarked =>
  }

  lemma DiscriminatorNamed(base: string, m: Fields, i: nat, literal: string)
    requires HasProperties(m) && Discriminates(m["properties"].fields, i, literal)
    ensures PropertiesName(base, Get(m, "properties"))
         == Some(ToPascalCase(literal) + if base == "ClientRequest" then "Request" else base)
  {
    hide ToPascalCase, DiscriminatorLiteral, Discriminates;
    DiscriminatorMeans(m["properties"].fields, i, literal);
  }

  /** Every variant is told apart in one of these ways, or in none. */
  lemma MarkFound(m: Fields) returns (mark: Mark)
    ensures Marked(m, mark)
  {
    hide DISCRIMINATOR_KEYS, StringLiteral, DiscriminatorLiteral, Fixes, FixesNothing;
    if HasProperties(m) {
      var props := m["properties"].fields;
      NoDiscriminatorMeans(m);
      var i := DiscriminatorFound(props, 0);
      assert DISCRIMINATOR_KEYS[0..] == DISCRIMINATOR_KEYS;
      if i < |DISCRIMINATOR_KEYS| {
        DiscriminatorMarks(props, i);
        return Discriminator(i, StringLiteral(Get(props, DISCRIMINATOR_KEYS[i])).value);
      }
      if |props| == 1 {
        mark := OnlyPropertyMarked(m);
        return;
      }
    }
    assert ManyProperties(m);
    mark := LaterMark(m);
  }

  lemma DiscriminatorMarks(props: Fields, i: nat)
    requires i < |DISCRIMINATOR_KEYS| && StringLiteral(Get(props, DISCRIMINATOR_KEYS[i])).Some?
    requires forall j | 0 <= j < i :: StringLiteral(Get(props, DISCRIMINATOR_KEYS[j])).None?
    ensures Discriminates(props, i, StringLiteral(Get(props, DISCRIMINATOR_KEYS[i])).value)
  {
    hide DISCRIMINATOR_KEYS, StringLiteral, Fixes, FixesNothing;
    var key := DISCRIMINATOR_KEYS[i];
    NullFixesNothing();
    LiteralMeans(props[key], StringLiteral(Get(props, key)).value);
    forall j | 0 <= j < i ensures FixesNothing(props, DISCRIMINATOR_KEYS[j]) {
      NothingFixed(props, DISCRIMINATOR_KEYS[j]);
    }
  }

  lemma OnlyPropertyMarked(m: Fields) returns (mark: Mark)
    requires HasProperties(m) && NoDiscriminator(m) && |m["properties"].fields| == 1
    ensures Marked(m, mark)
  {
    hide DISCRIMINATOR_KEYS, StringLiteral, Fixes, FixesNothing, NoDiscriminator;
    var props := m["properties"].fields;
    var key := OnlyKey(props);
    assert props.Keys == {key} by {
      forall k | k in props ensures k == key { SingletonKey(props, k, key); }
    }
    var fixed := StringLiteral(props[key]);
    if fixed.Some? {
      LiteralMeans(props[key], fixed.value);
    } else {
      NothingFixed(props, key);
    }
    mark := OnlyProperty(key, fixed);
  }

  lemma LaterMark(m: Fields) returns (mark: Mark)
    requires ManyProperties(m)
    ensures Marked(m, mark)
  {
    hide ManyProperties;
    if name :| OneRequired(m, name) {
      return OnlyRequired(name);
    }
    if !Enumerates(m) {
      return Unmarked;
    }
    var items := m["enum"].items;
    if |items| > 1 {
      return SeveralLiterals;
    }
    assert items == [Str(items[0].s)];
    mark := OnlyLiteral(items[0].s);
  }

  // ---- the names in a list of variants ----------------------------------------

  /** The name a listed value deserves, if it deserves one. */
  function Deserved(v: Json, base: string): Option<string> {
    if v.Obj? && base != "" then VariantName(base, v.fields) else None
  }

  function Retitled(v: Json, base: string): Json {
    if Deserved(v, base).Some? then SetTitle(v, Deserved(v, base).value) else v
  }

  /** The value is to get a title that another one had, or that an earlier one got. */
  predicate Collides(variants: seq<Json>, base: string, seen: set<string>, i: nat)
    requires i < |variants|
  {
    var name := Deserved(variants[i], base);
    && name.Some? && TitleOf(variants[i]) != name
    && (name.value in seen || exists j | 0 <= j < i :: Deserved(variants[j], base) == name)
  }

  predicate Broken(variants: seq<Json>, base: string, seen: set<string>, i: nat)
    requires i < |variants|
  {
    variants[i].Obj? && (Collides(variants, base, seen, i) || Annotate(Retitled(variants[i], base), base, None, None).None?)
  }

  function TitleSetOf(v: Json): set<string> {
    if TitleOf(v).Some? then {TitleOf(v).value} else {}
  }

  function NameSetOf(v: Json, base: string): set<string> {
    if Deserved(v, base).Some? then {Deserved(v, base).value} else {}
  }

  lemma CollidesLater(variants: seq<Json>, base: string, seen: set<string>, i: nat)
    requires 0 < i < |variants|
    ensures Collides(variants, base, seen, i) <==> Collides(variants[1..], base, seen + NameSetOf(variants[0], base), i - 1)
  {
    hide Deserved, TitleOf;
    var name, rest := Deserved(variants[i], base), variants[1..];
    assert rest[i - 1] == variants[i];
    if j :| 0 <= j < i && Deserved(variants[j], base) == name {
      assert j > 0 ==> rest[j - 1] == variants[j];
    }
    if j :| 0 <= j < i - 1 && Deserved(rest[j], base) == name {
      assert variants[j + 1] == rest[j];
    }
  }

  /** One value is annotated under its new title, or the walk raises. */
  lemma VariantStep(v: Json, base: string, seen: set<string>)
    requires v.Obj? && TitleSetOf(v) <= seen
    ensures var name, naming := Deserved(v, base), NameVariant(v, base, seen);
            && (naming.Collision? <==> name.Some? && TitleOf(v) != name && name.value in seen)
            && (naming.Rename? ==> name == Some(naming.title))
            && (!naming.Collision? ==>
                  Annotate(Retitled(v, base), base, None, None)
                  == Annotate(v, base, if naming.Rename? then Some(naming.title) else None, None))
            && (naming.Keep? ==> NameSetOf(v, base) <= seen)
  {
    hide Annotate, VariantName;
    var name := Deserved(v, base);
    if name.Some? {
      PendingTitle(v, base, name.value, None);
      if TitleOf(v) == name {
        assert v.fields["title" := Str(name.value)] == v.fields;
        assert SetTitle(v, name.value) == v;
      }
    }
  }

  function TakenAfter(v: Json, base: string, seen: set<string>): set<string> {
    seen + NameSetOf(v, base)
  }

  function ListedAs(v: Json, base: string): Option<Json> {
    if v.Obj? then Annotate(Retitled(v, base), base, None, None) else Some(v)
  }

  lemma VariantsUnfold(variants: seq<Json>, base: string, seen: set<string>)
    requires variants != [] && TitleSetOf(variants[0]) <= seen
    ensures var first := ListedAs(variants[0], base);
            var later := AnnotateVariants(variants[1..], base, TakenAfter(variants[0], base, seen));
            AnnotateVariants(variants, base, seen)
            == if Broken(variants, base, seen, 0) || later.None? then None else Some([first.value] + later.value)
  {
    hide Annotate, TitleOf, TitleSetOf, Retitled;
    var v, rest := variants[0], variants[1..];
    if v.Obj? {
      VariantStep(v, base, seen);
      hide NameVariant, VariantName;
      if NameVariant(v, base, seen).Keep? {
        assert TakenAfter(v, base, seen) == seen;
      }
    } else {
      assert TakenAfter(v, base, seen) == seen;
    }
  }

  lemma BrokenLater(variants: seq<Json>, base: string, seen: set<string>, i: nat)
    requires 0 < i < |variants|
    ensures Broken(variants, base, seen, i) <==> Broken(variants[1..], base, TakenAfter(variants[0], base, seen), i - 1)
  {
    hide Annotate, Collides, Retitled;
    CollidesLater(variants, base, seen, i);
    assert variants[1..][i - 1] == variants[i];
  }

  lemma BrokenCons(variants: seq<Json>, base: string, seen: set<string>)
    requires variants != []
    ensures (exists i :: 0 <= i < |variants| && Broken(variants, base, seen, i)) <==>
              || Broken(variants, base, seen, 0)
              || exists i :: 0 <= i < |variants[1..]| && Broken(variants[1..], base, TakenAfter(variants[0], base, seen), i)
  {
    hide Broken, TakenAfter;
    if i :| 0 <= i < |variants| && Broken(variants, base, seen, i) {
      if i > 0 { BrokenLater(variants, base, seen, i); }
    }
    if i :| 0 <= i < |variants[1..]| && Broken(variants[1..], base, TakenAfter(variants[0], base, seen), i) {
      BrokenLater(variants, base, seen, i + 1);
    }
  }

  /** Each value is annotated under the title it deserves, or stays as it is. */
  ghost predicate ListAnnotated(variants: seq<Json>, base: string, out: seq<Json>) {
    |out| == |variants| && forall i | 0 <= i < |variants| :: ListedAs(variants[i], base) == Some(out[i])
  }

  lemma {:induction false} VariantsMeanFrom(variants: seq<Json>, base: string, seen: set<string>)
    requires forall i | 0 <= i < |variants| :: TitleSetOf(variants[i]) <= seen
    ensures AnnotateVariants(variants, base, seen).None? <==> exists i :: 0 <= i < |variants| && Broken(variants, base, seen, i)
    ensures AnnotateVariants(variants, base, seen).Some? ==> ListAnnotated(variants, base, AnnotateVariants(variants, base, seen).value)
    decreases |variants|
  {
    hide Annotate, NameVariant, Deserved, TitleOf, Retitled, Collides, TitleSetOf, NameSetOf;
    if variants != [] {
      var v, rest := variants[0], variants[1..];
      var taken := TakenAfter(v, base, seen);
      VariantsUnfold(variants, base, seen);
      BrokenCons(variants, base, seen);
      hide AnnotateVariants;
      forall i | 0 <= i < |rest| ensures TitleSetOf(rest[i]) <= taken {
        assert rest[i] == variants[i + 1];
      }
      VariantsMeanFrom(rest, base, taken);
      if AnnotateVariants(variants, base, seen).Some? {
        var out, later := AnnotateVariants(variants, base, seen).value, AnnotateVariants(rest, base, taken).value;
        assert ListedAs(v, base).Some?;
        forall i | 0 <= i < |variants| ensures ListedAs(variants[i], base) == Some(out[i]) {
          if i > 0 {
            assert variants[i] == rest[i - 1] && out[i] == later[i - 1];
          }
        }
      }
    }
  }

  /**
   * The whole list at once: it is refused exactly when some value would get a title that is
   * taken, or cannot be annotated under its own; otherwise every value gets the title it
   * deserves and is annotated under it.
   */
  lemma VariantsMean(variants: seq<Json>, base: string)
    ensures AnnotateVariants(variants, base, Titles(variants)).None? <==>
              exists i :: 0 <= i < |variants| && Broken(variants, base, Titles(variants), i)
    ensures AnnotateVariants(variants, base, Titles(variants)).Some? ==>
              ListAnnotated(variants, base, AnnotateVariants(variants, base, Titles(variants)).value)
  {
    hide AnnotateVariants, Broken, ListAnnotated, TitleOf;
    forall i | 0 <= i < |variants| ensures TitleSetOf(variants[i]) <= Titles(variants) {
      assert variants[i] in variants;
    }
    VariantsMeanFrom(variants, base, Titles(variants));
  }

  /** After the walk every marked value of a list bears the words of what tells it apart, in front of its base. */
  lemma VariantsNamed(variants: seq<Json>, base: string, i: nat, mark: Mark)
    requires AnnotateVariants(variants, base, Titles(variants)).Some?
    requires i < |variants| && variants[i].Obj? && base != "" && Marked(variants[i].fields, mark)
    ensures var title := TitleOf(AnnotateVariants(variants, base, Titles(variants)).value[i]);
            if mark.Unmarked? then title == TitleOf(variants[i]) else Deserves(base, mark, title)
  {
    hide AnnotateVariants, Annotate, Broken, TitleOf, Marked, Deserves, Titles;
    var v, out := variants[i], AnnotateVariants(variants, base, Titles(variants)).value;
    VariantsMean(variants, base);
    assert ListedAs(v, base) == Some(out[i]);
    VariantNameMeans(base, v.fields, mark);
    TitleKept(Retitled(v, base), base);
    UnmarkedUnnamed(base, mark, Deserved(v, base));
    if Deserved(v, base).Some? {
      TitleWritten(v, Deserved(v, base).value);
    }
  }

  lemma UnmarkedUnnamed(base: string, mark: Mark, name: Option<string>)
    requires Deserves(base, mark, name)
    ensures mark.Unmarked? <==> name.None?
  {
    hide IsPascal;
  }

  lemma TitleWritten(v: Json, title: string)
    requires v.Obj?
    ensures TitleOf(SetTitle(v, title)) == Some(title)
  {
  }

  // ---- the titles of discriminators -------------------------------------------

  /** A discriminator property that fixes a literal and has no title yet. */
  ghost predicate ToTitle(props: Json, k: string)
    requires props.Obj? && k in props.fields
  {
    && k in DISCRIMINATOR_KEYS && props.fields[k].Obj? && "title" !in props.fields[k].fields
    && exists literal :: Fixes(props.fields[k], literal)
  }

  lemma ToTitleMeans(props: Json, k: string)
    requires props.Obj? && k in props.fields
    ensures ToTitle(props, k) <==> k in DISCRIMINATOR_KEYS && Untitled(props.fields[k])
  {
    hide DISCRIMINATOR_KEYS, Fixes, StringLiteral;
    forall literal ensures Fixes(props.fields[k], literal) <==> StringLiteral(props.fields[k]) == Some(literal) {
      LiteralMeans(props.fields[k], literal);
    }
    if StringLiteral(props.fields[k]).Some? {
      assert Fixes(props.fields[k], StringLiteral(props.fields[k]).value);
    }
  }

  /**
   * Under a titled schema each such property gets the schema's title followed by the words
   * of its key; every other property keeps the title it has.
   */
  lemma DiscriminatorsTitled(v: Json, base: string, title: Option<string>, owner: Option<string>, k: string)
    requires v.Obj? && "properties" in v.fields && v.fields["properties"].Obj? && k in v.fields["properties"].fields
    requires Annotate(v, base, title, owner).Some?
    ensures var w, props := Annotate(v, base, title, owner).value, v.fields["properties"];
            && w.Obj? && "properties" in w.fields && w.fields["properties"].Obj? && k in w.fields["properties"].fields
            && var own, now := TitleOf(w), TitleOf(w.fields["properties"].fields[k]);
               if own.Some? && ToTitle(props, k)
               then exists words :: IsPascal(k, words) && now == Some(own.value + words)
               else now == TitleOf(props.fields[k])
  {
    hide Annotate, AnnotateField, TitleOf, OwnTitle, IsPascal, ToTitle, DISCRIMINATOR_KEYS, Untitled, ToPascalCase;
    var w, props := Annotate(v, base, title, owner).value, v.fields["properties"];
    Opened(v, base, title, owner);
    PropertiesField(v, base, title, owner);
    var own := OwnTitle(v.fields, title);
    assert TitleOf(w) == own by { OwnTitleKept(v, w, base, title, owner); OwnTitleNow(w); }
    KindKept(props, base, None, own);
    Opened(props, base, None, own);
    assert props.fields.Keys + Written(None) == props.fields.Keys;
    ToTitleMeans(props, k);
    PropertyTitle(props, k, base, own);
    PascalMeans(k, ToPascalCase(k));
  }

  lemma OwnTitleNow(w: Json)
    requires w.Obj?
    ensures OwnTitle(w.fields, None) == TitleOf(w)
  {
  }

  /** Without a pending title a value keeps the title it has, object or not. */
  lemma SameTitleKept(v: Json, base: string, owner: Option<string>)
    requires Annotate(v, base, None, owner).Some?
    ensures TitleOf(Annotate(v, base, None, owner).value) == TitleOf(v)
  {
    KindKept(v, base, None, owner);
    hide Annotate, AnnotateField;
    if v.Obj? {
      Opened(v, base, None, owner);
      OwnTitleKept(v, Annotate(v, base, None, owner).value, base, None, owner);
    }
  }

  lemma SpreadTitleKept(d: Json)
    requires d.Obj? && AnnotateDefinitions(d).Some?
    ensures TitleOf(AnnotateDefinitions(d).value) == TitleOf(d)
  {
    if "title" in d.fields {
      KindKept(d.fields["title"], "title", None, None);
    }
  }

  lemma PropertyTitle(props: Json, k: string, base: string, owner: Option<string>)
    requires props.Obj? && k in props.fields && AnnotateField(props, k, base, None, owner).Some?
    ensures TitleOf(AnnotateField(props, k, base, None, owner).value)
         == if owner.Some? && k in DISCRIMINATOR_KEYS && Untitled(props.fields[k]) then Some(owner.value + ToPascalCase(k))
            else TitleOf(props.fields[k])
  {
    hide Annotate, AnnotateVariants, AnnotateDefinitions, DISCRIMINATOR_KEYS, ToPascalCase, StringLiteral;
    TitleIsNoDiscriminator();
    var child := props.fields[k];
    if k == "oneOf" || k == "anyOf" {
    } else if k == "definitions" || k == "$defs" {
      if child.Obj? { SpreadTitleKept(child); }
    } else if k == "properties" && OwnTitle(props.fields, None).Some? {
      SameTitleKept(child, base, OwnTitle(props.fields, None));
    } else if owner.Some? && k in DISCRIMINATOR_KEYS && Untitled(child) {
      TitleSet(child, base, DiscriminatorTitle(owner.value, k));
    } else {
      SameTitleKept(child, base, None);
    }
  }
}
