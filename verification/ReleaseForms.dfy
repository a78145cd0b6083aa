/**
 * Which texts are accepted as versions, and what each of them is normalised to, said by their
 * spelling alone.
 */
module ReleaseForms {
  import opened Text
  import opened Wrappers
  import opened ReleaseVersion

  // ---- spellings --------------------------------------------------------------

  function Word(kind: Kind): string {
    match kind case Alpha => "alpha" case Beta => "beta" case Candidate => "rc"
  }

  function Mark(kind: Kind): string {
    match kind case Alpha => "a" case Beta => "b" case Candidate => "rc"
  }

  predicate IsDot(dot: string) {
    dot == "" || dot == "."
  }

  predicate IsPad(pad: string) {
    forall i | 0 <= i < |pad| :: IsSpace(pad[i])
  }

  /** The normalised text of a version. */
  function Normal(v: Version): string {
    RenderRelease(v.release)
    + ((if v.pre.Some? then Mark(v.pre.value.kind) + v.pre.value.number else "")
       + (if v.post.Some? then ".post" + v.post.value else ""))
  }

  datatype Form = Already | Hyphenated(dot: string) | Hotfixed(dot: string) | Doubled(dot: string)

  /**
   * The text of a version in some form: already normal, with its pre-release spelled out after
   * a hyphen, with the number of a hotfix behind that of an alpha, or, by a quirk of the
   * patterns, a beta written as `-bet-alpha`.
   */
  ghost predicate Spells(text: string, v: Version, form: Form) {
    var head := RenderRelease(v.release);
    match form
    case Already => text == Normal(v)
    case Hyphenated(dot) =>
      && IsDot(dot) && v.pre.Some? && v.post.None?
      && text == head + "-" + (Word(v.pre.value.kind) + (dot + v.pre.value.number))
    case Hotfixed(dot) =>
      && IsDot(dot) && v.pre.Some? && v.pre.value.kind.Alpha? && v.post.Some?
      && text == head + "-" + ("alpha" + (dot + (v.pre.value.number + ("." + v.post.value))))
    case Doubled(dot) =>
      && IsDot(dot) && v.pre.Some? && v.pre.value.kind.Beta? && v.post.None?
      && text == head + "-bet" + "-" + ("alpha" + (dot + v.pre.value.number))
  }

  predicate IsPrefix(prefix: string) {
    prefix == "" || prefix == "v" || prefix == "rust-v"
  }

  /** Spaces around it and a prefix before it do not matter. */
  ghost predicate Writes(version: string, v: Version) {
    exists pad, prefix, text, pad', form ::
      IsPad(pad) && IsPad(pad') && IsPrefix(prefix) && Spells(text, v, form) && version == pad + (prefix + text) + pad'
  }

  lemma NormalIsRendered(v: Version)
    ensures Normal(v) == Render(v)
  {
  }

  lemma DotDropped(dot: string, number: string)
    requires IsDot(dot) && IsNumber(number)
    ensures DropDot(dot + number) == number
  {
    if dot == "" {
      assert dot + number == number && IsDigit(number[0]);
    } else {
      DottedNumber(number);
    }
  }

  lemma NoHyphenIn(kind: Kind, dot: string, number: string)
    requires IsDot(dot) && IsNumber(number)
    ensures '-' !in Word(kind) + (dot + number) && '-' !in Mark(kind) + number
  {
    DottedNumber(number);
  }

  // ---- what the substitutions do ----------------------------------------------

  lemma SubPreTail(head: string, kind: Kind, tail: string)
    requires '-' !in tail
    ensures SubPre(kind, head + "-" + tail)
         == if Shortened(kind, tail).Some? then head + Shortened(kind, tail).value else head + "-" + tail
  {
    hide TailLength, Shortened;
    TailTaken(head, tail);
  }

  lemma SubHotfixTail(head: string, tail: string)
    requires '-' !in tail
    ensures SubHotfix(head + "-" + tail) == if Hotfix(tail).Some? then head + Hotfix(tail).value else head + "-" + tail
  {
    hide TailLength, Hotfix;
    TailTaken(head, tail);
  }

  lemma WordShortened(kind: Kind, dot: string, number: string)
    requires IsDot(dot) && IsNumber(number)
    ensures Shortened(kind, Word(kind) + (dot + number)) == Some(Mark(kind) + number)
  {
    assert Word(kind) == Long(kind) && Mark(kind) == Short(kind);
    hide DropDot, Word, Mark, Long, Short, IsNumber;
    var tail := Word(kind) + (dot + number);
    DotDropped(dot, number);
    assert tail[..|Word(kind)|] == Word(kind) && tail[|Word(kind)|..] == dot + number;
  }

  lemma SubPreHits(head: string, kind: Kind, dot: string, number: string)
    requires IsDot(dot) && IsNumber(number)
    ensures SubPre(kind, head + "-" + (Word(kind) + (dot + number))) == head + (Mark(kind) + number)
  {
    hide SubPre, Shortened, Word, Mark, IsNumber;
    NoHyphenIn(kind, dot, number);
    SubPreTail(head, kind, Word(kind) + (dot + number));
    WordShortened(kind, dot, number);
  }

  lemma OtherStart(kind: Kind, other: Kind, rest: string)
    requires kind != other
    ensures Shortened(other, Word(kind) + rest).None?
  {
    assert Word(kind) == Long(kind);
    hide Long, Word;
    FirstLetters(kind, rest);
  }

  lemma SubPreMisses(head: string, kind: Kind, other: Kind, rest: string)
    requires kind != other && '-' !in Word(kind) + rest
    ensures SubPre(other, head + "-" + (Word(kind) + rest)) == head + "-" + (Word(kind) + rest)
  {
    hide SubPre, Shortened, Word;
    SubPreTail(head, other, Word(kind) + rest);
    OtherStart(kind, other, rest);
  }

  lemma NoHotfix(kind: Kind, dot: string, number: string)
    requires IsDot(dot) && IsNumber(number)
    ensures Hotfix(Word(kind) + (dot + number)).None?
  {
    var tail := Word(kind) + (dot + number);
    assert Word(kind) == Long(kind);
    FirstLetters(kind, dot + number);
    hide DigitsPrefix, DropDot, Long;
    if kind.Alpha? {
      assert tail[5..] == dot + number;
      DotDropped(dot, number);
      assert number + "" == number;
      DigitsPrefixStops(number, "");
    }
  }

  lemma SubHotfixMisses(head: string, kind: Kind, dot: string, number: string)
    requires IsDot(dot) && IsNumber(number)
    ensures SubHotfix(head + "-" + (Word(kind) + (dot + number))) == head + "-" + (Word(kind) + (dot + number))
  {
    hide SubHotfix, Hotfix, Word, Mark, IsNumber;
    NoHyphenIn(kind, dot, number);
    SubHotfixTail(head, Word(kind) + (dot + number));
    NoHotfix(kind, dot, number);
  }

  lemma HotfixFound(dot: string, number: string, post: string)
    requires IsDot(dot) && IsNumber(number) && IsNumber(post)
    ensures Hotfix("alpha" + (dot + (number + ("." + post)))) == Some("a" + number + (".post" + post))
  {
    hide DigitsPrefix, DropDot;
    var t := number + ("." + post);
    AlphaStarts(dot + t);
    DotDroppedBefore(dot, number, "." + post);
    DigitsPrefixStops(number, "." + post);
    NumberCut(number, post);
    hide StartsWith;
  }

  lemma AlphaStarts(rest: string)
    ensures StartsWith("alpha" + rest, "alpha") && ("alpha" + rest)[5..] == rest
  {
  }

  lemma NumberCut(number: string, post: string)
    ensures var t := number + ("." + post);
            |number| < |t| && t[|number|] == '.' && t[..|number|] == number && t[|number| + 1..] == post
  {
  }

  lemma DotDroppedBefore(dot: string, number: string, rest: string)
    requires IsDot(dot) && IsNumber(number)
    ensures DropDot(dot + (number + rest)) == number + rest
  {
    var t := number + rest;
    assert t[0] == number[0] && IsDigit(number[0]);
    if dot == "" {
      assert dot + t == t;
    } else {
      assert (dot + t)[..1] == "." && (dot + t)[1..] == t;
    }
  }

  lemma SubHotfixHits(head: string, dot: string, number: string, post: string)
    requires IsDot(dot) && IsNumber(number) && IsNumber(post)
    ensures SubHotfix(head + "-" + ("alpha" + (dot + (number + ("." + post))))) == head + ("a" + number + (".post" + post))
  {
    hide SubHotfix, Hotfix;
    DottedNumber(number);
    DottedNumber(post);
    SubHotfixTail(head, "alpha" + (dot + (number + ("." + post))));
    HotfixFound(dot, number, post);
  }

  // ---- every spelling is normalised -------------------------------------------

  lemma RewriteHyphenated(head: string, kind: Kind, dot: string, number: string)
    requires '-' !in head && IsDot(dot) && IsNumber(number)
    ensures Rewrite(head + "-" + (Word(kind) + (dot + number))) == head + (Mark(kind) + number)
  {
    hide SubPre, SubHotfix, Word, Mark, IsNumber;
    var s, t := head + "-" + (Word(kind) + (dot + number)), head + (Mark(kind) + number);
    NoHyphenIn(kind, dot, number);
    SubHotfixMisses(head, kind, dot, number);
    SubPreHits(head, kind, dot, number);
    forall other | other != kind ensures SubPre(other, s) == s { SubPreMisses(head, kind, other, dot + number); }
    PlainKept(t);
  }

  lemma RewriteDoubled(head: string, dot: string, number: string)
    requires '-' !in head && IsDot(dot) && IsNumber(number)
    ensures Rewrite(head + "-bet" + "-" + ("alpha" + (dot + number))) == head + ("b" + number)
  {
    var front := head + "-bet";
    var s, t := front + "-" + ("alpha" + (dot + number)), head + "-" + ("beta" + ("" + number));
    assert s == front + "-" + (Word(Alpha) + (dot + number));
    SubHotfixMisses(front, Alpha, dot, number);
    SubPreHits(front, Alpha, dot, number);
    assert front + ("a" + number) == t by { BetaMade(head, number); }
    SubPreHits(head, Beta, "", number);
    NoHyphenIn(Beta, "", number);
    assert '-' !in head + ("b" + number);
    PlainKept(head + ("b" + number));
    hide SubPre, SubHotfix;
  }

  lemma BetaMade(head: string, number: string)
    ensures head + "-bet" + ("a" + number) == head + "-" + ("beta" + ("" + number))
  {
    assert "-bet" + "a" == "-" + "beta";
    assert head + "-bet" + ("a" + number) == head + ("-bet" + "a") + number;
    assert head + "-" + ("beta" + ("" + number)) == head + ("-" + "beta") + number;
  }

  lemma RewriteHotfixed(head: string, dot: string, number: string, post: string)
    requires '-' !in head && IsDot(dot) && IsNumber(number) && IsNumber(post)
    ensures Rewrite(head + "-" + ("alpha" + (dot + (number + ("." + post))))) == head + ("a" + number + (".post" + post))
  {
    hide SubHotfix, Rewrite, IsNumber, DropDot;
    DottedNumber(number);
    DottedNumber(post);
    SubHotfixHits(head, dot, number, post);
    SameRewrite(head + "-" + ("alpha" + (dot + (number + ("." + post)))), head + ("a" + number + (".post" + post)));
  }

  /** Every spelling is rewritten to the normal text. */
  lemma SpellingRewritten(text: string, v: Version, form: Form)
    requires Valid(v) && Spells(text, v, form)
    ensures Rewrite(text) == Render(v)
  {
    hide Rewrite, RenderRelease;
    NormalIsRendered(v);
    ReleasePlain(v.release);
    PlainMeans(RenderRelease(v.release));
    var head := RenderRelease(v.release);
    match form
    case Already =>
      RenderPlain(v);
      PlainMeans(Render(v));
      RewritePlain(Render(v));
    case Hyphenated(dot) =>
      RewriteHyphenated(head, v.pre.value.kind, dot, v.pre.value.number);
      assert Mark(v.pre.value.kind) + v.pre.value.number + "" == Mark(v.pre.value.kind) + v.pre.value.number;
    case Hotfixed(dot) =>
      RewriteHotfixed(head, dot, v.pre.value.number, v.post.value);
    case Doubled(dot) =>
      RewriteDoubled(head, dot, v.pre.value.number);
      assert Mark(v.pre.value.kind) + v.pre.value.number + "" == Mark(v.pre.value.kind) + v.pre.value.number;
  }

  lemma SpellingEnds(text: string, v: Version, form: Form)
    requires Valid(v) && Spells(text, v, form)
    ensures text != "" && IsDigit(text[0]) && IsDigit(text[|text| - 1])
  {
    hide RenderRelease;
    NormalIsRendered(v);
    RenderPlain(v);
    ReleasePlain(v.release);
    if v.pre.Some? { assert IsDigit(v.pre.value.number[|v.pre.value.number| - 1]); }
    if v.post.Some? { assert IsDigit(v.post.value[|v.post.value| - 1]); }
    if form.Already? { NormalEnds(v); }
  }

  lemma {:induction false} ReleaseEnds(release: seq<string>)
    requires release != [] && forall i | 0 <= i < |release| :: IsNumber(release[i])
    ensures RenderRelease(release) != "" && IsDigit(RenderRelease(release)[|RenderRelease(release)| - 1])
  {
    assert IsNumber(release[0]);
    if |release| > 1 {
      ReleaseEnds(release[1..]);
    }
  }

  lemma NormalEnds(v: Version)
    requires Valid(v)
    ensures Normal(v) != "" && IsDigit(Normal(v)[|Normal(v)| - 1])
  {
    hide RenderRelease;
    ReleaseEnds(v.release);
    if v.pre.Some? { assert IsDigit(v.pre.value.number[|v.pre.value.number| - 1]); }
    if v.post.Some? { assert IsDigit(v.post.value[|v.post.value| - 1]); }
  }

  // ---- spaces and prefixes ----------------------------------------------------

  lemma {:induction false} LeftStripped(pad: string, s: string)
    requires IsPad(pad) && s != "" && !IsSpace(s[0])
    ensures StripLeft(pad + s) == s
    decreases |pad|
  {
    hide IsSpace;
    if pad == "" {
      assert pad + s == s;
    } else {
      assert (pad + s)[1..] == pad[1..] + s;
      LeftStripped(pad[1..], s);
    }
  }

  lemma {:induction false} RightStripped(s: string, pad: string)
    requires IsPad(pad) && s != "" && !IsSpace(s[|s| - 1])
    ensures StripRight(s + pad) == s
    decreases |pad|
  {
    hide IsSpace;
    if pad == "" {
      assert s + pad == s;
    } else {
      assert (s + pad)[..|s + pad| - 1] == s + pad[..|pad| - 1];
      RightStripped(s, pad[..|pad| - 1]);
    }
  }

  lemma PadsStripped(pad: string, s: string, pad': string)
    requires IsPad(pad) && IsPad(pad') && s != "" && !IsSpace(s[0]) && !IsSpace(s[|s| - 1])
    ensures Strip(pad + s + pad') == s
  {
    hide IsSpace, StripLeft, StripRight, IsPad;
    assert pad + s + pad' == pad + (s + pad');
    LeftStripped(pad, s + pad');
    RightStripped(s, pad');
  }

  lemma {:induction false} LeftPad(s: string)
    ensures exists pad :: IsPad(pad) && s == pad + StripLeft(s)
    ensures StripLeft(s) == "" || !IsSpace(StripLeft(s)[0])
  {
    hide IsSpace;
    if s != "" && IsSpace(s[0]) {
      LeftPad(s[1..]);
      var pad :| IsPad(pad) && s[1..] == pad + StripLeft(s[1..]);
      assert IsPad([s[0]] + pad) && s == [s[0]] + pad + StripLeft(s);
    } else {
      assert IsPad("") && s == "" + StripLeft(s);
    }
  }

  lemma {:induction false} RightPad(s: string)
    ensures exists pad :: IsPad(pad) && s == StripRight(s) + pad
  {
    hide IsSpace;
    if s != "" && IsSpace(s[|s| - 1]) {
      var t := s[..|s| - 1];
      RightPad(t);
      var pad :| IsPad(pad) && t == StripRight(t) + pad;
      assert IsPad(pad + [s[|s| - 1]]) && s == StripRight(s) + (pad + [s[|s| - 1]]);
    } else {
      assert IsPad("") && s == StripRight(s) + "";
    }
  }

  lemma PadsFound(s: string) returns (pad: string, pad': string)
    ensures IsPad(pad) && IsPad(pad') && s == pad + Strip(s) + pad'
  {
    hide IsSpace, StripLeft, StripRight, IsPad;
    LeftPad(s);
    pad :| IsPad(pad) && s == pad + StripLeft(s);
    RightPad(StripLeft(s));
    pad' :| IsPad(pad') && StripLeft(s) == Strip(s) + pad';
  }

  lemma StartOf(s: string, word: string)
    requires s != "" && word != "" && s[0] != word[0]
    ensures !StartsWith(s, word)
  {
  }

  lemma PrefixDropped(prefix: string, text: string)
    requires IsPrefix(prefix) && text != "" && IsDigit(text[0])
    ensures DropPrefix(prefix + text) == text
  {
    var s := prefix + text;
    assert s[|prefix|..] == text && s[..|prefix|] == prefix;
    if prefix == "" {
      assert s == text;
      StartOf(s, "v");
      StartOf(s, "rust-v");
    } else if prefix == "v" {
      StartOf(s, "rust-v");
    }
  }

  lemma PrefixFound(s: string) returns (prefix: string)
    ensures IsPrefix(prefix) && s == prefix + DropPrefix(s)
  {
    if StartsWith(s, "rust-v") {
      prefix := "rust-v";
    } else if StartsWith(s, "v") {
      prefix := "v";
    } else {
      prefix := "";
    }
  }

  /** A text that writes a version is accepted and normalised to it. */
  lemma WrittenNormalizes(version: string, v: Version)
    requires Valid(v) && Writes(version, v)
    ensures Normalize(version) == Some(Normal(v))
  {
    hide Spells, Rewrite, Match, Render, Normal, Strip, DropPrefix, IsPad, IsPrefix;
    var pad, prefix, text, pad', form :|
      IsPad(pad) && IsPad(pad') && IsPrefix(prefix) && Spells(text, v, form) && version == pad + (prefix + text) + pad';
    SpellingEnds(text, v, form);
    DigitsAreNoSpace(text[0]);
    DigitsAreNoSpace(text[|text| - 1]);
    PrefixStarts(prefix, text);
    PadsStripped(pad, prefix + text, pad');
    PrefixDropped(prefix, text);
    SpellingRewritten(text, v, form);
    NormalIsRendered(v);
    MatchIff(Render(v), v);
  }

  lemma DigitsAreNoSpace(c: char)
    requires IsDigit(c)
    ensures !IsSpace(c)
  {
  }

  lemma PrefixStarts(prefix: string, text: string)
    requires IsPrefix(prefix) && text != "" && !IsSpace(text[0])
    ensures prefix + text != "" && !IsSpace((prefix + text)[0]) && (prefix + text)[|prefix + text| - 1] == text[|text| - 1]
  {
    assert prefix != "" ==> (prefix + text)[0] == prefix[0];
  }

  // ---- nothing else is accepted -----------------------------------------------

  /** A number at the end of a text, and what comes before it, are determined by the text. */
  lemma SameEnd(p: string, c: char, n: string, q: string, d: char, m: string)
    requires !IsDigit(c) && !IsDigit(d) && IsNumber(n) && IsNumber(m) && p + [c] + n == q + [d] + m
    ensures p == q && c == d && n == m
  {
    hide IsDigit;
    var s, t := p + [c] + n, q + [d] + m;
    DigitsBehind(p, c, n);
    DigitsBehind(q, d, m);
    assert s[|p|] == c && t[|q|] == d;
    assert |p| == |q|;
    assert s[..|p|] == p && t[..|q|] == q && s[|p| + 1..] == n && t[|q| + 1..] == m;
  }

  lemma DigitsBehind(p: string, c: char, n: string)
    requires IsNumber(n)
    ensures forall j | |p| < j < |p + [c] + n| :: IsDigit((p + [c] + n)[j])
  {
    hide IsDigit;
    forall j | |p| < j < |p + [c] + n| ensures IsDigit((p + [c] + n)[j]) {
      assert (p + [c] + n)[j] == n[j - |p| - 1];
    }
  }

  lemma CutTail(s: string, n: nat)
    requires n < |s| && s[|s| - n - 1] == '-'
    ensures s == s[..|s| - n - 1] + "-" + s[|s| - n..]
  {
  }

  lemma DotFound(t: string) returns (dot: string)
    ensures IsDot(dot) && t == dot + DropDot(t)
  {
    dot := if StartsWith(t, ".") then "." else "";
  }

  lemma WordTaken(tail: string, word: string) returns (dot: string)
    requires StartsWith(tail, word)
    ensures IsDot(dot) && tail == word + (dot + DropDot(tail[|word|..]))
  {
    hide DropDot;
    dot := DotFound(tail[|word|..]);
    assert tail == tail[..|word|] + tail[|word|..];
  }

  lemma ShortenedInverse(kind: Kind, tail: string) returns (dot: string, number: string)
    requires Shortened(kind, tail).Some?
    ensures IsDot(dot) && IsNumber(number) && tail == Word(kind) + (dot + number)
    ensures Shortened(kind, tail) == Some(Mark(kind) + number)
  {
    assert Word(kind) == Long(kind) && Mark(kind) == Short(kind);
    hide IsNumber, DropDot, Long, Short, Word, Mark, StartsWith;
    number := DropDot(tail[|Long(kind)|..]);
    dot := WordTaken(tail, Long(kind));
  }

  lemma HotfixInverse(tail: string) returns (dot: string, number: string, post: string)
    requires Hotfix(tail).Some?
    ensures IsDot(dot) && IsNumber(number) && IsNumber(post) && tail == "alpha" + (dot + (number + ("." + post)))
    ensures Hotfix(tail) == Some("a" + number + (".post" + post))
  {
    hide DropDot, DigitsPrefix;
    var t := DropDot(tail[5..]);
    var d := DigitsPrefix(t);
    number, post := t[..d], t[d + 1..];
    dot := WordTaken(tail, "alpha");
    DotCut(t, d);
  }

  lemma DotCut(t: string, d: nat)
    requires d < |t| && t[d] == '.'
    ensures t == t[..d] + ("." + t[d + 1..])
  {
  }

  lemma SubPreInverse(kind: Kind, s: string) returns (head: string, dot: string, number: string)
    requires SubPre(kind, s) != s
    ensures IsDot(dot) && IsNumber(number) && s == head + "-" + (Word(kind) + (dot + number))
    ensures SubPre(kind, s) == head + (Mark(kind) + number)
  {
    hide TailLength, Shortened, IsNumber, Word, Mark;
    var n := TailLength(s);
    head := s[..|s| - n - 1];
    CutTail(s, n);
    dot, number := ShortenedInverse(kind, s[|s| - n..]);
  }

  lemma SubHotfixInverse(s: string) returns (head: string, dot: string, number: string, post: string)
    requires SubHotfix(s) != s
    ensures IsDot(dot) && IsNumber(number) && IsNumber(post)
    ensures s == head + "-" + ("alpha" + (dot + (number + ("." + post)))) && SubHotfix(s) == head + ("a" + number + (".post" + post))
  {
    hide TailLength, Hotfix, IsNumber;
    var n := TailLength(s);
    head := s[..|s| - n - 1];
    CutTail(s, n);
    dot, number, post := HotfixInverse(s[|s| - n..]);
  }

  function LastChar(s: string): char
    requires s != ""
  {
    s[|s| - 1]
  }

  function Front(s: string): string
    requires s != ""
  {
    s[..|s| - 1]
  }

  lemma LastLetters()
    ensures forall kind :: Word(kind) != "" && Mark(kind) != "" && !IsDigit(LastChar(Word(kind))) && !IsDigit(LastChar(Mark(kind)))
    ensures LastChar(Word(Alpha)) == 'a' && LastChar(Word(Beta)) == 'a' && LastChar(Word(Candidate)) == 'c'
    ensures LastChar(Mark(Alpha)) == 'a' && LastChar(Mark(Beta)) == 'b' && LastChar(Mark(Candidate)) == 'c'
    ensures Front(Word(Beta)) == "bet" && Front(Mark(Alpha)) == "" && Front(Mark(Beta)) == "" && Front(Mark(Candidate)) == "r"
    ensures !IsDigit('t') && !IsDigit('.')
  {
  }

  lemma EndsMarked(head: string, word: string, number: string)
    requires word != ""
    ensures head + (word + number) == head + Front(word) + [LastChar(word)] + number
  {
    assert word == Front(word) + [LastChar(word)];
    assert head + (Front(word) + [LastChar(word)] + number) == head + Front(word) + [LastChar(word)] + number;
  }

  lemma EndsSpelled(head: string, word: string, dot: string, number: string)
    requires word != "" && IsDot(dot)
    ensures head + "-" + (word + (dot + number))
         == if dot == "" then head + "-" + Front(word) + [LastChar(word)] + number else head + "-" + word + ['.'] + number
  {
    if dot == "" {
      assert dot + number == number;
      EndsMarked(head + "-", word, number);
    } else {
      assert head + "-" + (word + ("." + number)) == head + "-" + word + "." + number;
    }
  }

  lemma EndsHotfixed(head: string, number: string, post: string)
    ensures head + ("a" + number + (".post" + post)) == head + "a" + number + ".pos" + ['t'] + post
  {
    assert ".post" == ".pos" + ['t'];
    assert head + ("a" + number + (".pos" + ['t'] + post)) == head + "a" + number + ".pos" + ['t'] + post;
  }

  /** A text that still awaits a substitution is no result of the hotfix substitution. */
  lemma NotFromHotfix(head: string, kind: Kind, dot: string, n: string, head': string, n': string, m: string)
    requires IsDot(dot) && IsNumber(n) && IsNumber(m)
    ensures head + "-" + (Word(kind) + (dot + n)) != head' + ("a" + n' + (".post" + m))
  {
    hide IsDigit, Word, Mark, IsNumber;
    LastLetters();
    EndsSpelled(head, Word(kind), dot, n);
    EndsHotfixed(head', n', m);
    if head + "-" + (Word(kind) + (dot + n)) == head' + ("a" + n' + (".post" + m)) {
      if dot == "" {
        SameEnd(head + "-" + Front(Word(kind)), LastChar(Word(kind)), n, head' + "a" + n' + ".pos", 't', m);
      } else {
        SameEnd(head + "-" + Word(kind), '.', n, head' + "a" + n' + ".pos", 't', m);
      }
    }
  }

  /** Of the other substitutions only that of an alpha can leave something for a later one, namely a beta. */
  lemma OnlyDoubled(head: string, kind: Kind, dot: string, n: string, head': string, earlier: Kind, n': string)
    requires IsDot(dot) && IsNumber(n) && IsNumber(n') && head + "-" + (Word(kind) + (dot + n)) == head' + (Mark(earlier) + n')
    requires (kind.Candidate? && !earlier.Candidate?) || (kind.Beta? && earlier.Alpha?)
    ensures kind.Beta? && earlier.Alpha? && dot == "" && n == n' && head' == head + "-bet"
  {
    hide IsDigit, IsNumber, Word, Mark;
    LastLetters();
    EndsSpelled(head, Word(kind), dot, n);
    EndsMarked(head', Mark(earlier), n');
    if dot == "" {
      SameEnd(head + "-" + Front(Word(kind)), LastChar(Word(kind)), n, head' + Front(Mark(earlier)), LastChar(Mark(earlier)), n');
      assert head' + "" == head';
    } else {
      SameEnd(head + "-" + Word(kind), '.', n, head' + Front(Mark(earlier)), LastChar(Mark(earlier)), n');
    }
  }

  /** How the normal text of a version ends, with a dot put in front so that it always has an end. */
  lemma NormalEnd(v: Version) returns (p: string, c: char, n: string)
    requires Valid(v)
    ensures "." + Normal(v) == p + [c] + n && !IsDigit(c) && IsNumber(n)
    ensures v.post.Some? ==>
              && c == 't' && n == v.post.value
              && p == "." + RenderRelease(v.release) + (if v.pre.Some? then Mark(v.pre.value.kind) + v.pre.value.number else "") + ".pos"
    ensures v.post.None? && v.pre.Some? ==>
              && c == LastChar(Mark(v.pre.value.kind)) && n == v.pre.value.number
              && p == "." + RenderRelease(v.release) + Front(Mark(v.pre.value.kind))
    ensures v.post.None? && v.pre.None? ==> c == '.'
  {
    hide IsDigit, IsNumber, RenderRelease, Mark;
    LastLetters();
    var head := "." + RenderRelease(v.release);
    if v.post.Some? {
      var pre := if v.pre.Some? then Mark(v.pre.value.kind) + v.pre.value.number else "";
      assert ".post" == ".pos" + ['t'];
      p, c, n := head + pre + ".pos", 't', v.post.value;
      assert "." + Normal(v) == head + (pre + (".pos" + ['t'] + n));
    } else if v.pre.Some? {
      var mark := Mark(v.pre.value.kind);
      EndsMarked(head, mark, v.pre.value.number);
      p, c, n := head + Front(mark), LastChar(mark), v.pre.value.number;
      assert "." + Normal(v) == head + (mark + n);
    } else {
      assert "." + Normal(v) == head;
      p, n := ReleaseEnd(v.release);
      c := '.';
    }
  }

  lemma {:induction false} ReleaseEnd(release: seq<string>) returns (p: string, n: string)
    requires release != [] && forall i | 0 <= i < |release| :: IsNumber(release[i])
    ensures IsNumber(n) && "." + RenderRelease(release) == p + ['.'] + n
  {
    hide IsNumber;
    if |release| == 1 {
      p, n := "", release[0];
    } else {
      var q;
      q, n := ReleaseEnd(release[1..]);
      p := "." + release[0] + q;
      assert "." + RenderRelease(release) == "." + release[0] + ("." + RenderRelease(release[1..]));
    }
  }

  lemma MarkedNormal(v: Version, head: string, kind: Kind, number: string)
    requires Valid(v) && IsNumber(number) && Normal(v) == head + (Mark(kind) + number)
    ensures v.pre == Some(Pre(kind, number)) && v.post.None? && RenderRelease(v.release) == head
  {
    hide IsDigit, IsNumber, RenderRelease, Mark, Normal;
    LastLetters();
    var p, c, n := NormalEnd(v);
    EndsMarked("." + head, Mark(kind), number);
    assert "." + Normal(v) == "." + head + (Mark(kind) + number);
    SameEnd(p, c, n, "." + head + Front(Mark(kind)), LastChar(Mark(kind)), number);
    if v.pre.Some? {
      SameDotted(RenderRelease(v.release), head, Front(Mark(kind)));
    }
  }

  lemma SameDotted(a: string, b: string, c: string)
    ensures "." + a + c == "." + b + c ==> a == b
  {
    assert ("." + a + c)[1..|a| + 1] == a;
    if "." + a + c == "." + b + c {
      assert ("." + b + c)[1..|b| + 1] == b && |a| == |b|;
    }
  }

  lemma HotfixedNormal(v: Version, head: string, number: string, post: string)
    requires Valid(v) && IsNumber(number) && IsNumber(post) && Normal(v) == head + ("a" + number + (".post" + post))
    ensures v.pre == Some(Pre(Alpha, number)) && v.post == Some(post) && RenderRelease(v.release) == head
  {
    hide IsDigit, IsNumber, RenderRelease, Mark, Normal;
    LastLetters();
    var p, c, n := NormalEnd(v);
    EndsHotfixed("." + head, number, post);
    assert "." + Normal(v) == "." + head + ("a" + number + (".post" + post));
    SameEnd(p, c, n, "." + head + "a" + number + ".pos", 't', post);
    assert v.post == Some(post);
    var without := v.(post := None);
    assert Normal(without) == head + (Mark(Alpha) + number) by { WithoutPost(v, head, number, p); }
    MarkedNormal(without, head, Alpha, number);
  }

  lemma WithoutPost(v: Version, head: string, number: string, p: string)
    requires p == "." + RenderRelease(v.release) + (if v.pre.Some? then Mark(v.pre.value.kind) + v.pre.value.number else "") + ".pos"
    requires p == "." + head + "a" + number + ".pos"
    ensures Normal(v.(post := None)) == head + (Mark(Alpha) + number)
  {
    hide RenderRelease;
    var text := RenderRelease(v.release) + (if v.pre.Some? then Mark(v.pre.value.kind) + v.pre.value.number else "");
    assert p[1..|p| - 4] == text && p[1..|p| - 4] == head + "a" + number;
    assert Normal(v.(post := None)) == text;
    assert head + (Mark(Alpha) + number) == head + "a" + number;
  }

  /** Only spellings of a version are rewritten to it. */
  lemma RewriteInverse(text: string, v: Version) returns (form: Form)
    requires Valid(v) && Rewrite(text) == Normal(v)
    ensures Spells(text, v, form)
  {
    hide SubHotfix, SubPre, Normal, IsNumber, Word, Mark, RenderRelease;
    var u1 := SubHotfix(text);
    var u2 := SubPre(Alpha, u1);
    var u3 := SubPre(Beta, u2);
    var s := SubPre(Candidate, u3);
    if s != u3 {
      form := FromCandidate(text, v);
    } else if u3 != u2 {
      form := FromBeta(text, v);
    } else if u2 != u1 {
      form := FromAlpha(text, v);
    } else if u1 != text {
      form := FromHotfix(text, v);
    } else {
      form := Already;
    }
  }

  lemma FromHotfix(text: string, v: Version) returns (form: Form)
    requires Valid(v) && SubHotfix(text) == Normal(v) && SubHotfix(text) != text
    ensures Spells(text, v, form)
  {
    hide SubHotfix, Normal, IsNumber, Mark, RenderRelease;
    var head, dot, number, post := SubHotfixInverse(text);
    HotfixedNormal(v, head, number, post);
    form := Hotfixed(dot);
  }

  /** A text the given substitution changes was not changed by the hotfix substitution before. */
  lemma HotfixUntouched(text: string, u: string, head: string, kind: Kind, dot: string, number: string)
    requires u == SubHotfix(text) && IsDot(dot) && IsNumber(number) && u == head + "-" + (Word(kind) + (dot + number))
    ensures u == text
  {
    hide SubHotfix, IsNumber, Word;
    if u != text {
      var h, d, n, m := SubHotfixInverse(text);
      NotFromHotfix(head, kind, dot, number, h, n, m);
    }
  }

  lemma FromAlpha(text: string, v: Version) returns (form: Form)
    requires Valid(v) && var u1 := SubHotfix(text); SubPre(Alpha, u1) == Normal(v) && SubPre(Alpha, u1) != u1
    ensures Spells(text, v, form)
  {
    hide SubHotfix, SubPre, Normal, IsNumber, Word, Mark, RenderRelease;
    var u1 := SubHotfix(text);
    var head, dot, number := SubPreInverse(Alpha, u1);
    HotfixUntouched(text, u1, head, Alpha, dot, number);
    MarkedNormal(v, head, Alpha, number);
    form := Hyphenated(dot);
  }

  lemma FromBeta(text: string, v: Version) returns (form: Form)
    requires Valid(v)
    requires var u2 := SubPre(Alpha, SubHotfix(text)); SubPre(Beta, u2) == Normal(v) && SubPre(Beta, u2) != u2
    ensures Spells(text, v, form)
  {
    hide SubHotfix, SubPre, Normal, IsNumber, Word, Mark, RenderRelease;
    var u1 := SubHotfix(text);
    var u2 := SubPre(Alpha, u1);
    var head, dot, number := SubPreInverse(Beta, u2);
    MarkedNormal(v, head, Beta, number);
    if u2 != u1 {
      var head', dot', number' := SubPreInverse(Alpha, u1);
      OnlyDoubled(head, Beta, dot, number, head', Alpha, number');
      HotfixUntouched(text, u1, head', Alpha, dot', number');
      assert Word(Alpha) == "alpha" by { AlphaWord(); }
      form := Doubled(dot');
    } else {
      HotfixUntouched(text, u1, head, Beta, dot, number);
      form := Hyphenated(dot);
    }
  }

  lemma AlphaWord()
    ensures Word(Alpha) == "alpha"
  {
  }

  lemma FromCandidate(text: string, v: Version) returns (form: Form)
    requires Valid(v)
    requires var u3 := SubPre(Beta, SubPre(Alpha, SubHotfix(text))); SubPre(Candidate, u3) == Normal(v) && SubPre(Candidate, u3) != u3
    ensures Spells(text, v, form)
  {
    hide SubHotfix, SubPre, Normal, IsNumber, Word, Mark, RenderRelease;
    var u1 := SubHotfix(text);
    var u2 := SubPre(Alpha, u1);
    var u3 := SubPre(Beta, u2);
    var head, dot, number := SubPreInverse(Candidate, u3);
    MarkedNormal(v, head, Candidate, number);
    EarlierUntouched(u2, Beta, head, dot, number);
    EarlierUntouched(u1, Alpha, head, dot, number);
    HotfixUntouched(text, u1, head, Candidate, dot, number);
    form := Hyphenated(dot);
  }

  lemma EarlierUntouched(u: string, earlier: Kind, head: string, dot: string, number: string)
    requires !earlier.Candidate? && IsDot(dot) && IsNumber(number)
    requires SubPre(earlier, u) == head + "-" + (Word(Candidate) + (dot + number))
    ensures SubPre(earlier, u) == u
  {
    hide SubPre, IsNumber, Word, Mark;
    if SubPre(earlier, u) != u {
      var head', dot', number' := SubPreInverse(earlier, u);
      OnlyDoubled(head, Candidate, dot, number, head', earlier, number');
    }
  }

  /**
   * A text is accepted exactly when it writes a version in one of these spellings, and is then
   * normalised to that version's normal text.
   */
  lemma NormalizeIff(version: string, r: string)
    ensures Normalize(version) == Some(r) <==> exists v :: Valid(v) && Writes(version, v) && r == Normal(v)
  {
    hide Normalize, Writes, Normal;
    forall v | Valid(v) && Writes(version, v) ensures Normalize(version) == Some(Normal(v)) {
      WrittenNormalizes(version, v);
    }
    if Normalize(version) == Some(r) {
      var v := AcceptedWritten(version);
    }
  }

  lemma AcceptedWritten(version: string) returns (v: Version)
    requires Normalize(version).Some?
    ensures Valid(v) && Writes(version, v) && Normalize(version) == Some(Normal(v))
  {
    hide Strip, DropPrefix, Rewrite, Match, Render, Normal, Spells, IsPad, IsPrefix;
    var text := DropPrefix(Strip(version));
    MatchRenders(Rewrite(text));
    v := Match(Rewrite(text)).value;
    NormalIsRendered(v);
    var form := RewriteInverse(text, v);
    var pad, pad' := PadsFound(version);
    var prefix := PrefixFound(Strip(version));
    assert IsPad(pad) && IsPad(pad') && IsPrefix(prefix) && Spells(text, v, form) && version == pad + (prefix + text) + pad';
  }

  /** The tag of an accepted version spells its pre-release out, unless a post-release follows one that is no alpha. */
  lemma TagSpelled(version: string, v: Version)
    requires Valid(v) && Writes(version, v)
    ensures var head := RenderRelease(v.release);
            ReleaseTag(version)
            == Some("rust-v" + if v.pre.Some? && v.post.None? then head + ("-" + Word(v.pre.value.kind) + "." + v.pre.value.number)
                               else if v.pre.Some? && v.pre.value.kind.Alpha? then head + ("-alpha." + v.pre.value.number + "." + v.post.value)
                               else Normal(v))
  {
    hide Normalize, Match, Render, RenderRelease, Writes, Normal;
    WrittenNormalizes(version, v);
    NormalIsRendered(v);
    MatchIff(Render(v), v);
  }

  /** The quirk at work: shortening the alpha completes the word that the next substitution looks for. */
  lemma BetAlphaTaken(release: seq<string>, number: string)
    requires release != [] && (forall n | n in release :: IsNumber(n)) && IsNumber(number)
    ensures Normalize(RenderRelease(release) + "-bet-alpha" + number) == Some(RenderRelease(release) + "b" + number)
  {
    var v := Version(release, Some(Pre(Beta, number)), None);
    var head := RenderRelease(release);
    hide Normalize, RenderRelease, IsNumber, Spells;
    var text := head + "-bet" + "-" + ("alpha" + ("" + number));
    DoubledSpelled(v, text);
    PlainWritten(text, v, Doubled(""));
    WrittenNormalizes(text, v);
    assert text == head + "-bet-alpha" + number;
    assert Normal(v) == head + "b" + number;
  }

  lemma DoubledSpelled(v: Version, text: string)
    requires v.pre.Some? && v.pre.value.kind.Beta? && v.post.None?
    requires text == RenderRelease(v.release) + "-bet" + "-" + ("alpha" + ("" + v.pre.value.number))
    ensures Spells(text, v, Doubled(""))
  {
    hide RenderRelease;
  }

  lemma PlainWritten(text: string, v: Version, form: Form)
    requires Spells(text, v, form)
    ensures Writes(text, v)
  {
    hide Spells;
    assert IsPad("") && IsPrefix("") && text == "" + ("" + text) + "";
  }

  // ---- runtime versions -------------------------------------------------------

  ghost predicate IsRuntimeTail(tail: string) {
    || tail == ""
    || (exists n :: IsNumber(n) && tail == "a" + n)
    || (exists n, m :: IsNumber(n) && IsNumber(m) && tail == "a" + n + (".post" + m))
  }

  ghost predicate IsRuntimeText(version: string) {
    exists a, b, c, tail :: IsNumber(a) && IsNumber(b) && IsNumber(c) && IsRuntimeTail(tail)
                            && version == a + ("." + (b + ("." + c))) + tail
  }

  lemma ThreeNumbers(a: string, b: string, c: string)
    ensures RenderRelease([a, b, c]) == a + ("." + (b + ("." + c)))
  {
    RenderMore(a, [b, c]);
    RenderMore(b, [c]);
    RenderOne(c);
    assert [a] + [b, c] == [a, b, c] && [b] + [c] == [b, c];
  }

  /** A runtime version is answered exactly when it is three numbers, perhaps an alpha, perhaps a post-release of that. */
  lemma RuntimeIff(version: string)
    ensures ResolveRuntime(version).Some? <==> IsRuntimeText(version)
    ensures ResolveRuntime(version).Some? ==>
              ResolveRuntime(version).value.0 == version && ReleaseTag(version) == Some(ResolveRuntime(version).value.1)
  {
    hide ReleaseTag, Match, Normalize, Render;
    RuntimeResolves(version);
    if ResolveRuntime(version).Some? {
      MatchRenders(version);
      RuntimeWritten(Match(version).value);
    }
    if IsRuntimeText(version) {
      var v := RuntimeRead(version);
      MatchIff(version, v);
    }
  }

  lemma RuntimeWritten(v: Version)
    requires Valid(v) && IsRuntime(v)
    ensures IsRuntimeText(Render(v))
  {
    var a, b, c := v.release[0], v.release[1], v.release[2];
    assert v.release == [a, b, c];
    ThreeNumbers(a, b, c);
    var tail := Normal(v)[|RenderRelease(v.release)|..];
    NormalIsRendered(v);
    hide IsNumber, RenderRelease, Render;
    assert Normal(v) == RenderRelease(v.release) + tail;
    assert IsRuntimeTail(tail);
  }

  lemma RuntimeRead(version: string) returns (v: Version)
    requires IsRuntimeText(version)
    ensures Valid(v) && IsRuntime(v) && version == Render(v)
  {
    hide IsNumber;
    var a, b, c, tail :| IsNumber(a) && IsNumber(b) && IsNumber(c) && IsRuntimeTail(tail)
                         && version == a + ("." + (b + ("." + c))) + tail;
    ThreeNumbers(a, b, c);
    var release := [a, b, c];
    if tail == "" {
      v := Version(release, None, None);
    } else if exists n :: IsNumber(n) && tail == "a" + n {
      var n :| IsNumber(n) && tail == "a" + n;
      v := Version(release, Some(Pre(Alpha, n)), None);
    } else {
      var n, m :| IsNumber(n) && IsNumber(m) && tail == "a" + n + (".post" + m);
      v := Version(release, Some(Pre(Alpha, n)), Some(m));
    }
    NormalIsRendered(v);
    hide RenderRelease, Render;
    assert Normal(v) == RenderRelease(release) + tail;
  }
}
