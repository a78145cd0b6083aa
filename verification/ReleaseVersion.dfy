/** Version normalisation and release tags of the Python packages, `release_version.py`. */
module ReleaseVersion {

  import opened Text
  import opened Wrappers

  predicate IsNumber(s: string) { s != "" && forall i | 0 <= i < |s| :: IsDigit(s[i]) }

  /** What `str.strip` removes from both ends. */
  predicate IsSpace(c: char) {
    || '\t' <= c <= '\r' || '\U{1C}' <= c <= ' ' || c == '\U{85}' || c == '\U{A0}' || c == '\U{1680}'
    || '\U{2000}' <= c <= '\U{200A}' || c == '\U{2028}' || c == '\U{2029}' || c == '\U{202F}'
    || c == '\U{205F}' || c == '\U{3000}'
  }

  // ---- normalised versions ----------------------------------------------------

  datatype Kind = Alpha | Beta | Candidate

  datatype Pre = Pre(kind: Kind, number: string)

  /** A release number such as 0.136.0, a pre-release and a post-release. */
  datatype Version = Version(release: seq<string>, pre: Option<Pre>, post: Option<string>)

  function Short(kind: Kind): string {
    match kind case Alpha => "a" case Beta => "b" case Candidate => "rc"
  }

  function Long(kind: Kind): string {
    match kind case Alpha => "alpha" case Beta => "beta" case Candidate => "rc"
  }

  predicate Valid(v: Version) {
    && v.release != [] && (forall i | 0 <= i < |v.release| :: IsNumber(v.release[i]))
    && (v.pre.Some? ==> IsNumber(v.pre.value.number))
    && (v.post.Some? ==> IsNumber(v.post.value))
  }

  function RenderRelease(release: seq<string>): string {
    if release == [] then ""
    else release[0] + if |release| == 1 then "" else "." + RenderRelease(release[1..])
  }

  function RenderPre(pre: Option<Pre>): string {
    if pre.None? then "" else Short(pre.value.kind) + pre.value.number
  }

  function RenderPost(post: Option<string>): string {
    if post.None? then "" else ".post" + post.value
  }

  function Render(v: Version): string {
    RenderRelease(v.release) + (RenderPre(v.pre) + RenderPost(v.post))
  }

  // ---- matching ---------------------------------------------------------------

  datatype Read<T> = Read(value: T, rest: string)

  function ReadRelease(s: string): (r: Option<Read<seq<string>>>)
    ensures r.Some? <==> s != "" && IsDigit(s[0])
    decreases |s|
  {
    var n := DigitsPrefix(s);
    if n == 0 then None
    else if n + 1 < |s| && s[n] == '.' && IsDigit(s[n + 1]) then
      var more := ReadRelease(s[n + 1..]).value;
      Some(Read([s[..n]] + more.value, more.rest))
    else Some(Read([s[..n]], s[n..]))
  }

  function KindAt(s: string): Option<Kind> {
    if StartsWith(s, "a") then Some(Alpha)
    else if StartsWith(s, "b") then Some(Beta)
    else if StartsWith(s, "rc") then Some(Candidate)
    else None
  }

  function ReadPre(s: string): Read<Option<Pre>> {
    match KindAt(s)
    case None => Read(None, s)
    case Some(kind) =>
      if !StartsWith(s, Short(kind)) then Read(None, s)
      else
        var t := s[|Short(kind)|..];
        var n := DigitsPrefix(t);
        if n == 0 then Read(None, s) else Read(Some(Pre(kind, t[..n])), t[n..])
  }

  function ReadPost(s: string): Read<Option<string>> {
    if !StartsWith(s, ".post") then Read(None, s)
    else
      var t := s[5..];
      var n := DigitsPrefix(t);
      if n == 0 then Read(None, s) else Read(Some(t[..n]), t[n..])
  }

  /** A full match of the pattern for normalised versions, taken apart. */
  function Match(s: string): Option<Version> {
    match ReadRelease(s)
    case None => None
    case Some(release) =>
      var pre := ReadPre(release.rest);
      var post := ReadPost(pre.rest);
      if post.rest == "" then Some(Version(release.value, pre.value, post.value)) else None
  }

  // ---- normalising ------------------------------------------------------------

  function StripLeft(s: string): string {
    if s != "" && IsSpace(s[0]) then StripLeft(s[1..]) else s
  }

  function StripRight(s: string): string {
    if s != "" && IsSpace(s[|s| - 1]) then StripRight(s[..|s| - 1]) else s
  }

  function Strip(s: string): string { StripRight(StripLeft(s)) }

  function DropPrefix(s: string): string {
    if StartsWith(s, "rust-v") then s[6..]
    else if StartsWith(s, "v") then s[1..]
    else s
  }

  /** The length of the text after the last hyphen, or of the whole text if there is none. */
  function TailLength(s: string): (n: nat)
    ensures n <= |s| && (forall i | |s| - n <= i < |s| :: s[i] != '-') && (n < |s| ==> s[|s| - n - 1] == '-')
  {
    if s == "" || s[|s| - 1] == '-' then 0 else 1 + TailLength(s[..|s| - 1])
  }

  function DropDot(s: string): string {
    if StartsWith(s, ".") then s[1..] else s
  }

  /** What replaces the last hyphen and the text after it if that text names an alpha and a hotfix. */
  function Hotfix(tail: string): Option<string> {
    if !StartsWith(tail, "alpha") then None
    else
      var t := DropDot(tail[5..]);
      var d := DigitsPrefix(t);
      if 0 < d < |t| && t[d] == '.' && IsNumber(t[d + 1..])
      then Some("a" + t[..d] + (".post" + t[d + 1..]))
      else None
  }

  /**
   * The patterns are anchored at the end and hold no hyphen but their first character,
   * so they can only match from the last hyphen on.
   */
  function SubHotfix(s: string): string {
    var n := TailLength(s);
    if n == |s| || Hotfix(s[|s| - n..]).None? then s
    else s[..|s| - n - 1] + Hotfix(s[|s| - n..]).value
  }

  /** The same for a pre-release of the given kind. */
  function Shortened(kind: Kind, tail: string): Option<string> {
    if !StartsWith(tail, Long(kind)) then None
    else
      var t := DropDot(tail[|Long(kind)|..]);
      if IsNumber(t) then Some(Short(kind) + t) else None
  }

  function SubPre(kind: Kind, s: string): string {
    var n := TailLength(s);
    if n == |s| || Shortened(kind, s[|s| - n..]).None? then s
    else s[..|s| - n - 1] + Shortened(kind, s[|s| - n..]).value
  }

  function Rewrite(s: string): string {
    SubPre(Candidate, SubPre(Beta, SubPre(Alpha, SubHotfix(s))))
  }

  function Normalize(version: string): (r: Option<string>)
    ensures r.Some? ==> Match(r.value).Some?
  {
    var s := Rewrite(DropPrefix(Strip(version)));
    if Match(s).None? then None else Some(s)
  }

  /** The release version of a normalised one: pre-releases, and post-releases of alphas, are spelled out. */
  function Spelled(v: Version): string {
    if v.pre.Some? && v.pre.value.kind.Alpha? && v.post.Some?
    then RenderRelease(v.release) + ("-alpha." + v.pre.value.number + "." + v.post.value)
    else if v.pre.Some? && v.post.None?
    then RenderRelease(v.release) + ("-" + Long(v.pre.value.kind) + "." + v.pre.value.number)
    else Render(v)
  }

  function ReleaseVersionOf(version: string): Option<string> {
    match Normalize(version)
    case None => None
    case Some(normalized) => Some(Spelled(Match(normalized).value))
  }

  function ReleaseTag(version: string): Option<string> {
    match ReleaseVersionOf(version)
    case None => None
    case Some(text) => Some("rust-v" + text)
  }

  // ---- matching is exact ------------------------------------------------------

  /** What may follow a release number without becoming part of it. */
  predicate EndsRelease(rest: string) {
    rest == "" || (!IsDigit(rest[0]) && !(rest[0] == '.' && |rest| > 1 && IsDigit(rest[1])))
  }

  lemma ReadLast(number: string, rest: string)
    requires IsNumber(number) && EndsRelease(rest)
    ensures ReadRelease(number + rest) == Some(Read([number], rest))
  {
    var s, n := number + rest, |number|;
    DigitsPrefixStops(number, rest);
    assert s[..n] == number && s[n..] == rest;
    assert rest != "" ==> s[n] == rest[0];
    assert |rest| > 1 ==> s[n + 1] == rest[1];
  }

  lemma ReadMore(number: string, tail: string)
    requires IsNumber(number) && tail != "" && IsDigit(tail[0])
    ensures var more := ReadRelease(tail).value;
            ReadRelease(number + ("." + tail)) == Some(Read([number] + more.value, more.rest))
  {
    var s, n := number + ("." + tail), |number|;
    DigitsPrefixStops(number, "." + tail);
    assert s[..n] == number && s[n] == '.' && s[n + 1..] == tail;
    assert s[n + 1] == tail[0];
  }

  lemma {:induction false} ReleaseReads(release: seq<string>, rest: string)
    requires release != [] && (forall i | 0 <= i < |release| :: IsNumber(release[i])) && EndsRelease(rest)
    ensures ReadRelease(RenderRelease(release) + rest) == Some(Read(release, rest))
    decreases |release|
  {
    hide ReadRelease, EndsRelease;
    var number := release[0];
    assert IsNumber(number);
    if |release| == 1 {
      ReadLast(number, rest);
      assert RenderRelease(release) == number && release == [number];
    } else {
      var more := RenderRelease(release[1..]);
      assert IsNumber(release[1..][0]);
      assert (more + rest)[0] == release[1][0];
      assert RenderRelease(release) + rest == number + ("." + (more + rest));
      ReadMore(number, more + rest);
      ReleaseReads(release[1..], rest);
      assert release == [number] + release[1..];
    }
  }

  lemma {:induction false} ReleaseRead(s: string)
    requires s != "" && IsDigit(s[0])
    ensures var r := ReadRelease(s).value;
            && s == RenderRelease(r.value) + r.rest && r.value != []
            && forall i | 0 <= i < |r.value| :: IsNumber(r.value[i])
    decreases |s|
  {
    hide ReadRelease, RenderRelease;
    var n := DigitsPrefix(s);
    var number := s[..n];
    assert n > 0 && IsNumber(number);
    if n + 1 < |s| && s[n] == '.' && IsDigit(s[n + 1]) {
      var tail := s[n + 1..];
      ReleaseRead(tail);
      var more := ReadRelease(tail).value;
      assert s == number + ("." + tail);
      ReadMore(number, tail);
      RenderMore(number, more.value);
      assert s == (number + ("." + RenderRelease(more.value))) + more.rest;
    } else {
      assert s == number + s[n..];
      ReadLast(number, s[n..]);
      assert RenderRelease([number]) == number by { RenderOne(number); }
    }
  }

  lemma RenderOne(number: string)
    ensures RenderRelease([number]) == number
  {
  }

  lemma RenderMore(number: string, more: seq<string>)
    requires more != []
    ensures RenderRelease([number] + more) == number + ("." + RenderRelease(more))
  {
    assert ([number] + more)[1..] == more;
  }

  lemma PreReads(pre: Option<Pre>, rest: string)
    requires pre.Some? ==> IsNumber(pre.value.number)
    requires rest == "" || StartsWith(rest, ".post")
    ensures ReadPre(RenderPre(pre) + rest) == Read(pre, rest)
  {
    hide ReadPre, Short;
    assert rest != "" ==> rest[0] == ".post"[0];
    if pre.None? {
      assert RenderPre(pre) + rest == rest;
      NoPreReads(rest);
    } else {
      var short, number := Short(pre.value.kind), pre.value.number;
      assert short + number + rest == short + (number + rest);
      SomePreReads(pre.value.kind, number, rest);
    }
  }

  lemma NoPreReads(rest: string)
    requires rest == "" || rest[0] == '.'
    ensures ReadPre(rest) == Read(None, rest)
  {
    assert rest != "" ==> [rest[0]] != "a" && [rest[0]] != "b" && [rest[0]] != "r";
  }

  lemma SomePreReads(kind: Kind, number: string, rest: string)
    requires IsNumber(number) && (rest == "" || rest[0] == '.')
    ensures ReadPre(Short(kind) + (number + rest)) == Read(Some(Pre(kind, number)), rest)
  {
    hide KindAt, Short, DigitsPrefix;
    var short, t := Short(kind), number + rest;
    assert (short + t)[..|short|] == short && (short + t)[|short|..] == t;
    KindReads(kind, t);
    DigitsPrefixStops(number, rest);
    assert t[..|number|] == number && t[|number|..] == rest;
  }

  lemma KindReads(kind: Kind, rest: string)
    ensures KindAt(Short(kind) + rest) == Some(kind)
  {
    var s := Short(kind) + rest;
    assert s[..|Short(kind)|] == Short(kind);
    assert s[0] == Short(kind)[0];
    assert s[..1] == [s[0]];
  }

  lemma PreRead(s: string)
    ensures var r := ReadPre(s);
            s == RenderPre(r.value) + r.rest && (r.value.Some? ==> IsNumber(r.value.value.number))
  {
    hide KindAt, Short;
    var r := ReadPre(s);
    if r.value.Some? {
      var short := Short(r.value.value.kind);
      var t := s[|short|..];
      var n := DigitsPrefix(t);
      assert IsNumber(t[..n]);
      assert s == short + t;
      assert t == t[..n] + t[n..];
      assert s == (short + t[..n]) + t[n..];
    } else {
      assert "" + s == s;
    }
  }

  lemma PostReads(post: Option<string>)
    requires post.Some? ==> IsNumber(post.value)
    ensures ReadPost(RenderPost(post)) == Read(post, "")
  {
    if post.Some? {
      var s := RenderPost(post);
      assert s[..5] == ".post" && s[5..] == post.value;
      assert post.value + "" == post.value;
      DigitsPrefixStops(post.value, "");
    }
  }

  lemma PostRead(s: string)
    ensures var r := ReadPost(s);
            s == RenderPost(r.value) + r.rest && (r.value.Some? ==> IsNumber(r.value.value))
  {
    if ReadPost(s).value.Some? {
      var t := s[5..];
      var n := DigitsPrefix(t);
      assert IsNumber(t[..n]);
      assert s == ".post" + t;
      assert t == t[..n] + t[n..];
      assert s == (".post" + t[..n]) + t[n..];
    } else {
      assert "" + s == s;
    }
  }

  lemma AfterRelease(v: Version)
    requires Valid(v)
    ensures EndsRelease(RenderPre(v.pre) + RenderPost(v.post))
    ensures RenderPost(v.post) == "" || StartsWith(RenderPost(v.post), ".post")
  {
    if v.post.Some? {
      assert RenderPost(v.post)[..5] == ".post";
      assert RenderPost(v.post)[0] == '.' && RenderPost(v.post)[1] == 'p';
    }
    if v.pre.Some? {
      assert (RenderPre(v.pre) + RenderPost(v.post))[0] == Short(v.pre.value.kind)[0];
    } else {
      assert RenderPre(v.pre) + RenderPost(v.post) == RenderPost(v.post);
    }
  }

  /** The pattern matches exactly the rendered versions, and each in one way only. */
  lemma MatchIff(s: string, v: Version)
    ensures Match(s) == Some(v) <==> Valid(v) && Render(v) == s
  {
    if Valid(v) && Render(v) == s {
      hide ReadRelease, ReadPre, ReadPost, RenderRelease, RenderPre, RenderPost;
      AfterRelease(v);
      ReleaseReads(v.release, RenderPre(v.pre) + RenderPost(v.post));
      PreReads(v.pre, RenderPost(v.post));
      PostReads(v.post);
    }
    if Match(s) == Some(v) {
      MatchRenders(s);
    }
  }

  lemma MatchRenders(s: string)
    requires Match(s).Some?
    ensures Valid(Match(s).value) && Render(Match(s).value) == s
  {
    hide ReadPre, ReadPost, RenderRelease, RenderPre, RenderPost;
    ReleaseRead(s);
    var release := ReadRelease(s).value;
    hide ReadRelease;
    PreRead(release.rest);
    var pre := ReadPre(release.rest);
    PostRead(pre.rest);
    var post := ReadPost(pre.rest);
    assert RenderPost(post.value) + "" == RenderPost(post.value);
  }

  // ---- characters -------------------------------------------------------------

  /** Characters a normalised version is made of: no hyphen and no space among them. */
  predicate IsPlain(c: char) {
    IsDigit(c) || c in "abcoprst."
  }

  predicate AllPlain(s: string) {
    forall i | 0 <= i < |s| :: IsPlain(s[i])
  }

  lemma PlainAppend(a: string, b: string)
    requires AllPlain(a) && AllPlain(b)
    ensures AllPlain(a + b)
  {
    hide IsPlain;
  }

  lemma {:induction false} ReleasePlain(release: seq<string>)
    requires forall i | 0 <= i < |release| :: IsNumber(release[i])
    ensures AllPlain(RenderRelease(release))
    ensures release != [] ==> RenderRelease(release) != "" && IsDigit(RenderRelease(release)[0])
  {
    if release != [] {
      assert IsNumber(release[0]);
      ReleasePlain(release[1..]);
      assert AllPlain(release[0]) && AllPlain(".");
      PlainAppend(".", RenderRelease(release[1..]));
      if |release| > 1 {
        PlainAppend(release[0], "." + RenderRelease(release[1..]));
      }
    }
  }

  lemma NumberPlain(word: string, number: string)
    requires AllPlain(word) && IsNumber(number)
    ensures AllPlain(word + number)
  {
    assert AllPlain(number);
    PlainAppend(word, number);
  }

  /** A normalised version is plain, starts with a digit and ends with one. */
  lemma RenderPlain(v: Version)
    requires Valid(v)
    ensures AllPlain(Render(v)) && Render(v) != "" && IsDigit(Render(v)[0])
  {
    hide RenderRelease, IsPlain, IsDigit;
    ReleasePlain(v.release);
    WordsPlain();
    if v.pre.Some? { NumberPlain(Short(v.pre.value.kind), v.pre.value.number); }
    if v.post.Some? { NumberPlain(".post", v.post.value); }
    PlainAppend(RenderPre(v.pre), RenderPost(v.post));
    PlainAppend(RenderRelease(v.release), RenderPre(v.pre) + RenderPost(v.post));
  }

  lemma WordsPlain()
    ensures AllPlain(".post") && forall kind :: AllPlain(Short(kind))
  {
  }

  lemma PlainMeans(s: string)
    requires AllPlain(s)
    ensures '-' !in s && forall i | 0 <= i < |s| :: !IsSpace(s[i])
  {
    forall i | 0 <= i < |s| ensures s[i] != '-' && !IsSpace(s[i]) {
      assert IsPlain(s[i]);
    }
  }

  // ---- the substitutions ------------------------------------------------------

  lemma {:induction false} TailLengthIs(head: string, tail: string)
    requires '-' !in tail
    ensures TailLength(head + "-" + tail) == |tail|
    decreases |tail|
  {
    var s := head + "-" + tail;
    if tail != "" {
      assert s[..|s| - 1] == head + "-" + tail[..|tail| - 1];
      TailLengthIs(head, tail[..|tail| - 1]);
    }
  }

  lemma {:induction false} NoHyphen(s: string)
    requires '-' !in s
    ensures TailLength(s) == |s|
  {
    if s != "" {
      NoHyphen(s[..|s| - 1]);
    }
  }

  /** Without a hyphen nothing is rewritten. */
  lemma RewritePlain(s: string)
    requires '-' !in s
    ensures Rewrite(s) == s
  {
    NoHyphen(s);
    hide TailLength;
  }

  lemma TailTaken(head: string, tail: string)
    requires '-' !in tail
    ensures var s := head + "-" + tail;
            var n := TailLength(s);
            n == |tail| < |s| && s[..|s| - n - 1] == head && s[|s| - n..] == tail
  {
    TailLengthIs(head, tail);
  }

  lemma DottedNumber(number: string)
    requires IsNumber(number)
    ensures DropDot("." + number) == number && '-' !in number
  {
    var s := "." + number;
    assert s[..1] == "." && s[1..] == number;
    forall i | 0 <= i < |number| ensures number[i] != '-' {
      assert IsDigit(number[i]);
    }
  }

  lemma LongPlain(kind: Kind)
    ensures '-' !in Long(kind) && '-' !in Short(kind)
  {
  }

  /** A spelled-out pre-release, as it stands after its hyphen. */
  function LongTail(kind: Kind, number: string): string {
    Long(kind) + ("." + number)
  }

  lemma LongTailTaken(head: string, kind: Kind, number: string)
    requires IsNumber(number)
    ensures var s, tail := head + "-" + LongTail(kind, number), LongTail(kind, number);
            var n := TailLength(s);
            n == |tail| < |s| && s[..|s| - n - 1] == head && s[|s| - n..] == tail
  {
    hide TailLength;
    DottedNumber(number);
    LongPlain(kind);
    TailTaken(head, LongTail(kind, number));
  }

  lemma LongTailShortened(kind: Kind, number: string)
    requires IsNumber(number)
    ensures Shortened(kind, LongTail(kind, number)) == Some(Short(kind) + number)
  {
    hide Long, Short;
    var tail := LongTail(kind, number);
    DottedNumber(number);
    assert tail[..|Long(kind)|] == Long(kind);
    assert tail[|Long(kind)|..] == "." + number;
  }

  lemma FirstLetters(kind: Kind, rest: string)
    ensures StartsWith(Long(kind) + rest, "alpha") ==> kind.Alpha?
    ensures forall other :: StartsWith(Long(kind) + rest, Long(other)) ==> kind == other
  {
    var s := Long(kind) + rest;
    assert s[0] == Long(kind)[0];
    forall other | StartsWith(s, Long(other)) ensures kind == other {
      assert s[..|Long(other)|][0] == Long(other)[0];
    }
    if StartsWith(s, "alpha") {
      assert s[..5][0] == 'a';
    }
  }

  /** A spelled-out pre-release is rewritten by its own pattern and left alone by the others. */
  lemma SubPreOn(head: string, kind: Kind, other: Kind, number: string)
    requires IsNumber(number)
    ensures var s := head + "-" + LongTail(kind, number);
            SubPre(other, s) == if kind == other then head + (Short(kind) + number) else s
  {
    hide TailLength, LongTail, Shortened, Short;
    LongTailTaken(head, kind, number);
    LongTailShortened(kind, number);
    OtherTail(kind, other, number);
  }

  lemma OtherTail(kind: Kind, other: Kind, number: string)
    ensures kind != other ==> Shortened(other, LongTail(kind, number)).None?
  {
    hide Long;
    FirstLetters(kind, "." + number);
  }

  lemma HotfixSkips(head: string, kind: Kind, number: string)
    requires IsNumber(number)
    ensures var s := head + "-" + LongTail(kind, number); SubHotfix(s) == s
  {
    hide TailLength;
    LongTailTaken(head, kind, number);
    assert Hotfix(LongTail(kind, number)).None? by {
      FirstLetters(kind, "." + number);
      DottedNumber(number);
      if kind.Alpha? {
        assert LongTail(kind, number)[5..] == "." + number;
        assert number + "" == number;
        DigitsPrefixStops(number, "");
      }
    }
    hide Hotfix;
  }

  lemma HotfixReads(number: string, post: string)
    requires IsNumber(number) && IsNumber(post)
    ensures Hotfix("alpha" + ("." + (number + ("." + post)))) == Some("a" + number + (".post" + post))
  {
    hide DigitsPrefix;
    var t := number + ("." + post);
    var tail := "alpha" + ("." + t);
    assert tail[..5] == "alpha" && tail[5..] == "." + t;
    assert ("." + t)[..1] == "." && ("." + t)[1..] == t;
    DigitsPrefixStops(number, "." + post);
    assert t[..|number|] == number && t[|number| + 1..] == post;
  }

  lemma HotfixRewrites(head: string, number: string, post: string)
    requires IsNumber(number) && IsNumber(post)
    ensures SubHotfix(head + "-" + ("alpha" + ("." + (number + ("." + post)))))
         == head + ("a" + number + (".post" + post))
  {
    hide Hotfix, TailLength;
    var tail := "alpha" + ("." + (number + ("." + post)));
    DottedNumber(number);
    DottedNumber(post);
    assert '-' !in tail;
    TailTaken(head, tail);
    HotfixReads(number, post);
  }

  // ---- the promises -----------------------------------------------------------

  lemma StripNothing(s: string)
    requires s != "" && !IsSpace(s[0]) && !IsSpace(s[|s| - 1])
    ensures Strip(s) == s
  {
  }

  lemma NormalizeRendered(v: Version)
    requires Valid(v)
    ensures Normalize(Render(v)) == Some(Render(v))
  {
    var s := Render(v);
    RenderPlain(v);
    PlainMeans(s);
    StripNothing(s);
    assert !StartsWith(s, "rust-v") && !StartsWith(s, "v") by {
      assert "rust-v"[0] == 'r' && "v"[0] == 'v';
    }
    RewritePlain(s);
    MatchIff(s, v);
  }

  /** Normalising is idempotent on every accepted version. */
  lemma NormalizeIdempotent(version: string)
    requires Normalize(version).Some?
    ensures Normalize(Normalize(version).value) == Normalize(version)
  {
    var s := Normalize(version).value;
    hide Normalize, Match, Render;
    MatchRenders(s);
    NormalizeRendered(Match(s).value);
  }

  lemma SpelledPreRewrites(head: string, kind: Kind, number: string)
    requires '-' !in head && IsNumber(number)
    ensures Rewrite(head + "-" + LongTail(kind, number)) == head + (Short(kind) + number)
  {
    hide SubHotfix, SubPre, LongTail;
    HotfixSkips(head, kind, number);
    SubPreOn(head, kind, Alpha, number);
    SubPreOn(head, kind, Beta, number);
    SubPreOn(head, kind, Candidate, number);
    DottedNumber(number);
    LongPlain(kind);
    PlainKept(head + (Short(kind) + number));
  }

  lemma SpelledHotfix(v: Version)
    requires Valid(v) && v.pre.Some? && v.pre.value.kind.Alpha? && v.post.Some?
    ensures SubHotfix(Spelled(v)) == Render(v)
  {
    hide SubHotfix, RenderRelease;
    var head, number, post := RenderRelease(v.release), v.pre.value.number, v.post.value;
    HotfixRewrites(head, number, post);
    assert Spelled(v) == head + "-" + ("alpha" + ("." + (number + ("." + post))));
  }

  lemma SpelledPre(v: Version)
    requires Valid(v) && v.pre.Some? && v.post.None?
    requires '-' !in RenderRelease(v.release)
    ensures Rewrite(Spelled(v)) == Render(v)
  {
    hide Rewrite, RenderRelease, Long, Short;
    var head, kind, number := RenderRelease(v.release), v.pre.value.kind, v.pre.value.number;
    SpelledPreRewrites(head, kind, number);
    assert Spelled(v) == head + "-" + LongTail(kind, number);
    assert Short(kind) + number + "" == Short(kind) + number;
  }

  /** The spelled-out form is rewritten back to the normalised one. */
  lemma SpelledRewrites(v: Version)
    requires Valid(v)
    ensures Rewrite(Spelled(v)) == Render(v)
  {
    hide Rewrite, RenderRelease;
    RenderPlain(v);
    PlainMeans(Render(v));
    RewritePlain(Render(v));
    if v.pre.Some? && v.pre.value.kind.Alpha? && v.post.Some? {
      SpelledHotfix(v);
      SameRewrite(Spelled(v), Render(v));
    } else if v.pre.Some? && v.post.None? {
      ReleasePlain(v.release);
      PlainMeans(RenderRelease(v.release));
      SpelledPre(v);
    }
  }

  lemma PlainKept(s: string)
    requires '-' !in s
    ensures SubHotfix(s) == s && forall kind :: SubPre(kind, s) == s
  {
    NoHyphen(s);
  }

  lemma SameRewrite(s: string, t: string)
    requires SubHotfix(s) == t && '-' !in t
    ensures Rewrite(s) == t
  {
    PlainKept(t);
  }

  lemma SpelledEnds(v: Version)
    requires Valid(v)
    ensures Spelled(v) != "" && !IsSpace(Spelled(v)[|Spelled(v)| - 1])
  {
    RenderPlain(v);
    PlainMeans(Render(v));
    if v.post.Some? { assert IsDigit(v.post.value[|v.post.value| - 1]); }
    if v.pre.Some? { assert IsDigit(v.pre.value.number[|v.pre.value.number| - 1]); }
  }

  /** Normalising the release tag of an accepted version gives back its normalised form. */
  lemma TagNormalizes(version: string)
    requires Normalize(version).Some?
    ensures ReleaseTag(version).Some?
    ensures Normalize(ReleaseTag(version).value) == Normalize(version)
  {
    var s := Normalize(version).value;
    hide Normalize, Match, Render, Spelled;
    MatchRenders(s);
    TagRoundTrip(Match(s).value);
  }

  lemma TagRoundTrip(v: Version)
    requires Valid(v)
    ensures Normalize("rust-v" + Spelled(v)) == Some(Render(v))
  {
    hide Spelled, Render, Match, Rewrite;
    var tag := "rust-v" + Spelled(v);
    SpelledEnds(v);
    assert tag[0] == 'r' && tag[|tag| - 1] == Spelled(v)[|Spelled(v)| - 1];
    StripNothing(tag);
    assert tag[..6] == "rust-v" && tag[6..] == Spelled(v);
    SpelledRewrites(v);
    MatchIff(Render(v), v);
  }

  /** So versions get the same tag exactly when they normalise alike. */
  lemma TagsDistinguish(a: string, b: string)
    requires Normalize(a).Some? && Normalize(b).Some?
    ensures ReleaseTag(a) == ReleaseTag(b) <==> Normalize(a) == Normalize(b)
  {
    hide Normalize;
    TagNormalizes(a);
    TagNormalizes(b);
  }

  // ---- the runtime package ----------------------------------------------------

  /** A stable release, a numbered alpha or a post-release of one, with three release numbers. */
  predicate IsRuntime(v: Version) {
    |v.release| == 3 && (v.pre.Some? ==> v.pre.value.kind.Alpha?) && (v.post.Some? ==> v.pre.Some?)
  }

  /** `resolve_python_runtime_release`: the version itself and its tag, or nothing. */
  function ResolveRuntime(version: string): Option<(string, string)> {
    match Match(version)
    case None => None
    case Some(v) =>
      if !IsRuntime(v) then None
      else
        match ReleaseTag(version)
        case None => None
        case Some(tag) => Some((version, tag))
  }

  /** It answers exactly the runtime versions, which are already normalised, and the tag leads back. */
  lemma RuntimeResolves(version: string)
    ensures ResolveRuntime(version).Some? <==> Match(version).Some? && IsRuntime(Match(version).value)
    ensures ResolveRuntime(version).Some? ==> Normalize(ResolveRuntime(version).value.1) == Some(version)
  {
    if Match(version).Some? {
      hide Match, Render, Normalize;
      MatchRenders(version);
      NormalizeRendered(Match(version).value);
      TagNormalizes(version);
    }
  }
}
