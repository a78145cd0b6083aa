/** The accepted-line counter over unified diffs, `accepted_line_counts_from_unified_diff`. */
module AcceptedLines {

  import opened Text

  /** What is being counted. */
  datatype Change = Addition | Deletion

  // ---- lines ------------------------------------------------------------------

  function LineLength(s: string): (n: nat)
    ensures n <= |s| && '\n' !in s[..n]
    ensures n < |s| ==> s[n] == '\n'
  {
    if s == "" || s[0] == '\n' then 0 else 1 + LineLength(s[1..])
  }

  function StripCarriageReturn(line: string): string {
    if line != "" && line[|line| - 1] == '\r' then line[..|line| - 1] else line
  }

  /** Rust's `str::lines`: a terminated line also loses a final CR, a last unterminated one does not. */
  function Lines(s: string): seq<string>
    decreases |s|
  {
    var n := LineLength(s);
    if n == |s| then (if s == "" then [] else [s])
    else [StripCarriageReturn(s[..n])] + Lines(s[n + 1..])
  }

  /** A line ends at a newline, and loses a carriage return before it; what follows the last newline is kept as it is. */
  lemma LinesMean(line: string, rest: string)
    requires '\n' !in line
    ensures Lines(line) == if line == "" then [] else [line]
    ensures (line == "" || line[|line| - 1] != '\r') ==> Lines(line + "\n" + rest) == [line] + Lines(rest)
    ensures Lines(line + "\r\n" + rest) == [line] + Lines(rest)
  {
    OnlyLine(line);
    hide Lines;
    FirstLine(line, rest);
    CarriageReturnLost(line, rest);
  }

  lemma CarriageReturnLost(line: string, rest: string)
    requires '\n' !in line
    ensures Lines(line + "\r\n" + rest) == [line] + Lines(rest)
  {
    hide Lines;
    var ended := line + "\r";
    FirstLine(ended, rest);
    assert ended[..|line|] == line;
    assert ended + "\n" + rest == line + "\r\n" + rest;
  }

  lemma OnlyLine(line: string)
    requires '\n' !in line
    ensures Lines(line) == if line == "" then [] else [line]
  {
    NoNewline(line);
  }

  lemma {:induction false} LineLengthIs(line: string, rest: string)
    requires '\n' !in line
    ensures LineLength(line + ['\n'] + rest) == |line|
  {
    if line == "" {
      assert line + ['\n'] + rest == ['\n'] + rest;
    } else {
      assert (line + ['\n'] + rest)[1..] == line[1..] + ['\n'] + rest;
      LineLengthIs(line[1..], rest);
    }
  }

  lemma {:induction false} NoNewline(line: string)
    requires '\n' !in line
    ensures LineLength(line) == |line|
  {
    if line != "" {
      NoNewline(line[1..]);
    }
  }

  lemma FirstLine(line: string, rest: string)
    requires '\n' !in line
    ensures Lines(line + "\n" + rest) == [StripCarriageReturn(line)] + Lines(rest)
  {
    var s := line + "\n" + rest;
    LineLengthIs(line, rest);
    assert s[..|line|] == line && s[|line| + 1..] == rest;
  }

  // ---- the counter ------------------------------------------------------------

  const FILE_MARK := "diff --git "
  const HUNK_MARK := "@@ "
  const NEW_MARK := "+++ "
  const OLD_MARK := "--- "

  datatype Kind = FileLine | HunkLine | NewHeader | OldHeader | AddedLine | DeletedLine | OtherLine

  /** What a line looks like, before asking whether a hunk is open. */
  function KindOf(line: string): Kind {
    if StartsWith(line, FILE_MARK) then FileLine
    else if StartsWith(line, HUNK_MARK) then HunkLine
    else if StartsWith(line, NEW_MARK) then NewHeader
    else if StartsWith(line, OLD_MARK) then OldHeader
    else if StartsWith(line, "+") then AddedLine
    else if StartsWith(line, "-") then DeletedLine
    else OtherLine
  }

  /** Whether a hunk is open, which is all the loop remembers between lines. */
  datatype Place = Outside | InHunk

  predicate IsFileHeader(kind: Kind) {
    kind.NewHeader? || kind.OldHeader?
  }

  function LineCount(kind: Kind, at: Place, change: Change): nat {
    match change
    case Addition => if kind.AddedLine? || (kind.NewHeader? && at.InHunk?) then 1 else 0
    case Deletion => if kind.DeletedLine? || (kind.OldHeader? && at.InHunk?) then 1 else 0
  }

  function HunkAfterLine(kind: Kind, at: Place): Place {
    if kind.FileLine? then Outside else if kind.HunkLine? then InHunk else at
  }

  function Count(lines: seq<string>, at: Place, change: Change): nat {
    if lines == [] then 0
    else
      var kind := KindOf(lines[0]);
      LineCount(kind, at, change) + Count(lines[1..], HunkAfterLine(kind, at), change)
  }

  function HunkAfter(lines: seq<string>, at: Place): Place {
    if lines == [] then at else HunkAfter(lines[1..], HunkAfterLine(KindOf(lines[0]), at))
  }

  lemma CountStep(lines: seq<string>, at: Place, change: Change)
    ensures lines == [] ==> Count(lines, at, change) == 0 && HunkAfter(lines, at) == at
    ensures lines != [] ==>
              var kind := KindOf(lines[0]);
              && Count(lines, at, change)
              == LineCount(kind, at, change) + Count(lines[1..], HunkAfterLine(kind, at), change)
              && HunkAfter(lines, at) == HunkAfter(lines[1..], HunkAfterLine(kind, at))
  {
    hide KindOf;
  }

  /** What one turn of the loop does to the counters and to the place, by the line's prefixes. */
  lemma LineStep(line: string, at: Place)
    ensures var kind := KindOf(line);
            var added, deleted := LineCount(kind, at, Addition), LineCount(kind, at, Deletion);
            var after := HunkAfterLine(kind, at);
            if StartsWith(line, FILE_MARK) then (added, deleted, after) == (0, 0, Outside)
            else if StartsWith(line, HUNK_MARK) then (added, deleted, after) == (0, 0, InHunk)
            else if at.Outside? && (StartsWith(line, NEW_MARK) || StartsWith(line, OLD_MARK))
              then (added, deleted, after) == (0, 0, at)
            else if StartsWith(line, "+") then (added, deleted, after) == (1, 0, at)
            else if StartsWith(line, "-") then (added, deleted, after) == (0, 1, at)
            else (added, deleted, after) == (0, 0, at)
  {
    hide StartsWith;
    FirstCharacter(line);
  }

  /** The loop of the source, branch by branch. */
  method AcceptedLineCounts(unifiedDiff: string) returns (added: nat, deleted: nat)
    ensures added == Count(Lines(unifiedDiff), Outside, Addition)
    ensures deleted == Count(Lines(unifiedDiff), Outside, Deletion)
  {
    hide Lines, StartsWith, KindOf, LineCount, HunkAfterLine, Count, HunkAfter;
    var lines := Lines(unifiedDiff);
    var at, k := Outside, 0;
    added, deleted := 0, 0;
    assert lines[0..] == lines;
    while k < |lines|
      invariant 0 <= k <= |lines|
      invariant Count(lines, Outside, Addition) == added + Count(lines[k..], at, Addition)
      invariant Count(lines, Outside, Deletion) == deleted + Count(lines[k..], at, Deletion)
    {
      assert lines[k..][1..] == lines[k + 1..];
      CountStep(lines[k..], at, Addition);
      CountStep(lines[k..], at, Deletion);
      var line := lines[k];
      LineStep(line, at);
      k := k + 1;
      if StartsWith(line, FILE_MARK) {
        at := Outside;
        continue;
      }
      if StartsWith(line, HUNK_MARK) {
        at := InHunk;
        continue;
      }
      if at.Outside? && (StartsWith(line, NEW_MARK) || StartsWith(line, OLD_MARK)) {
        continue;
      }
      if StartsWith(line, "+") {
        added := added + 1;
        continue;
      }
      if StartsWith(line, "-") {
        deleted := deleted + 1;
      }
    }
    CountStep(lines[k..], at, Addition);
    CountStep(lines[k..], at, Deletion);
  }

  // ---- concatenation ----------------------------------------------------------

  /** File-header look-alikes ahead of the first file or hunk line, as an open hunk would count them. */
  function Lookalikes(lines: seq<string>, change: Change): nat {
    if lines == [] then 0
    else
      var kind := KindOf(lines[0]);
      if kind.FileLine? || kind.HunkLine? then 0
      else (if IsFileHeader(kind) then LineCount(kind, InHunk, change) else 0) + Lookalikes(lines[1..], change)
  }

  lemma {:induction false} OpenHunkCounts(lines: seq<string>, change: Change)
    ensures Count(lines, InHunk, change) == Count(lines, Outside, change) + Lookalikes(lines, change)
    decreases |lines|
  {
    hide KindOf, Count, HunkAfter;
    CountStep(lines, InHunk, change);
    CountStep(lines, Outside, change);
    if lines != [] {
      OpenHunkCounts(lines[1..], change);
    }
  }

  lemma {:induction false} CountAppend(a: seq<string>, b: seq<string>, at: Place, change: Change)
    ensures Count(a + b, at, change) == Count(a, at, change) + Count(b, HunkAfter(a, at), change)
    decreases |a|
  {
    hide KindOf, Count, HunkAfter, LineCount, HunkAfterLine;
    CountStep(a, at, change);
    CountStep(a + b, at, change);
    if a == [] {
      assert a + b == b;
    } else {
      assert (a + b)[1..] == a[1..] + b;
      CountAppend(a[1..], b, HunkAfterLine(KindOf(a[0]), at), change);
    }
  }

  /**
   * Counts add up over concatenation, up to the file-header look-alikes that the second
   * diff shows before its first mark when the first one ends inside a hunk; so they add
   * up whenever the second diff starts with a file line.
   */
  lemma CountsAddUp(a: seq<string>, b: seq<string>, change: Change)
    ensures Count(a + b, Outside, change)
         == Count(a, Outside, change) + Count(b, Outside, change)
            + if HunkAfter(a, Outside).InHunk? then Lookalikes(b, change) else 0
    ensures b == [] || KindOf(b[0]).FileLine? ==>
              Count(a + b, Outside, change) == Count(a, Outside, change) + Count(b, Outside, change)
  {
    hide KindOf, Count, HunkAfter;
    CountAppend(a, b, Outside, change);
    OpenHunkCounts(b, change);
  }

  // ---- structured diffs -------------------------------------------------------

  datatype BodyLine = Added(text: string) | Deleted(text: string) | Context(text: string) | NoNewlineAtEnd

  datatype Hunk = Hunk(header: string, body: seq<BodyLine>)

  datatype FileDiff = FileDiff(paths: string, headers: seq<string>, hunks: seq<Hunk>)

  function RenderBodyLine(line: BodyLine): string {
    match line
    case Added(text) => "+" + text
    case Deleted(text) => "-" + text
    case Context(text) => " " + text
    case NoNewlineAtEnd => "\\ No newline at end of file"
  }

  function RenderBody(body: seq<BodyLine>): seq<string> {
    if body == [] then [] else [RenderBodyLine(body[0])] + RenderBody(body[1..])
  }

  function RenderHunks(hunks: seq<Hunk>): seq<string> {
    if hunks == [] then []
    else [HUNK_MARK + hunks[0].header] + (RenderBody(hunks[0].body) + RenderHunks(hunks[1..]))
  }

  function RenderFiles(files: seq<FileDiff>): seq<string> {
    if files == [] then []
    else [FILE_MARK + files[0].paths] + (files[0].headers + (RenderHunks(files[0].hunks) + RenderFiles(files[1..])))
  }

  function BodyLineCount(line: BodyLine, change: Change): nat {
    match change
    case Addition => if line.Added? then 1 else 0
    case Deletion => if line.Deleted? then 1 else 0
  }

  function BodyCount(body: seq<BodyLine>, change: Change): nat {
    if body == [] then 0 else BodyLineCount(body[0], change) + BodyCount(body[1..], change)
  }

  function HunksCount(hunks: seq<Hunk>, change: Change): nat {
    if hunks == [] then 0 else BodyCount(hunks[0].body, change) + HunksCount(hunks[1..], change)
  }

  function FilesCount(files: seq<FileDiff>, change: Change): nat {
    if files == [] then 0 else HunksCount(files[0].hunks, change) + FilesCount(files[1..], change)
  }

  /** Header lines of a file: `---` and `+++` lines, or lines that look like neither change nor mark. */
  predicate HeaderLines(headers: seq<string>) {
    forall i | 0 <= i < |headers| :: IsFileHeader(KindOf(headers[i])) || KindOf(headers[i]).OtherLine?
  }

  predicate WellFormed(files: seq<FileDiff>) {
    forall i | 0 <= i < |files| :: HeaderLines(files[i].headers)
  }

  /** The first character decides which of the longer marks a line can start with. */
  lemma FirstCharacter(line: string)
    ensures StartsWith(line, FILE_MARK) ==> line != "" && line[0] == 'd'
    ensures StartsWith(line, HUNK_MARK) ==> line != "" && line[0] == '@'
    ensures StartsWith(line, NEW_MARK) ==> line != "" && line[0] == '+'
    ensures StartsWith(line, OLD_MARK) ==> line != "" && line[0] == '-'
    ensures StartsWith(line, "+") <==> line != "" && line[0] == '+'
    ensures StartsWith(line, "-") <==> line != "" && line[0] == '-'
  {
    assert FILE_MARK[0] == 'd' && HUNK_MARK[0] == '@' && NEW_MARK[0] == '+' && OLD_MARK[0] == '-';
    if line != "" { assert line[..1] == [line[0]]; }
    if StartsWith(line, FILE_MARK) { assert line[..|FILE_MARK|][0] == line[0]; }
    if StartsWith(line, HUNK_MARK) { assert line[..|HUNK_MARK|][0] == line[0]; }
    if StartsWith(line, NEW_MARK) { assert line[..|NEW_MARK|][0] == line[0]; }
    if StartsWith(line, OLD_MARK) { assert line[..|OLD_MARK|][0] == line[0]; }
  }

  /** Inside a hunk a body line counts by its first character, whatever follows it. */
  lemma BodyLineCounted(line: BodyLine, change: Change)
    ensures var kind := KindOf(RenderBodyLine(line));
            LineCount(kind, InHunk, change) == BodyLineCount(line, change) && HunkAfterLine(kind, InHunk).InHunk?
  {
    hide StartsWith;
    FirstCharacter(RenderBodyLine(line));
  }

  lemma {:induction false} BodyCounted(body: seq<BodyLine>, change: Change)
    ensures Count(RenderBody(body), InHunk, change) == BodyCount(body, change)
    ensures HunkAfter(RenderBody(body), InHunk).InHunk?
    decreases |body|
  {
    hide KindOf, Count, HunkAfter, LineCount, HunkAfterLine, BodyLineCount, RenderBodyLine;
    CountStep(RenderBody(body), InHunk, change);
    if body != [] {
      BodyLineCounted(body[0], change);
      BodyCounted(body[1..], change);
      assert RenderBody(body)[1..] == RenderBody(body[1..]);
    }
  }

  lemma {:induction false} HeadersCounted(headers: seq<string>, change: Change)
    requires HeaderLines(headers)
    ensures Count(headers, Outside, change) == 0 && HunkAfter(headers, Outside).Outside?
    decreases |headers|
  {
    hide KindOf, Count, HunkAfter;
    CountStep(headers, Outside, change);
    if headers != [] {
      HeadersCounted(headers[1..], change);
    }
  }

  lemma MarkKinds(text: string)
    ensures KindOf(FILE_MARK + text).FileLine? && KindOf(HUNK_MARK + text).HunkLine?
  {
    assert (FILE_MARK + text)[..|FILE_MARK|] == FILE_MARK;
    assert (HUNK_MARK + text)[..|HUNK_MARK|] == HUNK_MARK;
    assert (HUNK_MARK + text)[0] == '@';
    assert FILE_MARK[0] == 'd';
  }

  lemma {:induction false} HunksCounted(hunks: seq<Hunk>, at: Place, change: Change)
    ensures Count(RenderHunks(hunks), at, change) == HunksCount(hunks, change)
    decreases |hunks|
  {
    hide KindOf, Count, HunkAfter, FILE_MARK, HUNK_MARK, BodyCount, RenderBody;
    CountStep(RenderHunks(hunks), at, change);
    if hunks != [] {
      MarkKinds(hunks[0].header);
      BodyCounted(hunks[0].body, change);
      HunksCounted(hunks[1..], InHunk, change);
      CountAppend(RenderBody(hunks[0].body), RenderHunks(hunks[1..]), InHunk, change);
      assert RenderHunks(hunks)[1..] == RenderBody(hunks[0].body) + RenderHunks(hunks[1..]);
    }
  }

  /** On the lines of any structured diff the counter counts exactly the changed body lines. */
  lemma {:induction false} FilesCounted(files: seq<FileDiff>, at: Place, change: Change)
    requires WellFormed(files)
    ensures Count(RenderFiles(files), at, change) == FilesCount(files, change)
    decreases |files|
  {
    hide KindOf, Count, HunkAfter, FILE_MARK, HUNK_MARK, HeaderLines, HunksCount, RenderHunks;
    CountStep(RenderFiles(files), at, change);
    if files != [] {
      var f, rest := files[0], files[1..];
      MarkKinds(f.paths);
      HeadersCounted(f.headers, change);
      var hunks := RenderHunks(f.hunks);
      HunksCounted(f.hunks, Outside, change);
      FilesCounted(rest, HunkAfter(hunks, Outside), change);
      CountAppend(hunks, RenderFiles(rest), Outside, change);
      CountAppend(f.headers, hunks + RenderFiles(rest), Outside, change);
      assert RenderFiles(files)[1..] == f.headers + (hunks + RenderFiles(rest));
    }
  }

  // ---- the diff as text -------------------------------------------------------

  function RenderText(lines: seq<string>): string {
    if lines == [] then "" else lines[0] + ['\n'] + RenderText(lines[1..])
  }

  predicate OneLineEach(lines: seq<string>) {
    forall i | 0 <= i < |lines| :: '\n' !in lines[i]
  }

  /** Losing a final CR never changes what a line looks like. */
  lemma StrippedKind(line: string)
    ensures KindOf(StripCarriageReturn(line)) == KindOf(line)
  {
    hide KindOf;
    var s := StripCarriageReturn(line);
    StrippedPrefix(line, FILE_MARK);
    StrippedPrefix(line, HUNK_MARK);
    StrippedPrefix(line, NEW_MARK);
    StrippedPrefix(line, OLD_MARK);
    StrippedPrefix(line, "+");
    StrippedPrefix(line, "-");
    KindByPrefixes(line, s);
  }

  lemma KindByPrefixes(a: string, b: string)
    requires StartsWith(a, FILE_MARK) == StartsWith(b, FILE_MARK) && StartsWith(a, HUNK_MARK) == StartsWith(b, HUNK_MARK)
    requires StartsWith(a, NEW_MARK) == StartsWith(b, NEW_MARK) && StartsWith(a, OLD_MARK) == StartsWith(b, OLD_MARK)
    requires StartsWith(a, "+") == StartsWith(b, "+") && StartsWith(a, "-") == StartsWith(b, "-")
    ensures KindOf(a) == KindOf(b)
  {
    hide StartsWith;
  }

  lemma StrippedPrefix(line: string, prefix: string)
    requires prefix != "" && prefix[|prefix| - 1] != '\r'
    ensures StartsWith(StripCarriageReturn(line), prefix) == StartsWith(line, prefix)
  {
    if line != "" && line[|line| - 1] == '\r' && |prefix| <= |line| {
      if |prefix| == |line| {
        assert line[..|prefix|] == line;
      } else {
        assert line[..|line| - 1][..|prefix|] == line[..|prefix|];
      }
    }
  }

  lemma {:induction false} TextCounts(lines: seq<string>, at: Place, change: Change)
    requires OneLineEach(lines)
    ensures Count(Lines(RenderText(lines)), at, change) == Count(lines, at, change)
    decreases |lines|
  {
    hide KindOf, StripCarriageReturn, Count, HunkAfter, LineCount, HunkAfterLine;
    CountStep(lines, at, change);
    CountStep(Lines(RenderText(lines)), at, change);
    if lines != [] {
      var line, tail := lines[0], RenderText(lines[1..]);
      var s := line + ['\n'] + tail;
      LineLengthIs(line, tail);
      assert s[..|line|] == line && s[|line| + 1..] == tail;
      StrippedKind(line);
      var rest := Lines(tail);
      assert Lines(s) == [StripCarriageReturn(line)] + rest;
      assert Lines(s)[1..] == rest;
      TextCounts(lines[1..], HunkAfterLine(KindOf(line), at), change);
    }
  }

  /** A structured diff written out as text is counted exactly, even if body lines look like headers. */
  lemma DiffTextCounted(files: seq<FileDiff>, change: Change)
    requires WellFormed(files) && OneLineEach(RenderFiles(files))
    ensures Count(Lines(RenderText(RenderFiles(files))), Outside, change) == FilesCount(files, change)
  {
    hide Count, Lines;
    TextCounts(RenderFiles(files), Outside, change);
    FilesCounted(files, Outside, change);
  }
}
