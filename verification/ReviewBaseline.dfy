/**
 * The review regression gate: `_required_review_checks` validates a full report or a
 * compact baseline, `_compact_review_regression_baseline` writes the compact form and
 * `_evaluate_review_regression_gate` compares two reports.
 */
module ReviewBaseline {
  import opened Wrappers
  import opened Ordering
  import opened JsonShapes
  import opened ErrorLog

  const REVIEW_SCHEMA_VERSION: int := 1
  const REVIEW_BASELINE_KIND := "mcp-review-regression-baseline-v1"
  const REVIEWER := "sofia-mcp-regression-suite"
  const REVIEW_MODES := ["2025-06-18", "2025-11-25", "2026-07-28"]
  const CHECK_PREFIX := "review/"

  // ---- reports ----------------------------------------------------------------

  datatype Check = Check(name: Scalar, success: Scalar)
  datatype Case = Case(mode: Scalar, transport: Scalar, checks: Listed<Dict<Check>>, success: Scalar)
  datatype CaseRef = CaseRef(mode: Scalar, transport: Scalar)
  datatype Record = Record(mode: Scalar, transport: Scalar, checkId: Scalar)
  datatype Buckets = Buckets(passing: Listed<Dict<Record>>, failing: Listed<Dict<Record>>)
  datatype Summary = Summary(passed: Scalar, failed: Scalar, total: Scalar, casesPassed: Scalar, casesTotal: Scalar)

  datatype Report = Report(
    schemaVersion: Scalar,
    reviewer: Scalar,
    baselineKind: Scalar,
    modes: Listed<Scalar>,
    requiredModes: Listed<Scalar>,
    requiredCases: Listed<Dict<CaseRef>>,
    checks: Dict<Buckets>,
    cases: Listed<Dict<Case>>,
    summary: Dict<Summary>,
    success: Scalar)

  /** A protocol mode and a transport with its fixture profile. */
  datatype Slot = Slot(mode: string, transport: string)

  datatype Identity = Identity(slot: Slot, checkId: string)

  function SlotKey(s: Slot): seq<string> { [s.mode, s.transport] }

  predicate SlotLess(a: Slot, b: Slot) { TupleLess(SlotKey(a), SlotKey(b)) }

  function IdentityKey(i: Identity): seq<string> { [i.slot.mode, i.slot.transport, i.checkId] }

  predicate IdentityLess(a: Identity, b: Identity) { TupleLess(IdentityKey(a), IdentityKey(b)) }

  lemma Orders()
    ensures TotalOrder(SlotLess) && TotalOrder(IdentityLess)
  {
    TupleOrder();
    forall a, b | SlotKey(a) == SlotKey(b) ensures a == b {
      assert SlotKey(a)[0] == SlotKey(b)[0] && SlotKey(a)[1] == SlotKey(b)[1];
    }
    forall a, b | IdentityKey(a) == IdentityKey(b) ensures a == b {
      assert IdentityKey(a)[0] == IdentityKey(b)[0] && IdentityKey(a)[1] == IdentityKey(b)[1];
      assert IdentityKey(a)[2] == IdentityKey(b)[2];
    }
  }

  type Checks = map<Identity, bool>

  datatype Issue =
    | WrongSchema | WrongReviewer | WrongModes | WrongKind
    | NoRequiredCases | MalformedCase | DuplicateCase | NoCheckIdentities
    | NoBucket(success: bool) | MalformedRecord(success: bool) | DuplicateCheck
    | NoCases | UnexpectedCase | NoChecks(slot: Slot) | MalformedCheck | WrongCaseSuccess(slot: Slot)
    | MissingCase(slot: Slot) | SurplusCase(slot: Slot) | WrongTotals | WrongSuccess

  datatype Reading = Reading(issues: seq<Issue>, observed: set<Slot>, checks: Checks)

  function Note(r: Reading, more: seq<Issue>): Reading {
    r.(issues := r.issues + more)
  }

  function When(condition: bool, issue: Issue): seq<Issue> {
    if condition then [issue] else []
  }

  predicate IsCheckId(v: Scalar) {
    v.Str? && |CHECK_PREFIX| <= |v.s| && v.s[..|CHECK_PREFIX|] == CHECK_PREFIX
  }

  // ---- the compact format -----------------------------------------------------

  function ReadCaseRefs(refs: seq<Dict<CaseRef>>, r: Reading): Reading
    decreases |refs|
  {
    if refs == [] then r
    else if refs[0].NotDict? || !refs[0].value.mode.Str? || !refs[0].value.transport.Str? then
      ReadCaseRefs(refs[1..], Note(r, [MalformedCase]))
    else
      var slot := Slot(refs[0].value.mode.s, refs[0].value.transport.s);
      if slot in r.observed then ReadCaseRefs(refs[1..], Note(r, [DuplicateCase]))
      else ReadCaseRefs(refs[1..], r.(observed := r.observed + {slot}))
  }

  function RecordIdentity(record: Dict<Record>, expected: set<Slot>): (r: Option<Identity>)
    ensures r.Some? ==> GoodIdentity(r.value, expected)
  {
    if record.NotDict? then None
    else
      var v := record.value;
      if v.mode.Str? && v.transport.Str? && IsCheckId(v.checkId) && Slot(v.mode.s, v.transport.s) in expected
      then Some(Identity(Slot(v.mode.s, v.transport.s), v.checkId.s)) else None
  }

  predicate GoodIdentity(i: Identity, expected: set<Slot>) {
    i.slot in expected && IsCheckId(Str(i.checkId))
  }

  function ReadRecords(records: seq<Dict<Record>>, success: bool, expected: set<Slot>, r: Reading): Reading
    decreases |records|
  {
    if records == [] then r
    else
      match RecordIdentity(records[0], expected)
      case None => ReadRecords(records[1..], success, expected, Note(r, [MalformedRecord(success)]))
      case Some(i) =>
        if i in r.checks then ReadRecords(records[1..], success, expected, Note(r, [DuplicateCheck]))
        else ReadRecords(records[1..], success, expected, r.(checks := r.checks[i := success]))
  }

  function ReadBucket(bucket: Listed<Dict<Record>>, success: bool, expected: set<Slot>, r: Reading): Reading {
    if bucket.NotList? then Note(r, [NoBucket(success)]) else ReadRecords(bucket.items, success, expected, r)
  }

  function ReadCompact(report: Report, expected: set<Slot>, r: Reading): Reading {
    var r := Note(r, When(report.baselineKind != Str(REVIEW_BASELINE_KIND), WrongKind));
    var r := Note(r, When(report.requiredCases.NotList?, NoRequiredCases));
    var r := ReadCaseRefs(if report.requiredCases.List? then report.requiredCases.items else [], r);
    if report.checks.NotDict? then Note(r, [NoCheckIdentities, NoBucket(true), NoBucket(false)])
    else
      ReadBucket(report.checks.value.failing, false, expected,
                 ReadBucket(report.checks.value.passing, true, expected, r))
  }

  // ---- the full format --------------------------------------------------------

  function CheckIdentity(check: Dict<Check>, slot: Slot): Option<(Identity, bool)> {
    if check.Dict? && IsCheckId(check.value.name) && check.value.success.Bool?
    then Some((Identity(slot, check.value.name.s), check.value.success.b)) else None
  }

  /** The checks of one case; the flag says whether all recorded ones succeeded. */
  function ReadChecks(checks: seq<Dict<Check>>, slot: Slot, success: bool, r: Reading): (Reading, bool)
    decreases |checks|
  {
    if checks == [] then (r, success)
    else
      match CheckIdentity(checks[0], slot)
      case None => ReadChecks(checks[1..], slot, success, Note(r, [MalformedCheck]))
      case Some(found) =>
        if found.0 in r.checks then ReadChecks(checks[1..], slot, success, Note(r, [DuplicateCheck]))
        else ReadChecks(checks[1..], slot, success && found.1, r.(checks := r.checks[found.0 := found.1]))
  }

  function CaseSlot(c: Dict<Case>, expected: set<Slot>): (r: Option<Slot>)
    ensures r.Some? ==> r.value in expected && c.Dict?
  {
    if c.Dict? && c.value.mode.Str? && c.value.transport.Str? && Slot(c.value.mode.s, c.value.transport.s) in expected
    then Some(Slot(c.value.mode.s, c.value.transport.s)) else None
  }

  function ReadCase(c: Dict<Case>, expected: set<Slot>, r: Reading): Reading {
    if c.NotDict? then Note(r, [MalformedCase])
    else
      match CaseSlot(c, expected)
      case None => Note(r, [UnexpectedCase])
      case Some(slot) =>
        if slot in r.observed then Note(r, [DuplicateCase])
        else
          var r := r.(observed := r.observed + {slot});
          if c.value.checks.NotList? || c.value.checks.items == [] then Note(r, [NoChecks(slot)])
          else
            var (r, success) := ReadChecks(c.value.checks.items, slot, true, r);
            Note(r, When(c.value.success != Bool(success), WrongCaseSuccess(slot)))
  }

  function ReadCases(cases: seq<Dict<Case>>, expected: set<Slot>, r: Reading): Reading
    decreases |cases|
  {
    if cases == [] then r else ReadCases(cases[1..], expected, ReadCase(cases[0], expected, r))
  }

  function ReadFull(report: Report, expected: set<Slot>, r: Reading): Reading {
    ReadCases(if report.cases.List? then report.cases.items else [], expected,
              Note(r, When(report.cases.NotList?, NoCases)))
  }

  // ---- the closing checks -----------------------------------------------------

  function Slots(slots: set<Slot>): (r: seq<Slot>)
    ensures Sorted(r, SlotLess) && forall s :: s in r <==> s in slots
  {
    Orders();
    Sort(slots, SlotLess)
  }

  function MissingIssues(slots: seq<Slot>): seq<Issue> {
    seq(|slots|, k requires 0 <= k < |slots| => MissingCase(slots[k]))
  }

  function SurplusIssues(slots: seq<Slot>): seq<Issue> {
    seq(|slots|, k requires 0 <= k < |slots| => SurplusCase(slots[k]))
  }

  function Holding(checks: Checks, success: bool): set<Identity> {
    set i | i in checks && checks[i] == success
  }

  predicate CasePassed(checks: Checks, slot: Slot) {
    && (forall i | i in checks && i.slot == slot :: checks[i])
    && (exists i | i in checks :: i.slot == slot)
  }

  /** The totals recounted from the dictionary agree with the summary. */
  predicate TotalsMatch(summary: Dict<Summary>, observed: set<Slot>, checks: Checks) {
    && summary.Dict?
    && EqualsInt(summary.value.passed, |Holding(checks, true)|)
    && EqualsInt(summary.value.failed, |checks| - |Holding(checks, true)|)
    && EqualsInt(summary.value.total, |checks|)
    && EqualsInt(summary.value.casesPassed, |set s | s in observed && CasePassed(checks, s)|)
    && EqualsInt(summary.value.casesTotal, |observed|)
  }

  function ClosingIssues(report: Report, expected: set<Slot>, r: Reading): seq<Issue> {
    MissingIssues(Slots(expected - r.observed)) + SurplusIssues(Slots(r.observed - expected))
    + When(!TotalsMatch(report.summary, r.observed, r.checks), WrongTotals)
    + When(report.baselineKind == Null && report.success != Bool(r.observed != {} && Holding(r.checks, false) == {}),
           WrongSuccess)
  }

  function OpeningIssues(report: Report): seq<Issue> {
    When(!EqualsInt(report.schemaVersion, REVIEW_SCHEMA_VERSION), WrongSchema)
    + When(report.reviewer != Str(REVIEWER), WrongReviewer)
    + When((if report.baselineKind != Null then report.requiredModes else report.modes) != List(Strs(REVIEW_MODES)),
           WrongModes)
  }

  /** `_required_review_checks`; `expected` is the set of required cases. */
  function Read(report: Report, expected: set<Slot>): Reading {
    var start := Reading(OpeningIssues(report), {}, map[]);
    var r := if report.baselineKind != Null then ReadCompact(report, expected, start)
             else ReadFull(report, expected, start);
    Note(r, ClosingIssues(report, expected, r))
  }

  predicate ReadsClean(report: Report, expected: set<Slot>) {
    Read(report, expected).issues == []
  }

  // ---- reading only adds issues -----------------------------------------------

  predicate GoodChecks(checks: Checks, expected: set<Slot>) {
    forall i | i in checks :: GoodIdentity(i, expected)
  }

  predicate Grows(before: Reading, after: Reading, expected: set<Slot>) {
    && |before.issues| <= |after.issues|
    && (GoodChecks(before.checks, expected) ==> GoodChecks(after.checks, expected))
  }

  lemma {:induction false} CaseRefsGrow(refs: seq<Dict<CaseRef>>, r: Reading, expected: set<Slot>)
    ensures Grows(r, ReadCaseRefs(refs, r), expected)
    decreases |refs|
  {
    hide GoodIdentity;
    if refs != [] {
      CaseRefsGrow(refs[1..], Note(r, [MalformedCase]), expected);
      if refs[0].Dict? && refs[0].value.mode.Str? && refs[0].value.transport.Str? {
        var slot := Slot(refs[0].value.mode.s, refs[0].value.transport.s);
        CaseRefsGrow(refs[1..], Note(r, [DuplicateCase]), expected);
        CaseRefsGrow(refs[1..], r.(observed := r.observed + {slot}), expected);
      }
    }
  }

  lemma {:induction false} RecordsGrow(records: seq<Dict<Record>>, success: bool, expected: set<Slot>, r: Reading)
    ensures Grows(r, ReadRecords(records, success, expected, r), expected)
    decreases |records|
  {
    hide RecordIdentity, GoodIdentity;
    if records != [] {
      match RecordIdentity(records[0], expected)
      case None => RecordsGrow(records[1..], success, expected, Note(r, [MalformedRecord(success)]));
      case Some(i) =>
        RecordsGrow(records[1..], success, expected, Note(r, [DuplicateCheck]));
        RecordsGrow(records[1..], success, expected, r.(checks := r.checks[i := success]));
    }
  }

  lemma {:induction false} ChecksGrow(checks: seq<Dict<Check>>, slot: Slot, success: bool, expected: set<Slot>, r: Reading)
    requires slot in expected
    ensures Grows(r, ReadChecks(checks, slot, success, r).0, expected)
    decreases |checks|
  {
    hide CHECK_PREFIX;
    if checks != [] {
      match CheckIdentity(checks[0], slot)
      case None => ChecksGrow(checks[1..], slot, success, expected, Note(r, [MalformedCheck]));
      case Some(found) =>
        ChecksGrow(checks[1..], slot, success, expected, Note(r, [DuplicateCheck]));
        ChecksGrow(checks[1..], slot, success && found.1, expected, r.(checks := r.checks[found.0 := found.1]));
    }
  }

  lemma CaseGrows(c: Dict<Case>, expected: set<Slot>, r: Reading)
    ensures Grows(r, ReadCase(c, expected, r), expected)
  {
    hide GoodIdentity, ReadChecks;
    if CaseSlot(c, expected).Some? && c.value.checks.List? {
      var slot := CaseSlot(c, expected).value;
      ChecksGrow(c.value.checks.items, slot, true, expected, r.(observed := r.observed + {slot}));
    }
  }

  lemma {:induction false} CasesGrow(cases: seq<Dict<Case>>, expected: set<Slot>, r: Reading)
    ensures Grows(r, ReadCases(cases, expected, r), expected)
    decreases |cases|
  {
    hide ReadCase, GoodIdentity;
    if cases != [] {
      CaseGrows(cases[0], expected, r);
      CasesGrow(cases[1..], expected, ReadCase(cases[0], expected, r));
    }
  }

  lemma CompactGrows(report: Report, expected: set<Slot>, r: Reading)
    ensures Grows(r, ReadCompact(report, expected, r), expected)
  {
    hide ReadCaseRefs, ReadRecords, GoodIdentity;
    var r1 := Note(r, When(report.baselineKind != Str(REVIEW_BASELINE_KIND), WrongKind));
    var r2 := Note(r1, When(report.requiredCases.NotList?, NoRequiredCases));
    var refs := if report.requiredCases.List? then report.requiredCases.items else [];
    CaseRefsGrow(refs, r2, expected);
    var r3 := ReadCaseRefs(refs, r2);
    if report.checks.Dict? {
      var passing, failing := report.checks.value.passing, report.checks.value.failing;
      if passing.List? { RecordsGrow(passing.items, true, expected, r3); }
      if failing.List? { RecordsGrow(failing.items, false, expected, ReadBucket(passing, true, expected, r3)); }
    }
  }

  /** A clean reading found every required case and only good identities; its totals agree. */
  lemma CleanReading(report: Report, expected: set<Slot>)
    requires ReadsClean(report, expected)
    ensures var r := Read(report, expected);
            && r.observed == expected && GoodChecks(r.checks, expected)
            && TotalsMatch(report.summary, expected, r.checks)
  {
    hide ReadCompact, ReadFull, OpeningIssues, GoodIdentity, TotalsMatch, Slots;
    var start := Reading(OpeningIssues(report), {}, map[]);
    CompactGrows(report, expected, start);
    CasesGrow(if report.cases.List? then report.cases.items else [], expected,
              Note(start, When(report.cases.NotList?, NoCases)));
    FullIsCases(report, expected, start);
    var r := if report.baselineKind != Null then ReadCompact(report, expected, start) else ReadFull(report, expected, start);
    SlotsEmpty(expected - r.observed);
    SlotsEmpty(r.observed - expected);
    assert r.observed == expected by {
      assert expected - r.observed == {} && r.observed - expected == {};
      forall s ensures s in r.observed <==> s in expected {
        assert s !in expected - r.observed && s !in r.observed - expected;
      }
    }
  }

  lemma FullIsCases(report: Report, expected: set<Slot>, r: Reading)
    ensures ReadFull(report, expected, r)
         == ReadCases(if report.cases.List? then report.cases.items else [], expected,
                      Note(r, When(report.cases.NotList?, NoCases)))
  {}

  lemma SlotsEmpty(slots: set<Slot>)
    ensures Slots(slots) == [] <==> slots == {}
  {
    var r := Slots(slots);
    assert r != [] ==> r[0] in slots;
    if slots != {} {
      var s :| s in slots;
      assert s in r;
    }
  }

  // ---- compaction -------------------------------------------------------------

  function Identities(identities: set<Identity>): (r: seq<Identity>)
    ensures Sorted(r, IdentityLess) && forall i :: i in r <==> i in identities
  {
    Orders();
    Sort(identities, IdentityLess)
  }

  function AsRecord(i: Identity): Dict<Record> {
    Dict(Record(Str(i.slot.mode), Str(i.slot.transport), Str(i.checkId)))
  }

  function AsRecords(identities: seq<Identity>): (r: seq<Dict<Record>>)
    ensures |r| == |identities|
    ensures forall k | 0 <= k < |r| :: r[k] == AsRecord(identities[k])
  {
    seq(|identities|, k requires 0 <= k < |identities| => AsRecord(identities[k]))
  }

  function AsCaseRefs(slots: seq<Slot>): (r: seq<Dict<CaseRef>>)
    ensures |r| == |slots|
    ensures forall k | 0 <= k < |r| :: r[k] == Dict(CaseRef(Str(slots[k].mode), Str(slots[k].transport)))
  {
    seq(|slots|, k requires 0 <= k < |slots| => Dict(CaseRef(Str(slots[k].mode), Str(slots[k].transport))))
  }

  function CompactOf(report: Report, checks: Checks, expected: set<Slot>): Report {
    Report(
      Int(REVIEW_SCHEMA_VERSION), Str(REVIEWER), Str(REVIEW_BASELINE_KIND), NotList, List(Strs(REVIEW_MODES)),
      List(AsCaseRefs(Slots(expected))),
      Dict(Buckets(List(AsRecords(Identities(Holding(checks, true)))), List(AsRecords(Identities(Holding(checks, false)))))),
      NotList, report.summary, Null)
  }

  /** Nothing when the compactor raises ValueError. */
  function Compact(report: Report, expected: set<Slot>): Option<Report> {
    var r := Read(report, expected);
    if r.issues != [] then None else Some(CompactOf(report, r.checks, expected))
  }

  lemma {:induction false} WrittenCaseRefsRead(slots: seq<Slot>, r: Reading)
    requires Sorted(slots, SlotLess) && forall s | s in slots :: s !in r.observed
    ensures ReadCaseRefs(AsCaseRefs(slots), r) == r.(observed := r.observed + (set s | s in slots))
    decreases |slots|
  {
    hide SlotLess, AsCaseRefs, Sorted;
    if slots == [] {
      assert r.observed + {} == r.observed;
    } else {
      var s, rest := slots[0], slots[1..];
      assert AsCaseRefs(slots)[1..] == AsCaseRefs(rest);
      assert slots == [s] + rest;
      assert s !in rest && Sorted(rest, SlotLess) by {
        Orders();
        SortedTail(slots, SlotLess);
      }
      WrittenCaseRefsRead(rest, r.(observed := r.observed + {s}));
      assert r.observed + {s} + (set t | t in rest) == r.observed + (set t | t in slots);
    }
  }

  lemma RecordReadsBack(i: Identity, expected: set<Slot>)
    requires GoodIdentity(i, expected)
    ensures RecordIdentity(AsRecord(i), expected) == Some(i)
  {
    hide IsCheckId;
  }

  predicate Extends(before: Checks, after: Checks) {
    forall i | i in before :: i in after && after[i] == before[i]
  }

  lemma {:induction false} WrittenRecordsRead(
    identities: seq<Identity>, success: bool, expected: set<Slot>, r: Reading)
    requires Sorted(identities, IdentityLess)
    requires forall i | i in identities :: GoodIdentity(i, expected) && i !in r.checks
    ensures var out := ReadRecords(AsRecords(identities), success, expected, r);
            && out == r.(checks := out.checks)
            && Extends(r.checks, out.checks)
            && out.checks.Keys == r.checks.Keys + (set i | i in identities)
            && (forall i | i in identities :: out.checks[i] == success)
    decreases |identities|
  {
    hide IdentityLess, AsRecords, AsRecord, RecordIdentity, GoodIdentity, Sorted;
    if identities == [] {
      assert r.checks.Keys + {} == r.checks.Keys;
    } else {
      var i, rest := identities[0], identities[1..];
      assert AsRecords(identities)[1..] == AsRecords(rest);
      assert identities == [i] + rest;
      assert i !in rest && Sorted(rest, IdentityLess) by {
        Orders();
        SortedTail(identities, IdentityLess);
      }
      RecordReadsBack(i, expected);
      WrittenRecordsRead(rest, success, expected, r.(checks := r.checks[i := success]));
    }
  }

  lemma CompactChecksReadBack(checks: Checks, expected: set<Slot>, r: Reading)
    requires GoodChecks(checks, expected) && r.checks == map[]
    ensures var passing := ReadRecords(AsRecords(Identities(Holding(checks, true))), true, expected, r);
            ReadRecords(AsRecords(Identities(Holding(checks, false))), false, expected, passing)
            == r.(checks := checks)
  {
    hide AsRecords, ReadRecords, GoodIdentity, Identities;
    var p, f := Identities(Holding(checks, true)), Identities(Holding(checks, false));
    WrittenRecordsRead(p, true, expected, r);
    var passing := ReadRecords(AsRecords(p), true, expected, r);
    forall i | i in f ensures i !in passing.checks {}
    WrittenRecordsRead(f, false, expected, passing);
    var out := ReadRecords(AsRecords(f), false, expected, passing).checks;
    forall i ensures i in out <==> i in checks {
      assert i in checks ==> i in p || i in f;
    }
    forall i | i in checks ensures out[i] == checks[i] {
      assert i in p || i in f;
    }
    assert out == checks;
  }

  /** What is written for a good dictionary and its totals reads back as that dictionary. */
  lemma WrittenBaselineReads(report: Report, checks: Checks, expected: set<Slot>)
    requires GoodChecks(checks, expected) && TotalsMatch(report.summary, expected, checks)
    ensures Read(CompactOf(report, checks, expected), expected) == Reading([], expected, checks)
  {
    hide ReadFull, Slots, AsCaseRefs, AsRecords, Identities, ReadRecords, ReadCaseRefs, TotalsMatch, GoodChecks,
         REVIEW_BASELINE_KIND, REVIEW_MODES, Strs;
    var c := CompactOf(report, checks, expected);
    var start := Reading([], {}, map[]);
    assert OpeningIssues(c) == [];
    WrittenCaseRefsRead(Slots(expected), start);
    assert {} + (set s | s in Slots(expected)) == expected;
    CompactChecksReadBack(checks, expected, Reading([], expected, map[]));
    assert ReadCompact(c, expected, start) == Reading([], expected, checks);
    SlotsEmpty({});
    assert expected - expected == {};
    assert ClosingIssues(c, expected, Reading([], expected, checks)) == [];
  }

  /**
   * Reading a compacted report back raises no complaint and yields the identical
   * dictionary; in particular the totals still match the recount.
   */
  lemma CompactReadsBack(report: Report, expected: set<Slot>)
    requires ReadsClean(report, expected)
    ensures var checks := Read(report, expected).checks;
            Read(CompactOf(report, checks, expected), expected) == Reading([], expected, checks)
  {
    CleanReading(report, expected);
    hide Read;
    WrittenBaselineReads(report, Read(report, expected).checks, expected);
  }

  /** Every good dictionary is what some report reads as. */
  lemma CleanReportExists(checks: Checks, expected: set<Slot>)
    requires GoodChecks(checks, expected)
    ensures exists report :: Read(report, expected) == Reading([], expected, checks)
  {
    hide Read, CompactOf;
    var totals := Summary(Int(|Holding(checks, true)|), Int(|checks| - |Holding(checks, true)|), Int(|checks|),
                          Int(|set s | s in expected && CasePassed(checks, s)|), Int(|expected|));
    var report := Report(Null, Null, Null, NotList, NotList, NotList, NotDict, NotList, Dict(totals), Null);
    assert TotalsMatch(report.summary, expected, checks);
    WrittenBaselineReads(report, checks, expected);
  }

  /** Compacting twice is compacting once. */
  lemma CompactIdempotent(report: Report, expected: set<Slot>)
    requires ReadsClean(report, expected)
    ensures var c := CompactOf(report, Read(report, expected).checks, expected);
            Compact(report, expected) == Some(c) && Compact(c, expected) == Some(c)
  {
    hide Read;
    CompactReadsBack(report, expected);
  }

  // ---- the gate ---------------------------------------------------------------

  datatype GateResult = GateResult(
    success: bool,
    issues: seq<Reported<Issue>>,
    knownFailures: seq<Identity>,
    newFailures: seq<Identity>,
    missingChecks: seq<Identity>,
    fixedChecks: seq<Identity>)

  function Evaluate(baseline: Reading, candidate: Reading): GateResult {
    var b, c := baseline.checks, candidate.checks;
    var issues := Tagged("baseline", baseline.issues) + Tagged("candidate", candidate.issues);
    var newFailures := Identities(Holding(c, false) - Holding(b, false));
    var missing := Identities(b.Keys - c.Keys);
    GateResult(issues == [] && newFailures == [] && missing == [], issues,
               Identities(Holding(c, false) * Holding(b, false)), newFailures, missing,
               Identities(Holding(b, false) * Holding(c, true)))
  }

  function Gate(candidate: Report, baseline: Report, expected: set<Slot>): GateResult {
    Evaluate(Read(baseline, expected), Read(candidate, expected))
  }

  lemma IdentitiesEmpty(identities: set<Identity>)
    ensures Identities(identities) == [] <==> identities == {}
  {
    var r := Identities(identities);
    assert r != [] ==> r[0] in identities;
    if identities != {} {
      var i :| i in identities;
      assert i in r;
    }
  }

  /** The gate passes exactly when both reports are clean, no failure is new and no check is gone. */
  lemma PassMeans(candidate: Report, baseline: Report, expected: set<Slot>)
    ensures Gate(candidate, baseline, expected).success <==>
              var b, c := Read(baseline, expected), Read(candidate, expected);
              && b.issues == [] && c.issues == []
              && Holding(c.checks, false) <= Holding(b.checks, false) && b.checks.Keys <= c.checks.Keys
  {
    hide Read, Holding, Identities;
    var b, c := Read(baseline, expected), Read(candidate, expected);
    IdentitiesEmpty(Holding(c.checks, false) - Holding(b.checks, false));
    IdentitiesEmpty(b.checks.Keys - c.checks.Keys);
    EmptyDifference(Holding(c.checks, false), Holding(b.checks, false));
    EmptyDifference(b.checks.Keys, c.checks.Keys);
  }

  /** Passing is reflexive on clean reports and transitive. */
  lemma PassIsPreorder(a: Report, b: Report, c: Report, expected: set<Slot>)
    ensures Gate(a, a, expected).success <==> ReadsClean(a, expected)
    ensures Gate(b, a, expected).success && Gate(c, b, expected).success ==> Gate(c, a, expected).success
  {
    hide Read, Holding, Gate;
    PassMeans(a, a, expected);
    PassMeans(b, a, expected);
    PassMeans(c, b, expected);
    PassMeans(c, a, expected);
  }

  /** Against a compacted baseline the gate answers as against the report itself. */
  lemma CompactGatesAlike(report: Report, candidate: Report, expected: set<Slot>)
    requires ReadsClean(report, expected)
    ensures Gate(candidate, CompactOf(report, Read(report, expected).checks, expected), expected)
         == Gate(candidate, report, expected)
  {
    hide Evaluate, CompactOf, Read;
    CompactReadsBack(report, expected);
    assert Read(report, expected) == Reading([], expected, Read(report, expected).checks) by { CleanReading(report, expected); }
  }
}
