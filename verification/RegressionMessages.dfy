/** What the conformance validator says about any report, message by message, and when it raises. */
module RegressionMessages {
  import opened Wrappers
  import opened JsonShapes
  import opened RegressionReports
  import opened RegressionFacts

  // ---- the header -------------------------------------------------------------

  predicate HeaderComplaint(report: Report, issue: Issue) {
    match issue
    case WrongSchema => report.schemaVersion != Int(4)
    case NoVersionCheck => report.versionSuccess != Dict(Bool(true))
    case NoModernFeature => report.modernFeatureEnablement != Bool(true)
    case NoOfficialMetadata => report.official.NotDict?
    case WrongRepository => report.official.Dict? && report.official.value.repository != Str(REPOSITORY)
    case WrongRevision => report.official.Dict? && report.official.value.gitRef != Str(GIT_REF)
    case NoAuthScenarios => report.official.Dict? && report.official.value.authenticationIncluded != Bool(true)
    case NoCatalog => report.official.Dict? && report.official.value.scenarios.NotDict?
    case _ => false
  }

  lemma WhenIn(condition: bool, issue: Issue, i: Issue)
    ensures i in When(condition, issue) <==> condition && i == issue
  {
  }

  lemma OfficialMessages(report: Report, issue: Issue)
    ensures issue in OfficialIssues(report.official) <==> HeaderComplaint(report, issue) && !ReportComplaint(report, issue)
  {
    hide REPOSITORY, GIT_REF, When;
    var official := report.official;
    if official.Dict? {
      WhenIn(official.value.repository != Str(REPOSITORY), WrongRepository, issue);
      WhenIn(official.value.gitRef != Str(GIT_REF), WrongRevision, issue);
      WhenIn(official.value.authenticationIncluded != Bool(true), NoAuthScenarios, issue);
      WhenIn(official.value.scenarios.NotDict?, NoCatalog, issue);
    }
  }

  predicate ReportComplaint(report: Report, issue: Issue) {
    || (issue == WrongSchema && report.schemaVersion != Int(4))
    || (issue == NoVersionCheck && report.versionSuccess != Dict(Bool(true)))
    || (issue == NoModernFeature && report.modernFeatureEnablement != Bool(true))
  }

  lemma HeaderMessages(report: Report, issue: Issue)
    ensures issue in HeaderIssues(report) <==> HeaderComplaint(report, issue)
  {
    hide REPOSITORY, GIT_REF, When, OfficialIssues;
    WhenIn(!EqualsInt(report.schemaVersion, SCHEMA_VERSION), WrongSchema, issue);
    WhenIn(report.versionSuccess != Dict(Bool(true)), NoVersionCheck, issue);
    WhenIn(report.modernFeatureEnablement != Bool(true), NoModernFeature, issue);
    OfficialMessages(report, issue);
  }

  // ---- collecting cases -------------------------------------------------------

  predicate FirstFor(cases: seq<Dict<Case>>, slot: Slot, k: int) {
    0 <= k < |cases| && Fills(cases[k], slot) && forall j | 0 <= j < k :: !Fills(cases[j], slot)
  }

  predicate Filled(cases: seq<Dict<Case>>, slot: Slot) {
    exists k :: 0 <= k < |cases| && Fills(cases[k], slot)
  }

  predicate Untransported(c: Dict<Case>) {
    InMode(c) && !c.value.transport.Str?
  }

  ghost predicate CaseComplaint(cases: seq<Dict<Case>>, issue: Issue) {
    match issue
    case MalformedCase => exists k :: 0 <= k < |cases| && cases[k].NotDict?
    case MalformedRequiredCase => exists k :: 0 <= k < |cases| && Untransported(cases[k])
    case DuplicateCase(transport, mode) =>
      exists j, k :: 0 <= j < k < |cases| && Fills(cases[j], (mode, transport)) && Fills(cases[k], (mode, transport))
    case _ => false
  }

  /** What one more case is complained about for. */
  predicate LastComplaint(done: seq<Dict<Case>>, c: Dict<Case>, issue: Issue) {
    match issue
    case MalformedCase => c.NotDict?
    case MalformedRequiredCase => Untransported(c)
    case DuplicateCase(transport, mode) => Fills(c, (mode, transport)) && Filled(done, (mode, transport))
    case _ => false
  }

  lemma CaseComplaintSnoc(done: seq<Dict<Case>>, c: Dict<Case>, issue: Issue)
    ensures CaseComplaint(done + [c], issue) <==> CaseComplaint(done, issue) || LastComplaint(done, c, issue)
  {
    hide Fills, Untransported;
    var all := done + [c];
    assert all[|done|] == c && forall k | 0 <= k < |done| :: all[k] == done[k];
    if issue.DuplicateCase? {
      var slot := (issue.mode, issue.transport);
      if j, k :| 0 <= j < k < |all| && Fills(all[j], slot) && Fills(all[k], slot) {
        assert Fills(done[j], slot);
        assert k < |done| ==> Fills(done[k], slot);
      }
    }
  }

  lemma CaseComplaintGrows(a: seq<Dict<Case>>, b: seq<Dict<Case>>, issue: Issue)
    requires CaseComplaint(a, issue)
    ensures CaseComplaint(a + b, issue)
  {
    hide Fills, Untransported;
    assert forall k | 0 <= k < |a| :: (a + b)[k] == a[k];
    if issue.DuplicateCase? {
      var slot := (issue.mode, issue.transport);
      var j, k :| 0 <= j < k < |a| && Fills(a[j], slot) && Fills(a[k], slot);
      assert Fills((a + b)[j], slot) && Fills((a + b)[k], slot);
    }
  }

  /** The table holds the first case of each slot. */
  ghost predicate TableOf(cases: seq<Dict<Case>>, table: map<Slot, Case>) {
    forall slot: Slot ::
      (slot in table <==> Filled(cases, slot))
      && (slot in table ==> exists k :: FirstFor(cases, slot, k) && cases[k] == Dict(table[slot]))
  }

  lemma FilledSnoc(done: seq<Dict<Case>>, c: Dict<Case>, slot: Slot)
    ensures Filled(done + [c], slot) <==> Filled(done, slot) || Fills(c, slot)
  {
    hide Fills;
    var all := done + [c];
    assert all[|done|] == c && forall k | 0 <= k < |done| :: all[k] == done[k];
  }

  lemma FirstSnoc(done: seq<Dict<Case>>, c: Dict<Case>, slot: Slot)
    ensures forall k | FirstFor(done, slot, k) :: FirstFor(done + [c], slot, k) && (done + [c])[k] == done[k]
    ensures Fills(c, slot) && !Filled(done, slot) ==> FirstFor(done + [c], slot, |done|) && (done + [c])[|done|] == c
  {
    hide Fills;
    var all := done + [c];
    assert all[|done|] == c && forall k | 0 <= k < |done| :: all[k] == done[k];
  }

  lemma FillsOne(c: Dict<Case>, slot: Slot)
    ensures Fills(c, slot) <==> InMode(c) && c.value.transport.Str? && slot == (c.value.mode.s, c.value.transport.s)
  {
    hide MODES;
  }

  lemma TableSnoc(done: seq<Dict<Case>>, table: map<Slot, Case>, c: Dict<Case>)
    requires TableOf(done, table)
    ensures InMode(c) && c.value.transport.Str? ==>
              var slot := (c.value.mode.s, c.value.transport.s);
              TableOf(done + [c], if slot in table then table else table[slot := c.value])
    ensures !InMode(c) || !c.value.transport.Str? ==> TableOf(done + [c], table)
  {
    hide Filled, Fills, MODES;
    var slot' := if InMode(c) && c.value.transport.Str? then Some((c.value.mode.s, c.value.transport.s)) else None;
    var table' := if slot'.None? || slot'.value in table then table else table[slot'.value := c.value];
    forall slot: Slot
      ensures slot in table' <==> Filled(done + [c], slot)
      ensures slot in table' ==> exists k :: FirstFor(done + [c], slot, k) && (done + [c])[k] == Dict(table'[slot])
    {
      FilledSnoc(done, c, slot);
      FirstSnoc(done, c, slot);
      FillsOne(c, slot);
      if slot in table {
        var k :| FirstFor(done, slot, k) && done[k] == Dict(table[slot]);
        assert FirstFor(done + [c], slot, k);
      }
    }
    assert TableOf(done + [c], table');
  }

  lemma {:induction false} CasesReported(done: seq<Dict<Case>>, rest: seq<Dict<Case>>, t: CaseTable, issue: Issue)
    requires TableOf(done, t.cases) && (CaseComplaint(done, issue) ==> issue in t.issues)
    ensures var out := CollectCases(rest, t);
            && TableOf(done + rest, out.cases)
            && (issue in out.issues <==> issue in t.issues || CaseComplaint(done + rest, issue))
    decreases |rest|
  {
    hide TableOf, CaseComplaint, Filled;
    if rest == [] {
      assert done + rest == done;
    } else {
      var c := rest[0];
      assert done + rest == done + [c] + rest[1..];
      CaseComplaintSnoc(done, c, issue);
      TableSnoc(done, t.cases, c);
      var next := CaseTaken(done, c, t, issue);
      CollectStep(rest, t, next);
      CasesReported(done + [c], rest[1..], next, issue);
      if CaseComplaint(done + [c], issue) {
        CaseComplaintGrows(done + [c], rest[1..], issue);
      }
    }
  }

  predicate IsNext(c: Dict<Case>, t: CaseTable, next: CaseTable) {
    if c.NotDict? then next == t.(issues := t.issues + [MalformedCase])
    else if !InMode(c) then next == t
    else if !c.value.transport.Str? then next == t.(issues := t.issues + [MalformedRequiredCase])
    else
      var slot := (c.value.mode.s, c.value.transport.s);
      if slot in t.cases then next == t.(issues := t.issues + [DuplicateCase(slot.1, slot.0)])
      else next == t.(cases := t.cases[slot := c.value])
  }

  lemma CollectStep(cases: seq<Dict<Case>>, t: CaseTable, next: CaseTable)
    requires cases != [] && IsNext(cases[0], t, next)
    ensures CollectCases(cases, t) == CollectCases(cases[1..], next)
  {
    hide MODES;
  }

  lemma CaseTaken(done: seq<Dict<Case>>, c: Dict<Case>, t: CaseTable, issue: Issue) returns (next: CaseTable)
    requires TableOf(done, t.cases)
    ensures IsNext(c, t, next)
    ensures issue in next.issues <==> issue in t.issues || LastComplaint(done, c, issue)
    ensures next.cases == if InMode(c) && c.value.transport.Str? && (c.value.mode.s, c.value.transport.s) !in t.cases
                          then t.cases[(c.value.mode.s, c.value.transport.s) := c.value] else t.cases
  {
    hide MODES, Filled, FirstFor;
    next := if c.NotDict? then t.(issues := t.issues + [MalformedCase])
            else if !InMode(c) then t
            else if !c.value.transport.Str? then t.(issues := t.issues + [MalformedRequiredCase])
            else
              var slot := (c.value.mode.s, c.value.transport.s);
              if slot in t.cases then t.(issues := t.issues + [DuplicateCase(slot.1, slot.0)])
              else t.(cases := t.cases[slot := c.value]);
  }

  // ---- reading one slot -------------------------------------------------------

  predicate SomeRaises(checks: seq<Dict<Check>>, mode: string, transport: string) {
    exists c | c in checks :: CheckFact(mode, transport, c).Raises?
  }

  predicate SomeMalformed(checks: seq<Dict<Check>>, mode: string, transport: string) {
    exists c | c in checks :: CheckFact(mode, transport, c).Malformed?
  }

  function Observed(checks: seq<Dict<Check>>, mode: string, transport: string): set<string> {
    CoveredScenarios(CheckFacts(checks, mode, transport), mode)
  }

  lemma ObservedCons(checks: seq<Dict<Check>>, mode: string, transport: string)
    requires checks != []
    ensures var first := CheckFact(mode, transport, checks[0]);
            Observed(checks, mode, transport)
            == (if first.Good? && CountsAsObserved(first.value.identity, mode) then {first.value.identity.scenario} else {})
               + Observed(checks[1..], mode, transport)
  {
    hide CheckFact, CountsAsObserved;
    var first := CheckFact(mode, transport, checks[0]);
    assert checks == [checks[0]] + checks[1..];
    if first.Good? {
      CheckFactsSplit(checks, mode, transport);
      CoveredSplit({first.value}, CheckFacts(checks[1..], mode, transport), mode);
      CoveredOne(first.value, mode);
    } else {
      assert CheckFacts(checks, mode, transport) == CheckFacts(checks[1..], mode, transport);
    }
  }

  lemma {:induction false} ChecksReported(
    checks: seq<Dict<Check>>, mode: string, transport: string, r: Reading, observed: set<string>, issue: Issue)
    ensures var out := ReadChecks(checks, mode, transport, r, observed);
            && (out.None? <==> SomeRaises(checks, mode, transport))
            && (out.Some? ==>
                  && (issue in out.value.0.issues <==>
                        issue in r.issues || (issue == MalformedCheck(transport, mode) && SomeMalformed(checks, mode, transport)))
                  && out.value.1 == observed + Observed(checks, mode, transport))
    decreases |checks|
  {
    hide CheckFact, CountsAsObserved, Observed, AddFact;
    if checks == [] {
      assert Observed([], mode, transport) == {} by { NothingObserved(mode, transport); }
    } else {
      assert checks == [checks[0]] + checks[1..];
      ObservedCons(checks, mode, transport);
      match CheckFact(mode, transport, checks[0])
      case Raises =>
      case Malformed =>
        ChecksReported(checks[1..], mode, transport, Note(r, [MalformedCheck(transport, mode)]), observed, issue);
      case Good(f) =>
        var observed' := if CountsAsObserved(f.identity, mode) then observed + {f.identity.scenario} else observed;
        ChecksReported(checks[1..], mode, transport, r.(checks := AddFact(r.checks, f)), observed', issue);
    }
  }

  lemma NothingObserved(mode: string, transport: string)
    ensures Observed([], mode, transport) == {}
  {
    NothingCovered(mode, transport);
  }

  predicate HasChecks(c: Case) {
    c.checks.List? && c.checks.items != []
  }

  predicate ScenarioComplaint(mode: string, expected: set<string>, observed: set<string>, issue: Issue) {
    match issue
    case ScenariosNotObserved(m, scenarios) => m == mode && scenarios == expected - observed && scenarios != {}
    case UnexpectedScenarios(m, scenarios) => m == mode && scenarios == observed - expected && scenarios != {}
    case _ => false
  }

  lemma ScenarioMessages(mode: string, expected: set<string>, observed: set<string>, issue: Issue)
    ensures issue in ScenarioIssues(mode, expected, observed) <==> ScenarioComplaint(mode, expected, observed, issue)
  {
    hide When;
    WhenIn(expected - observed != {}, ScenariosNotObserved(mode, expected - observed), issue);
    WhenIn(observed - expected != {}, UnexpectedScenarios(mode, observed - expected), issue);
  }

  /** What is said about the case of a slot. */
  predicate OwnComplaint(c: Case, mode: string, transport: string, catalog: Catalog, issue: Issue) {
    if !HasChecks(c) then issue == NoChecks(transport, mode)
    else
      || (issue == MalformedCheck(transport, mode) && SomeMalformed(c.checks.items, mode, transport))
      || (transport == HTTP
          && ScenarioComplaint(mode, SetOf(catalog(mode)), Observed(c.checks.items, mode, transport), issue))
  }

  lemma SlotReported(cases: map<Slot, Case>, mode: string, transport: string, catalog: Catalog, r: Reading, issue: Issue)
    ensures var out, slot := ReadCase(cases, mode, transport, catalog, r), (mode, transport);
            && (out.None? <==> slot in cases && HasChecks(cases[slot]) && SomeRaises(cases[slot].checks.items, mode, transport))
            && (out.Some? ==>
                  (issue in out.value.issues <==>
                     || issue in r.issues
                     || (if slot in cases then OwnComplaint(cases[slot], mode, transport, catalog, issue)
                         else issue == MissingCase(transport, mode))))
  {
    hide SomeRaises, SomeMalformed, Observed, SetOf, HTTP, ReadChecks, ScenarioIssues, ScenarioComplaint;
    if (mode, transport) in cases && HasChecks(cases[(mode, transport)]) {
      var checks := cases[(mode, transport)].checks.items;
      ChecksReported(checks, mode, transport, r, {}, issue);
      var observed := Observed(checks, mode, transport);
      assert {} + observed == observed;
      ScenarioMessages(mode, SetOf(catalog(mode)), observed, issue);
    }
  }

  // ---- whole reports ----------------------------------------------------------

  ghost predicate SlotComplaint(cases: seq<Dict<Case>>, mode: string, transport: string, catalog: Catalog, issue: Issue) {
    || (issue == MissingCase(transport, mode) && !Filled(cases, (mode, transport)))
    || (exists k :: FirstFor(cases, (mode, transport), k) && OwnComplaint(cases[k].value, mode, transport, catalog, issue))
  }

  /** The first case of the slot has a check that makes the validator raise. */
  ghost predicate SlotRaises(cases: seq<Dict<Case>>, mode: string, transport: string) {
    exists k :: FirstFor(cases, (mode, transport), k) && HasChecks(cases[k].value)
                && SomeRaises(cases[k].value.checks.items, mode, transport)
  }

  lemma SlotFromTable(cases: seq<Dict<Case>>, table: map<Slot, Case>, mode: string, transport: string, catalog: Catalog, r: Reading, issue: Issue)
    requires TableOf(cases, table)
    ensures var out := ReadCase(table, mode, transport, catalog, r);
            && (out.None? <==> SlotRaises(cases, mode, transport))
            && (out.Some? ==> (issue in out.value.issues <==> issue in r.issues || SlotComplaint(cases, mode, transport, catalog, issue)))
  {
    hide ReadCase, OwnComplaint, HasChecks, SomeRaises, Fills, Filled;
    SlotReported(table, mode, transport, catalog, r, issue);
    var slot := (mode, transport);
    if slot in table {
      var k :| FirstFor(cases, slot, k) && cases[k] == Dict(table[slot]);
      forall j | FirstFor(cases, slot, j) ensures j == k { }
    } else {
      forall j: int ensures !FirstFor(cases, slot, j) { NotFilled(cases, slot, j); }
    }
  }

  lemma NotFilled(cases: seq<Dict<Case>>, slot: Slot, k: int)
    requires !Filled(cases, slot)
    ensures !FirstFor(cases, slot, k)
  {
    hide Fills;
  }

  ghost predicate ModeComplaint(
    cases: seq<Dict<Case>>, selected: map<string, Listed<Scalar>>, mode: string, catalog: Catalog, issue: Issue)
  {
    || (issue == IncompleteCatalog(mode) && !RunsCatalog(selected, mode, catalog))
    || SlotComplaint(cases, mode, "stdio", catalog, issue)
    || SlotComplaint(cases, mode, "official-http", catalog, issue)
  }

  ghost predicate ModeRaises(cases: seq<Dict<Case>>, mode: string) {
    SlotRaises(cases, mode, "stdio") || SlotRaises(cases, mode, "official-http")
  }

  function ReadMode(
    mode: string, table: map<Slot, Case>, selected: map<string, Listed<Scalar>>, catalog: Catalog, r: Reading)
    : Option<Reading>
  {
    var r0 := Note(r, When(!RunsCatalog(selected, mode, catalog), IncompleteCatalog(mode)));
    var r1 :- ReadCase(table, mode, STDIO, catalog, r0);
    ReadCase(table, mode, HTTP, catalog, r1)
  }

  lemma ModeReported(
    mode: string, cases: seq<Dict<Case>>, table: map<Slot, Case>, selected: map<string, Listed<Scalar>>,
    catalog: Catalog, r: Reading, issue: Issue)
    requires TableOf(cases, table)
    ensures var out := ReadMode(mode, table, selected, catalog, r);
            && (out.None? <==> ModeRaises(cases, mode))
            && (out.Some? ==> (issue in out.value.issues <==> issue in r.issues || ModeComplaint(cases, selected, mode, catalog, issue)))
  {
    hide TableOf, ReadCase, SlotComplaint, SlotRaises, RunsCatalog;
    var r0 := Note(r, When(!RunsCatalog(selected, mode, catalog), IncompleteCatalog(mode)));
    SlotFromTable(cases, table, mode, STDIO, catalog, r0, issue);
    var r1 := ReadCase(table, mode, STDIO, catalog, r0);
    if r1.Some? {
      SlotFromTable(cases, table, mode, HTTP, catalog, r1.value, issue);
    } else {
      SlotFromTable(cases, table, mode, HTTP, catalog, r0, issue);
    }
  }

  lemma {:induction false} ModesReported(
    modes: seq<string>, cases: seq<Dict<Case>>, table: map<Slot, Case>, selected: map<string, Listed<Scalar>>,
    catalog: Catalog, r: Reading, issue: Issue)
    requires TableOf(cases, table)
    ensures var out := ReadModes(modes, table, selected, catalog, r);
            && (out.None? <==> exists mode | mode in modes :: ModeRaises(cases, mode))
            && (out.Some? ==>
                  (issue in out.value.issues <==>
                     issue in r.issues || exists mode | mode in modes :: ModeComplaint(cases, selected, mode, catalog, issue)))
    decreases |modes|
  {
    if modes != [] {
      hide TableOf, ReadCase, ModeComplaint, ModeRaises, RunsCatalog;
      var mode := modes[0];
      assert modes == [mode] + modes[1..];
      ModeReported(mode, cases, table, selected, catalog, r, issue);
      var next := ReadMode(mode, table, selected, catalog, r);
      if next.Some? {
        ModesReported(modes[1..], cases, table, selected, catalog, next.value, issue);
      }
    }
  }

  ghost predicate FullComplaint(report: Report, catalog: Catalog, issue: Issue) {
    || HeaderComplaint(report, issue)
    || (issue == NoCases && report.cases.NotList?)
    || CaseComplaint(CaseList(report), issue)
    || exists mode | mode in MODES :: ModeComplaint(CaseList(report), Selected(report), mode, catalog, issue)
  }

  /** The validator raises exactly for a check it must read that makes it raise, and otherwise says exactly what is wrong. */
  lemma FullMessages(report: Report, catalog: Catalog, issue: Issue)
    ensures var out := ReadFull(report, catalog);
            && (out.None? <==> exists mode | mode in MODES :: ModeRaises(CaseList(report), mode))
            && (out.Some? ==> (issue in out.value.issues <==> FullComplaint(report, catalog, issue)))
  {
    hide HeaderIssues, HeaderComplaint, CollectCases, ReadModes, CaseComplaint, ModeComplaint, ModeRaises, MODES, TableOf, CaseList;
    HeaderMessages(report, issue);
    var issues := HeaderIssues(report) + When(report.cases.NotList?, NoCases);
    var cases, start := CaseList(report), CaseTable(issues, map[]);
    NoCasesYet(issue);
    CasesReported([], cases, start, issue);
    assert [] + cases == cases;
    var t := CollectCases(cases, start);
    ModesReported(MODES, cases, t.cases, Selected(report), catalog, Reading(t.issues, map[]), issue);
  }

  lemma NoCasesYet(issue: Issue)
    ensures TableOf([], map[]) && !CaseComplaint([], issue)
  {
  }

  /** Which checks make it raise: those with a list or a dictionary for a source, or for the status of an identifiable check. */
  lemma RaisingChecks(mode: string, transport: string, check: Dict<Check>)
    ensures CheckFact(mode, transport, check).Raises? <==>
              check.Dict? && (check.value.source.Container?
                              || (CheckIdentity(mode, transport, check.value).Good? && check.value.status.Container?))
  {
    hide SOURCES;
  }
}
