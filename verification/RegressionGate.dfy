/** The regression gate `_evaluate_regression_gate`, on top of the report validator, and what passing it means. */
module RegressionGate {
  import opened Wrappers
  import opened Ordering
  import opened JsonShapes
  import opened ErrorLog
  import opened RegressionReports
  import opened RegressionFacts

  // ---- the gate ---------------------------------------------------------------

  datatype GateResult = GateResult(
    success: bool,
    issues: seq<Reported<Issue>>,
    newFailures: seq<Identity>,
    missingChecks: seq<Identity>,
    knownFailures: seq<Identity>,
    fixedChecks: seq<Identity>)

  function Holding(checks: Checks, status: Status): set<Identity> {
    set i | i in checks && status in checks[i]
  }

  function Passing(checks: Checks): set<Identity> { Holding(checks, Pass) }

  function Failing(checks: Checks): set<Identity> { Holding(checks, Fail) }

  function Shipping(identities: set<Identity>): set<Identity> {
    set i | i in identities && i.mode == SHIPPING
  }

  function Listing(identities: set<Identity>): (r: seq<Identity>)
    ensures Sorted(r, IdentityLess)
    ensures forall i :: i in r <==> i in identities
  {
    IdentityOrder();
    Sort(identities, IdentityLess)
  }

  lemma ListingEmpty(identities: set<Identity>)
    ensures Listing(identities) == [] <==> identities == {}
  {
    var r := Listing(identities);
    assert r != [] ==> r[0] in identities;
    if identities != {} {
      var i :| i in identities;
      assert i in r;
    }
  }

  function AuthIssues(baseline: Scalar, candidate: Scalar): seq<Reported<Issue>> {
    if !baseline.Bool? || !candidate.Bool? then [General(NoAuthPolicy)]
    else if baseline != candidate then [General(DifferentAuthPolicies)]
    else []
  }

  function ShippingIssues(identities: seq<Identity>): (r: seq<Reported<Issue>>)
    ensures |r| == |identities|
  {
    seq(|identities|, k requires 0 <= k < |identities| => General(ShippingCheckFailed(identities[k].checkId)))
  }

  function BaselineShippingIssues(identities: seq<Identity>): (r: seq<Reported<Issue>>)
    ensures |r| == |identities|
  {
    seq(|identities|, k requires 0 <= k < |identities| => General(BaselineShippingCheckFailed(identities[k].checkId)))
  }

  /** Identities that passed, or failed, in the baseline and have left no trace of it. */
  function Missing(baseline: Checks, candidate: Checks): set<Identity> {
    (Passing(baseline) - Passing(candidate)) + (Failing(baseline) - Failing(candidate) - Passing(candidate))
  }

  function Evaluate(baseline: Reading, candidate: Reading, baselineAuth: Scalar, candidateAuth: Scalar): GateResult {
    var b, c := baseline.checks, candidate.checks;
    var issues := Tagged("baseline", baseline.issues) + Tagged("candidate", candidate.issues)
                  + AuthIssues(baselineAuth, candidateAuth)
                  + ShippingIssues(Listing(Shipping(Failing(c)))) + BaselineShippingIssues(Listing(Shipping(Failing(b))));
    var newFailures, missing := Listing(Failing(c) - Failing(b)), Listing(Missing(b, c));
    GateResult(issues == [] && newFailures == [] && missing == [], issues, newFailures, missing,
               Listing(Failing(c) * Failing(b)), Listing((Failing(b) - Failing(c)) * Passing(c)))
  }

  /** The gate on two reports; nothing when Python would raise TypeError. */
  function Gate(candidate: Report, baseline: Report, catalog: Catalog): Option<GateResult> {
    var b :- Read(baseline, catalog);
    var c :- Read(candidate, catalog);
    Some(Evaluate(b, c, baseline.automaticAuthRequired, candidate.automaticAuthRequired))
  }

  predicate Passes(candidate: Report, baseline: Report, catalog: Catalog) {
    var r := Gate(candidate, baseline, catalog);
    r.Some? && r.value.success
  }

  // ---- what passing means -----------------------------------------------------

  predicate ReadsClean(report: Report, catalog: Catalog) {
    var r := Read(report, catalog);
    r.Some? && r.value.issues == []
  }

  function CleanChecks(report: Report, catalog: Catalog): Checks
    requires ReadsClean(report, catalog)
  {
    Read(report, catalog).value.checks
  }

  /** No failure is new and nothing decided in the baseline disappeared. */
  predicate NoRegression(baseline: Checks, candidate: Checks) {
    && Failing(candidate) <= Failing(baseline)
    && Passing(baseline) <= Passing(candidate)
    && Failing(baseline) <= Failing(candidate) + Passing(candidate)
  }

  /** A report that records its policy and has no failing shipping check. */
  predicate Acceptable(report: Report, catalog: Catalog) {
    && ReadsClean(report, catalog)
    && report.automaticAuthRequired.Bool?
    && Shipping(Failing(CleanChecks(report, catalog))) == {}
  }

  lemma EvaluateSucceeds(b: Reading, c: Reading, bAuth: Scalar, cAuth: Scalar)
    ensures Evaluate(b, c, bAuth, cAuth).success <==>
              && b.issues == [] && c.issues == []
              && bAuth.Bool? && cAuth == bAuth
              && Shipping(Failing(b.checks)) == {} && Shipping(Failing(c.checks)) == {}
              && NoRegression(b.checks, c.checks)
  {
    hide Holding, Shipping;
    ListingEmpty(Shipping(Failing(b.checks)));
    ListingEmpty(Shipping(Failing(c.checks)));
    ListingEmpty(Failing(c.checks) - Failing(b.checks));
    ListingEmpty(Missing(b.checks, c.checks));
    EmptyDifference(Failing(c.checks), Failing(b.checks));
    EmptyDifference(Passing(b.checks), Passing(c.checks));
    EmptyDifference(Failing(b.checks), Failing(c.checks) + Passing(c.checks));
    assert Failing(b.checks) - Failing(c.checks) - Passing(c.checks)
        == Failing(b.checks) - (Failing(c.checks) + Passing(c.checks));
    UnionEmpty(Passing(b.checks) - Passing(c.checks), Failing(b.checks) - Failing(c.checks) - Passing(c.checks));
  }

  lemma UnionEmpty<T>(a: set<T>, b: set<T>)
    ensures a + b == {} <==> a == {} && b == {}
  {
    if a + b == {} {
      assert a <= a + b && b <= a + b;
    }
  }

  /** The gate passes exactly when both reports are acceptable, agree on policy and nothing regressed. */
  lemma PassMeans(candidate: Report, baseline: Report, catalog: Catalog)
    ensures Passes(candidate, baseline, catalog) <==>
              && Acceptable(baseline, catalog) && Acceptable(candidate, catalog)
              && candidate.automaticAuthRequired == baseline.automaticAuthRequired
              && NoRegression(CleanChecks(baseline, catalog), CleanChecks(candidate, catalog))
  {
    hide Read, Evaluate, Failing, Shipping, NoRegression;
    var b, c := Read(baseline, catalog), Read(candidate, catalog);
    if b.Some? && c.Some? {
      EvaluateSucceeds(b.value, c.value, baseline.automaticAuthRequired, candidate.automaticAuthRequired);
    }
  }

  /** A report passes against itself exactly when it is acceptable. */
  lemma PassReflexive(report: Report, catalog: Catalog)
    ensures Passes(report, report, catalog) <==> Acceptable(report, catalog)
  {
    hide Read, Evaluate, Passes, Acceptable;
    PassMeans(report, report, catalog);
    if ReadsClean(report, catalog) {
      assert NoRegression(CleanChecks(report, catalog), CleanChecks(report, catalog));
    }
    assert Acceptable(report, catalog) ==> ReadsClean(report, catalog) by { AcceptableReadsClean(report, catalog); }
  }

  lemma AcceptableReadsClean(report: Report, catalog: Catalog)
    ensures Acceptable(report, catalog) ==> ReadsClean(report, catalog)
  {}

  lemma NoRegressionTransitive(a: Checks, b: Checks, c: Checks)
    requires NoRegression(a, b) && NoRegression(b, c)
    ensures NoRegression(a, c)
  {
    hide Failing, Passing;
    forall i | i in Failing(a) ensures i in Failing(c) + Passing(c) {
      assert i in Failing(b) + Passing(b);
    }
  }

  /** Passing is transitive along a chain of reports. */
  lemma PassTransitive(a: Report, b: Report, c: Report, catalog: Catalog)
    requires Passes(b, a, catalog) && Passes(c, b, catalog)
    ensures Passes(c, a, catalog)
  {
    hide Passes, Acceptable, CleanChecks, NoRegression;
    PassMeans(b, a, catalog);
    PassMeans(c, b, catalog);
    PassMeans(c, a, catalog);
    AcceptableReadsClean(a, catalog);
    AcceptableReadsClean(b, catalog);
    AcceptableReadsClean(c, catalog);
    NoRegressionTransitive(CleanChecks(a, catalog), CleanChecks(b, catalog), CleanChecks(c, catalog));
  }

  // ---- the order of cases and checks does not matter --------------------------

  /** Two reports whose clean readings agree are interchangeable on either side of the gate. */
  predicate Interchangeable(a: Report, b: Report, catalog: Catalog) {
    && a.automaticAuthRequired == b.automaticAuthRequired
    && (ReadsClean(a, catalog) <==> ReadsClean(b, catalog))
    && (ReadsClean(a, catalog) ==> Read(a, catalog) == Read(b, catalog))
  }

  lemma InterchangeableVerdicts(a: Report, b: Report, other: Report, catalog: Catalog)
    requires Interchangeable(a, b, catalog)
    ensures Passes(a, other, catalog) <==> Passes(b, other, catalog)
    ensures Passes(other, a, catalog) <==> Passes(other, b, catalog)
  {
    hide Read, Evaluate, Passes, Shipping, Failing, NoRegression;
    PassMeans(a, other, catalog);
    PassMeans(b, other, catalog);
    PassMeans(other, a, catalog);
    PassMeans(other, b, catalog);
  }

  /** Full reports with the same conditions and facts read the same. */
  lemma SameFactsInterchangeable(a: Report, b: Report, catalog: Catalog)
    requires a.baselineKind == Null && b.baselineKind == Null
    requires a.automaticAuthRequired == b.automaticAuthRequired
    requires Accepts(a, catalog) <==> Accepts(b, catalog)
    requires ReportFacts(a) == ReportFacts(b)
    ensures Interchangeable(a, b, catalog)
  {
    hide ReadFull, Accepts, ReportFacts, Facts, Proper;
    FullRead(a, catalog);
    FullRead(b, catalog);
    if Accepts(a, catalog) {
      SameFacts(ReadFull(a, catalog).value.checks, ReadFull(b, catalog).value.checks);
    }
  }

  lemma CasesOkReordered(a: seq<Dict<Case>>, b: seq<Dict<Case>>)
    requires multiset(a) == multiset(b) && CasesOk(a)
    ensures CasesOk(b)
  {
    SameElements(a, b);
    forall i | 0 <= i < |b| ensures TypedCase(b[i]) {
      assert b[i] in a;
    }
    forall i, j | 0 <= i < j < |b| && InMode(b[i]) && InMode(b[j])
      ensures b[i].value.mode != b[j].value.mode || b[i].value.transport != b[j].value.transport
    {
      if b[i] == b[j] {
        var k, l := TwiceInReordering(b, a, i, j);
      } else {
        assert b[i] in a && b[j] in a;
      }
    }
  }

  lemma {:induction false} ModesFactsSame(a: seq<Dict<Case>>, b: seq<Dict<Case>>, modes: seq<string>)
    requires forall mode | mode in modes ::
               SlotFacts(a, (mode, STDIO)) == SlotFacts(b, (mode, STDIO)) &&
               SlotFacts(a, (mode, HTTP)) == SlotFacts(b, (mode, HTTP))
    ensures ModesFacts(a, modes) == ModesFacts(b, modes)
  {
    hide SlotFacts, STDIO, HTTP;
    if modes != [] {
      ModesFactsSame(a, b, modes[1..]);
    }
  }

  lemma SlotsSame(a: seq<Dict<Case>>, b: seq<Dict<Case>>, slot: Slot)
    requires forall c :: c in a <==> c in b
    ensures SlotFacts(a, slot) == SlotFacts(b, slot)
    ensures SlotGood(a, slot) <==> SlotGood(b, slot)
  {
    hide CheckFact, GoodChecks;
  }

  lemma SameCases(a: seq<Dict<Case>>, b: seq<Dict<Case>>)
    requires multiset(a) == multiset(b)
    ensures forall c :: c in a <==> c in b
  {
    SameElements(a, b);
  }

  /** Reordering the cases of a report never changes a verdict. */
  lemma CaseOrderIrrelevant(report: Report, cases: seq<Dict<Case>>, catalog: Catalog)
    requires report.baselineKind == Null && report.cases.List?
    requires multiset(report.cases.items) == multiset(cases)
    ensures Interchangeable(report, report.(cases := List(cases)), catalog)
  {
    var a, b := report.cases.items, report.(cases := List(cases));
    hide Interchangeable, SlotFacts, SlotGood, CasesOk, MODES, HeaderOk, RunsCatalog, CoveredScenarios;
    SameCases(a, cases);
    forall slot: Slot
      ensures SlotFacts(a, slot) == SlotFacts(cases, slot)
      ensures SlotGood(a, slot) <==> SlotGood(cases, slot)
    {
      SlotsSame(a, cases, slot);
    }
    ModesFactsSame(a, cases, MODES);
    if CasesOk(a) { CasesOkReordered(a, cases); }
    if CasesOk(cases) { CasesOkReordered(cases, a); }
    assert HeaderOk(report) == HeaderOk(b) by { HeaderIgnoresCases(report, cases); }
    SameFactsInterchangeable(report, b, catalog);
  }

  lemma HeaderIgnoresCases(report: Report, cases: seq<Dict<Case>>)
    ensures HeaderOk(report) == HeaderOk(report.(cases := List(cases)))
  {}

  /** What the checks of a case amount to, whatever their order and number. */
  function Outcomes(checks: seq<Dict<Check>>, mode: string, transport: string): set<Parsed<Fact>> {
    set c | c in checks :: CheckFact(mode, transport, c)
  }

  /** Check lists that mean the same for every protocol version and transport. */
  ghost predicate SameOutcomes(a: seq<Dict<Check>>, b: seq<Dict<Check>>) {
    (a == [] <==> b == []) &&
    forall mode: string, transport: string :: Outcomes(a, mode, transport) == Outcomes(b, mode, transport)
  }

  lemma SameOutcomesMeet(a: seq<Dict<Check>>, b: seq<Dict<Check>>, mode: string, transport: string, x: Dict<Check>)
    returns (y: Dict<Check>)
    requires SameOutcomes(a, b) && x in a
    ensures y in b && CheckFact(mode, transport, y) == CheckFact(mode, transport, x)
  {
    hide CheckFact;
    assert CheckFact(mode, transport, x) in Outcomes(a, mode, transport);
    assert CheckFact(mode, transport, x) in Outcomes(b, mode, transport);
    y :| y in b && CheckFact(mode, transport, y) == CheckFact(mode, transport, x);
  }

  lemma GoodChecksSame(a: seq<Dict<Check>>, b: seq<Dict<Check>>, mode: string, transport: string)
    requires SameOutcomes(a, b) && GoodChecks(a, mode, transport)
    ensures GoodChecks(b, mode, transport)
  {
    hide CheckFact;
    forall y | y in b ensures CheckFact(mode, transport, y).Good? {
      var x := SameOutcomesMeet(b, a, mode, transport, y);
    }
  }

  /** Replacing the check list of one case by one that means the same keeps every slot. */
  lemma SlotKept(cases: seq<Dict<Case>>, k: nat, checks: seq<Dict<Check>>, slot: Slot)
    requires k < |cases| && cases[k].Dict? && cases[k].value.checks.List?
    requires SameOutcomes(cases[k].value.checks.items, checks)
    ensures var after := cases[k := Dict(cases[k].value.(checks := List(checks)))];
            SlotFacts(cases, slot) <= SlotFacts(after, slot) && (SlotGood(cases, slot) ==> SlotGood(after, slot))
  {
    hide CheckFact, GoodChecks;
    var before, c := cases[k].value.checks.items, Dict(cases[k].value.(checks := List(checks)));
    var after := cases[k := c];
    assert after[k] == c;
    forall f | f in SlotFacts(cases, slot) ensures f in SlotFacts(after, slot) {
      var d, x :| d in cases && Fills(d, slot) && d.value.checks.List? && x in d.value.checks.items
                  && CheckFact(slot.0, slot.1, x).Good? && CheckFact(slot.0, slot.1, x).value == f;
      if d == cases[k] {
        var y := SameOutcomesMeet(before, checks, slot.0, slot.1, x);
        assert c in after && Fills(c, slot);
      } else {
        var i :| 0 <= i < |cases| && cases[i] == d;
        assert after[i] == d && d in after;
      }
    }
    if SlotGood(cases, slot) {
      var d :| d in cases && Fills(d, slot) && d.value.checks.List? && d.value.checks.items != []
               && GoodChecks(d.value.checks.items, slot.0, slot.1);
      if d == cases[k] {
        GoodChecksSame(before, checks, slot.0, slot.1);
        assert c in after && Fills(c, slot);
      } else {
        var i :| 0 <= i < |cases| && cases[i] == d;
        assert after[i] == d && d in after;
      }
    }
  }

  lemma CasesOkKept(cases: seq<Dict<Case>>, k: nat, checks: Listed<Dict<Check>>)
    requires k < |cases| && cases[k].Dict?
    ensures CasesOk(cases) <==> CasesOk(cases[k := Dict(cases[k].value.(checks := checks))])
  {
    var after := cases[k := Dict(cases[k].value.(checks := checks))];
    assert forall i | 0 <= i < |cases| ::
        after[i].Dict? == cases[i].Dict? && InMode(after[i]) == InMode(cases[i]) &&
        (cases[i].Dict? ==> after[i].value.mode == cases[i].value.mode && after[i].value.transport == cases[i].value.transport);
  }

  /** Exchanging one case's checks for others that mean the same never changes a verdict. */
  lemma ChecksInterchangeable(report: Report, k: nat, checks: seq<Dict<Check>>, catalog: Catalog)
    requires report.baselineKind == Null && report.cases.List? && k < |report.cases.items|
    requires report.cases.items[k].Dict? && report.cases.items[k].value.checks.List?
    requires SameOutcomes(report.cases.items[k].value.checks.items, checks)
    ensures var case' := Dict(report.cases.items[k].value.(checks := List(checks)));
            Interchangeable(report, report.(cases := List(report.cases.items[k := case'])), catalog)
  {
    hide Interchangeable, SlotFacts, SlotGood, CasesOk, MODES, HeaderOk, RunsCatalog, CoveredScenarios, SameOutcomes;
    var cases := report.cases.items;
    var before := cases[k].value.checks.items;
    var after := cases[k := Dict(cases[k].value.(checks := List(checks)))];
    var b := report.(cases := List(after));
    SameOutcomesSymmetric(before, checks);
    forall slot: Slot
      ensures SlotFacts(cases, slot) == SlotFacts(after, slot)
      ensures SlotGood(cases, slot) <==> SlotGood(after, slot)
    {
      SlotKept(cases, k, checks, slot);
      SlotKept(after, k, before, slot);
      assert after[k := Dict(after[k].value.(checks := List(before)))] == cases;
    }
    ModesFactsSame(cases, after, MODES);
    CasesOkKept(cases, k, List(checks));
    assert HeaderOk(report) == HeaderOk(b) by { HeaderIgnoresCases(report, after); }
    SameFactsInterchangeable(report, b, catalog);
  }

  lemma SameOutcomesSymmetric(a: seq<Dict<Check>>, b: seq<Dict<Check>>)
    ensures SameOutcomes(a, b) ==> SameOutcomes(b, a)
  {
    hide Outcomes;
  }

  /** Reordered check lists mean the same. */
  lemma ReorderedChecksMeanTheSame(a: seq<Dict<Check>>, b: seq<Dict<Check>>)
    requires multiset(a) == multiset(b)
    ensures SameOutcomes(a, b)
  {
    hide CheckFact;
    SameElements(a, b);
    assert forall c: Dict<Check> :: c in a <==> c in b;
    assert a == [] <==> b == [] by {
      assert a != [] ==> a[0] in b;
      assert b != [] ==> b[0] in a;
    }
  }

  /** Names that differ only in the number after their last `#`, behind a non-empty stem. */
  ghost predicate Renumbered(a: string, b: string) {
    exists stem, m, n {:trigger NumberedName(stem, m), NumberedName(stem, n)} ::
      stem != "" && AllDecimal(m) && AllDecimal(n) && a == NumberedName(stem, m) && b == NumberedName(stem, n)
  }

  function NumberedName(stem: string, number: string): string {
    stem + "#" + number
  }

  lemma HashIsNotDecimal()
    ensures !IsDecimal('#')
  {}

  lemma StableNameOfNumbered(stem: string, number: string)
    requires stem != "" && AllDecimal(number)
    ensures StableName(NumberedName(stem, number)) == stem
  {
    hide IsDecimal, LastHash;
    HashIsNotDecimal();
    var name := NumberedName(stem, number);
    assert forall j | |stem| < j < |name| :: name[j] == number[j - |stem| - 1];
    assert name[|stem|] == '#';
    assert LastHash(name) == |stem|;
    assert name[|stem| + 1..] == number && name[..|stem|] == stem;
  }

  /** Renumbering a check's name leaves its identity and status alone. */
  lemma RenumberedCheckMeansTheSame(c: Check, name: string, mode: string, transport: string)
    requires c.name.Str? && Renumbered(c.name.s, name)
    ensures CheckFact(mode, transport, Dict(c)) == CheckFact(mode, transport, Dict(c.(name := Str(name))))
  {
    hide StableName, AllDecimal, SOURCES;
    var stem, m, n :| stem != "" && AllDecimal(m) && AllDecimal(n) && c.name.s == NumberedName(stem, m) && name == NumberedName(stem, n);
    StableNameOfNumbered(stem, m);
    StableNameOfNumbered(stem, n);
  }

  lemma RenumberedListMeansTheSame(checks: seq<Dict<Check>>, k: nat, name: string)
    requires k < |checks| && checks[k].Dict? && checks[k].value.name.Str?
    requires Renumbered(checks[k].value.name.s, name)
    ensures SameOutcomes(checks, checks[k := Dict(checks[k].value.(name := Str(name)))])
  {
    hide CheckFact, Renumbered;
    var c' := Dict(checks[k].value.(name := Str(name)));
    var after := checks[k := c'];
    forall mode: string, transport: string
      ensures Outcomes(checks, mode, transport) == Outcomes(after, mode, transport)
    {
      RenumberedCheckMeansTheSame(checks[k].value, name, mode, transport);
      forall r ensures r in Outcomes(checks, mode, transport) <==> r in Outcomes(after, mode, transport) {
        if r in Outcomes(checks, mode, transport) {
          var i :| 0 <= i < |checks| && CheckFact(mode, transport, checks[i]) == r;
          assert after[i] in after && CheckFact(mode, transport, after[i]) == r;
        }
        if r in Outcomes(after, mode, transport) {
          var i :| 0 <= i < |after| && CheckFact(mode, transport, after[i]) == r;
          assert checks[i] in checks && CheckFact(mode, transport, checks[i]) == r;
        }
      }
    }
  }
}
