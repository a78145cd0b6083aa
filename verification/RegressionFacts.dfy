/**
 * What the conformance validator accepts, said without its loops: `Accepts` lists the
 * conditions a full report must meet, and `ReportFacts` the statuses it reports.
 */
module RegressionFacts {
  import opened JsonShapes
  import opened RegressionReports

  // ---- dictionaries as sets of facts ------------------------------------------

  predicate Proper(checks: Checks) {
    forall i | i in checks :: checks[i] != {}
  }

  function Facts(checks: Checks): set<Fact> {
    set i, s | i in checks && s in checks[i] :: Fact(i, s)
  }

  lemma AddFactAdds(checks: Checks, f: Fact)
    requires Proper(checks)
    ensures Proper(AddFact(checks, f)) && Facts(AddFact(checks, f)) == Facts(checks) + {f}
  {
    var after := AddFact(checks, f);
    forall g ensures g in Facts(after) <==> g in Facts(checks) + {f} {
      assert g in Facts(after) <==> g.identity in after && g.status in after[g.identity];
      assert g in Facts(checks) <==> g.identity in checks && g.status in checks[g.identity];
    }
  }

  lemma FactIn(checks: Checks, i: Identity, s: Status)
    ensures Fact(i, s) in Facts(checks) <==> i in checks && s in checks[i]
  {}

  /** A dictionary without empty entries is determined by its facts. */
  lemma SameFacts(a: Checks, b: Checks)
    requires Proper(a) && Proper(b) && Facts(a) == Facts(b)
    ensures a == b
  {
    forall i, s ensures (i in a && s in a[i]) <==> (i in b && s in b[i]) {
      FactIn(a, i, s);
      FactIn(b, i, s);
    }
    forall i ensures i in a <==> i in b {
      if i in a { var s :| s in a[i]; assert i in b; }
      if i in b { var s :| s in b[i]; assert i in a; }
    }
    forall i | i in a ensures a[i] == b[i] {
      forall s ensures s in a[i] <==> s in b[i] {}
    }
  }

  // ---- the checks of one case -------------------------------------------------

  predicate GoodChecks(checks: seq<Dict<Check>>, mode: string, transport: string) {
    forall c | c in checks :: CheckFact(mode, transport, c).Good?
  }

  function CheckFacts(checks: seq<Dict<Check>>, mode: string, transport: string): set<Fact> {
    set c | c in checks && CheckFact(mode, transport, c).Good? :: CheckFact(mode, transport, c).value
  }

  /** The scenarios that a set of facts covers for one protocol version. */
  function CoveredScenarios(facts: set<Fact>, mode: string): set<string> {
    set f | f in facts && CountsAsObserved(f.identity, mode) :: f.identity.scenario
  }

  lemma CheckFactsSplit(checks: seq<Dict<Check>>, mode: string, transport: string)
    requires checks != [] && CheckFact(mode, transport, checks[0]).Good?
    ensures CheckFacts(checks, mode, transport)
         == {CheckFact(mode, transport, checks[0]).value} + CheckFacts(checks[1..], mode, transport)
  {
    hide CheckFact;
    assert checks == [checks[0]] + checks[1..];
  }

  lemma CoveredSplit(a: set<Fact>, b: set<Fact>, mode: string)
    ensures CoveredScenarios(a + b, mode) == CoveredScenarios(a, mode) + CoveredScenarios(b, mode)
  {}

  lemma CoveredOne(f: Fact, mode: string)
    ensures CoveredScenarios({f}, mode) == if CountsAsObserved(f.identity, mode) then {f.identity.scenario} else {}
  {
    hide CountsAsObserved;
    if CountsAsObserved(f.identity, mode) {
      assert f in {f};
    }
  }

  /** Reading a case's checks adds its facts, and stays silent exactly when all are good. */
  lemma {:induction false} ChecksRead(
    checks: seq<Dict<Check>>, mode: string, transport: string, r: Reading, observed: set<string>)
    requires Proper(r.checks)
    ensures var out := ReadChecks(checks, mode, transport, r, observed);
            && (out.Some? ==> |r.issues| <= |out.value.0.issues| && Proper(out.value.0.checks))
            && ((out.Some? && |out.value.0.issues| == |r.issues|) <==> GoodChecks(checks, mode, transport))
            && (GoodChecks(checks, mode, transport) ==>
                  && out.value.0.issues == r.issues
                  && Facts(out.value.0.checks) == Facts(r.checks) + CheckFacts(checks, mode, transport)
                  && out.value.1 == observed + CoveredScenarios(CheckFacts(checks, mode, transport), mode))
    decreases |checks|
  {
    hide CheckFact, Proper, Facts, CoveredScenarios, CheckFacts, AddFact;
    if checks == [] {
      NothingCovered(mode, transport);
      assert Facts(r.checks) + {} == Facts(r.checks);
      assert observed + {} == observed;
    } else {
      var first := CheckFact(mode, transport, checks[0]);
      assert GoodChecks(checks, mode, transport) <==> first.Good? && GoodChecks(checks[1..], mode, transport) by {
        assert checks == [checks[0]] + checks[1..];
      }
      match first
      case Raises =>
      case Malformed =>
        ChecksRead(checks[1..], mode, transport, Note(r, [MalformedCheck(transport, mode)]), observed);
      case Good(f) =>
        AddFactAdds(r.checks, f);
        var observed' := if CountsAsObserved(f.identity, mode) then observed + {f.identity.scenario} else observed;
        var r' := r.(checks := AddFact(r.checks, f));
        ChecksRead(checks[1..], mode, transport, r', observed');
        CheckFactsSplit(checks, mode, transport);
        CoveredSplit({f}, CheckFacts(checks[1..], mode, transport), mode);
        CoveredOne(f, mode);
        assert Facts(r.checks) + {f} + CheckFacts(checks[1..], mode, transport)
            == Facts(r.checks) + ({f} + CheckFacts(checks[1..], mode, transport));
    }
  }

  lemma NothingCovered(mode: string, transport: string)
    ensures CheckFacts([], mode, transport) == {} && CoveredScenarios({}, mode) == {}
  {}

  // ---- the cases --------------------------------------------------------------

  predicate InMode(c: Dict<Case>) {
    c.Dict? && c.value.mode.Str? && c.value.mode.s in MODES
  }

  predicate TypedCase(c: Dict<Case>) {
    c.Dict? && (InMode(c) ==> c.value.transport.Str?)
  }

  /** The case fills the slot of the given protocol version and transport. */
  predicate Fills(c: Dict<Case>, slot: Slot) {
    InMode(c) && c.value.mode.s == slot.0 && c.value.transport == Str(slot.1)
  }

  /** No malformed case, and no two cases for one slot. */
  predicate CasesOk(cases: seq<Dict<Case>>) {
    && (forall i | 0 <= i < |cases| :: TypedCase(cases[i]))
    && (forall i, j | 0 <= i < j < |cases| && InMode(cases[i]) && InMode(cases[j]) ::
          cases[i].value.mode != cases[j].value.mode || cases[i].value.transport != cases[j].value.transport)
  }

  /** The table built so far holds exactly the given cases. */
  ghost predicate Tabulates(t: CaseTable, cases: seq<Dict<Case>>) {
    forall slot: Slot ::
      (slot in t.cases <==> exists c | c in cases :: Fills(c, slot)) &&
      (slot in t.cases ==> Dict(t.cases[slot]) in cases && Fills(Dict(t.cases[slot]), slot))
  }

  lemma TabulatesStep(t: CaseTable, done: seq<Dict<Case>>, c: Dict<Case>)
    requires Tabulates(t, done) && TypedCase(c)
    requires forall slot: Slot | Fills(c, slot) :: slot !in t.cases
    ensures var t' := if InMode(c) then t.(cases := t.cases[(c.value.mode.s, c.value.transport.s) := c.value]) else t;
            Tabulates(t', done + [c])
  {
    var t' := if InMode(c) then t.(cases := t.cases[(c.value.mode.s, c.value.transport.s) := c.value]) else t;
    forall slot: Slot
      ensures slot in t'.cases <==> exists d | d in done + [c] :: Fills(d, slot)
      ensures slot in t'.cases ==> Dict(t'.cases[slot]) in done + [c] && Fills(Dict(t'.cases[slot]), slot)
    {
      if Fills(c, slot) {
        assert slot == (c.value.mode.s, c.value.transport.s);
        assert c in done + [c];
      }
    }
  }

  lemma {:induction false} CollectOnlyAdds(cases: seq<Dict<Case>>, t: CaseTable)
    ensures |t.issues| <= |CollectCases(cases, t).issues|
    decreases |cases|
  {
    if cases != [] {
      var c := cases[0];
      if c.NotDict? {
        CollectOnlyAdds(cases[1..], t.(issues := t.issues + [MalformedCase]));
      } else if !InMode(c) {
        CollectOnlyAdds(cases[1..], t);
      } else if !c.value.transport.Str? {
        CollectOnlyAdds(cases[1..], t.(issues := t.issues + [MalformedRequiredCase]));
      } else {
        var slot := (c.value.mode.s, c.value.transport.s);
        CollectOnlyAdds(cases[1..], t.(issues := t.issues + [DuplicateCase(slot.1, slot.0)]));
        CollectOnlyAdds(cases[1..], t.(cases := t.cases[slot := c.value]));
      }
    }
  }

  /** Slots already taken are exactly what makes a further typed case a duplicate. */
  lemma CasesOkStep(t: CaseTable, done: seq<Dict<Case>>, c: Dict<Case>, rest: seq<Dict<Case>>)
    requires Tabulates(t, done)
    ensures CasesOk(done + [c] + rest) ==> TypedCase(c) && forall slot: Slot | Fills(c, slot) :: slot !in t.cases
  {
    var all := done + [c] + rest;
    if CasesOk(all) {
      assert all[|done|] == c;
      forall slot: Slot | Fills(c, slot) ensures slot !in t.cases {
        forall d | d in done ensures !Fills(d, slot) {
          var i :| 0 <= i < |done| && done[i] == d;
          assert all[i] == d;
        }
      }
    }
  }

  /** Collecting cases is silent exactly when the cases are in order, and then tabulates them. */
  lemma {:induction false} CasesCollected(done: seq<Dict<Case>>, rest: seq<Dict<Case>>, t: CaseTable)
    requires Tabulates(t, done) && CasesOk(done)
    ensures var out := CollectCases(rest, t);
            && |t.issues| <= |out.issues|
            && (|out.issues| == |t.issues| <==> CasesOk(done + rest))
            && (CasesOk(done + rest) ==> out.issues == t.issues && Tabulates(out, done + rest))
    decreases |rest|
  {
    hide CasesOk, Tabulates;
    CollectOnlyAdds(rest, t);
    if rest == [] {
      assert done + rest == done;
    } else {
      var c := rest[0];
      assert done + rest == done + [c] + rest[1..];
      CasesOkStep(t, done, c, rest[1..]);
      if c.NotDict? {
        CollectOnlyAdds(rest[1..], t.(issues := t.issues + [MalformedCase]));
      } else if !InMode(c) {
        TabulatesStep(t, done, c);
        CasesOkExtends(t, done, c);
        CasesCollected(done + [c], rest[1..], t);
      } else if !c.value.transport.Str? {
        CollectOnlyAdds(rest[1..], t.(issues := t.issues + [MalformedRequiredCase]));
      } else {
        var slot := (c.value.mode.s, c.value.transport.s);
        assert Fills(c, slot);
        if slot in t.cases {
          CollectOnlyAdds(rest[1..], t.(issues := t.issues + [DuplicateCase(slot.1, slot.0)]));
        } else {
          TabulatesStep(t, done, c);
          CasesOkExtends(t, done, c);
          CasesCollected(done + [c], rest[1..], t.(cases := t.cases[slot := c.value]));
        }
      }
    }
  }

  lemma CasesOkExtends(t: CaseTable, done: seq<Dict<Case>>, c: Dict<Case>)
    requires Tabulates(t, done) && CasesOk(done) && TypedCase(c)
    requires forall slot: Slot | Fills(c, slot) :: slot !in t.cases
    ensures CasesOk(done + [c])
  {
    if InMode(c) {
      var slot := (c.value.mode.s, c.value.transport.s);
      assert Fills(c, slot);
      forall i | 0 <= i < |done| && InMode(done[i])
        ensures done[i].value.mode != c.value.mode || done[i].value.transport != c.value.transport
      {
        assert done[i] in done;
        assert !Fills(done[i], slot);
      }
    }
  }

  // ---- a full report ----------------------------------------------------------

  predicate SlotGood(cases: seq<Dict<Case>>, slot: Slot) {
    exists c | c in cases ::
      Fills(c, slot) && c.value.checks.List? && c.value.checks.items != [] &&
      GoodChecks(c.value.checks.items, slot.0, slot.1)
  }

  function SlotFacts(cases: seq<Dict<Case>>, slot: Slot): set<Fact> {
    set c, k | c in cases && Fills(c, slot) && c.value.checks.List? && k in c.value.checks.items
               && CheckFact(slot.0, slot.1, k).Good? :: CheckFact(slot.0, slot.1, k).value
  }

  predicate ModeGood(cases: seq<Dict<Case>>, selected: map<string, Listed<Scalar>>, mode: string, catalog: Catalog) {
    && RunsCatalog(selected, mode, catalog)
    && SlotGood(cases, (mode, STDIO)) && SlotGood(cases, (mode, HTTP))
    && CoveredScenarios(SlotFacts(cases, (mode, HTTP)), mode) == SetOf(catalog(mode))
  }

  predicate ModesGood(cases: seq<Dict<Case>>, selected: map<string, Listed<Scalar>>, modes: seq<string>, catalog: Catalog) {
    forall mode | mode in modes :: ModeGood(cases, selected, mode, catalog)
  }

  function ModesFacts(cases: seq<Dict<Case>>, modes: seq<string>): set<Fact> {
    if modes == [] then {}
    else SlotFacts(cases, (modes[0], STDIO)) + SlotFacts(cases, (modes[0], HTTP)) + ModesFacts(cases, modes[1..])
  }

  predicate HeaderOk(report: Report) {
    && EqualsInt(report.schemaVersion, SCHEMA_VERSION)
    && report.versionSuccess == Dict(Bool(true))
    && report.modernFeatureEnablement == Bool(true)
    && report.official.Dict?
    && report.official.value.repository == Str(REPOSITORY)
    && report.official.value.gitRef == Str(GIT_REF)
    && report.official.value.authenticationIncluded == Bool(true)
    && report.official.value.scenarios.Dict?
  }

  lemma HeaderIssuesNone(report: Report)
    ensures HeaderIssues(report) == [] <==> HeaderOk(report)
  {
    hide REPOSITORY, GIT_REF;
  }

  /** Everything a full report must satisfy to be read without complaint. */
  predicate Accepts(report: Report, catalog: Catalog) {
    && HeaderOk(report)
    && report.cases.List? && CasesOk(report.cases.items)
    && ModesGood(report.cases.items, Selected(report), MODES, catalog)
  }

  function ReportFacts(report: Report): set<Fact> {
    ModesFacts(CaseList(report), MODES)
  }

  lemma SlotFactsOne(t: CaseTable, cases: seq<Dict<Case>>, slot: Slot)
    requires Tabulates(t, cases) && CasesOk(cases) && slot in t.cases
    ensures var checks := t.cases[slot].checks;
            && SlotFacts(cases, slot) == (if checks.List? then CheckFacts(checks.items, slot.0, slot.1) else {})
            && (SlotGood(cases, slot) <==>
                  checks.List? && checks.items != [] && GoodChecks(checks.items, slot.0, slot.1))
  {
    hide CheckFact, GoodChecks;
    var d := Dict(t.cases[slot]);
    forall c | c in cases && Fills(c, slot) ensures c == d {
      var i :| 0 <= i < |cases| && cases[i] == c;
      var j :| 0 <= j < |cases| && cases[j] == d;
      assert i == j;
    }
    assert d in cases && Fills(d, slot);
  }

  lemma ScenarioIssuesNone(mode: string, expected: set<string>, observed: set<string>)
    ensures ScenarioIssues(mode, expected, observed) == [] <==> observed == expected
  {
    if expected - observed == {} && observed - expected == {} {
      forall x ensures x in observed <==> x in expected {
        assert x in expected ==> x !in expected - observed;
        assert x in observed ==> x !in observed - expected;
      }
    }
  }

  /** Reading one slot is silent exactly when the slot is good, and then adds its facts. */
  lemma SlotRead(t: CaseTable, cases: seq<Dict<Case>>, slot: Slot, catalog: Catalog, r: Reading)
    requires Tabulates(t, cases) && CasesOk(cases) && Proper(r.checks)
    requires slot.1 == STDIO || slot.1 == HTTP
    ensures var out := ReadCase(t.cases, slot.0, slot.1, catalog, r);
            var good := SlotGood(cases, slot) &&
                        (slot.1 == HTTP ==> CoveredScenarios(SlotFacts(cases, slot), slot.0) == SetOf(catalog(slot.0)));
            && (out.Some? ==> |r.issues| <= |out.value.issues| && Proper(out.value.checks))
            && ((out.Some? && |out.value.issues| == |r.issues|) <==> good)
            && (good ==> out.value.issues == r.issues
                         && Facts(out.value.checks) == Facts(r.checks) + SlotFacts(cases, slot))
  {
    hide CheckFact, Proper, Facts, CoveredScenarios, CheckFacts, SlotFacts, SlotGood, ReadChecks,
         GoodChecks, ScenarioIssues, SetOf, STDIO, HTTP;
    if slot in t.cases {
      SlotFactsOne(t, cases, slot);
      var checks := t.cases[slot].checks;
      if checks.List? && checks.items != [] {
        ChecksRead(checks.items, slot.0, slot.1, r, {});
        var out := ReadChecks(checks.items, slot.0, slot.1, r, {});
        if out.Some? {
          ScenarioIssuesNone(slot.0, SetOf(catalog(slot.0)), out.value.1);
          assert {} + CoveredScenarios(CheckFacts(checks.items, slot.0, slot.1), slot.0)
              == CoveredScenarios(CheckFacts(checks.items, slot.0, slot.1), slot.0);
        }
      }
    } else {
      SlotMissing(t, cases, slot);
    }
  }

  lemma SlotMissing(t: CaseTable, cases: seq<Dict<Case>>, slot: Slot)
    requires Tabulates(t, cases) && slot !in t.cases
    ensures !SlotGood(cases, slot)
  {
    assert forall c | c in cases :: !Fills(c, slot);
  }

  lemma {:induction false} ModesRead(
    modes: seq<string>, t: CaseTable, cases: seq<Dict<Case>>, selected: map<string, Listed<Scalar>>,
    catalog: Catalog, r: Reading)
    requires Tabulates(t, cases) && CasesOk(cases) && Proper(r.checks)
    ensures var out := ReadModes(modes, t.cases, selected, catalog, r);
            && (out.Some? ==> |r.issues| <= |out.value.issues| && Proper(out.value.checks))
            && ((out.Some? && |out.value.issues| == |r.issues|) <==> ModesGood(cases, selected, modes, catalog))
            && (ModesGood(cases, selected, modes, catalog) ==>
                  out.value.issues == r.issues && Facts(out.value.checks) == Facts(r.checks) + ModesFacts(cases, modes))
    decreases |modes|
  {
    hide Proper, Facts, CoveredScenarios, SlotFacts, SlotGood, ReadCase, SetOf, STDIO, HTTP, Tabulates, CasesOk, RunsCatalog;
    if modes == [] {
      assert Facts(r.checks) + {} == Facts(r.checks);
    } else {
      var mode := modes[0];
      var r0 := Note(r, When(!RunsCatalog(selected, mode, catalog), IncompleteCatalog(mode)));
      SlotRead(t, cases, (mode, STDIO), catalog, r0);
      assert ModesGood(cases, selected, modes, catalog)
        <==> ModeGood(cases, selected, mode, catalog) && ModesGood(cases, selected, modes[1..], catalog) by {
        assert modes == [mode] + modes[1..];
      }
      var r1 := ReadCase(t.cases, mode, STDIO, catalog, r0);
      if r1.Some? {
        SlotRead(t, cases, (mode, HTTP), catalog, r1.value);
        var r2 := ReadCase(t.cases, mode, HTTP, catalog, r1.value);
        if r2.Some? {
          ModesRead(modes[1..], t, cases, selected, catalog, r2.value);
        }
      }
    }
  }

  /**
   * The validator reads a full report without complaint exactly when `Accepts` holds,
   * and its dictionary then holds exactly the reported facts.
   */
  lemma FullRead(report: Report, catalog: Catalog)
    ensures var out := ReadFull(report, catalog);
            && ((out.Some? && out.value.issues == []) <==> Accepts(report, catalog))
            && (Accepts(report, catalog) ==>
                  Proper(out.value.checks) && Facts(out.value.checks) == ReportFacts(report))
  {
    hide HeaderIssues, HeaderOk, ReadModes, CollectCases, ModesGood, ModesFacts, CasesOk, Facts, Tabulates;
    HeaderIssuesNone(report);
    var issues := HeaderIssues(report) + When(report.cases.NotList?, NoCases);
    var cases, start := CaseList(report), CaseTable(issues, map[]);
    EmptyTable(start);
    CasesCollected([], cases, start);
    assert [] + cases == cases;
    var t := CollectCases(cases, start);
    if CasesOk(cases) {
      ModesRead(MODES, t, cases, Selected(report), catalog, Reading(t.issues, map[]));
      assert Facts(map[]) == {} by { NoFacts(); }
      assert {} + ModesFacts(cases, MODES) == ModesFacts(cases, MODES);
    } else {
      ModesOnlyAdd(MODES, t.cases, Selected(report), catalog, Reading(t.issues, map[]));
    }
  }

  lemma EmptyTable(t: CaseTable)
    requires t.cases == map[]
    ensures Tabulates(t, []) && CasesOk([])
  {}

  lemma NoFacts()
    ensures Facts(map[]) == {}
  {}

  lemma {:induction false} ChecksOnlyAdd(
    checks: seq<Dict<Check>>, mode: string, transport: string, r: Reading, observed: set<string>)
    ensures var out := ReadChecks(checks, mode, transport, r, observed);
            out.Some? ==> |r.issues| <= |out.value.0.issues|
    decreases |checks|
  {
    hide CheckFact, AddFact, CountsAsObserved;
    if checks != [] {
      match CheckFact(mode, transport, checks[0])
      case Raises =>
      case Malformed =>
        ChecksOnlyAdd(checks[1..], mode, transport, Note(r, [MalformedCheck(transport, mode)]), observed);
      case Good(f) =>
        var observed' := if CountsAsObserved(f.identity, mode) then observed + {f.identity.scenario} else observed;
        ChecksOnlyAdd(checks[1..], mode, transport, r.(checks := AddFact(r.checks, f)), observed');
    }
  }

  lemma CaseOnlyAdds(
    cases: map<Slot, Case>, mode: string, transport: string, catalog: Catalog, r: Reading)
    ensures var out := ReadCase(cases, mode, transport, catalog, r);
            out.Some? ==> |r.issues| <= |out.value.issues|
  {
    hide ReadChecks, ScenarioIssues;
    if (mode, transport) in cases && cases[(mode, transport)].checks.List? {
      ChecksOnlyAdd(cases[(mode, transport)].checks.items, mode, transport, r, {});
    }
  }

  lemma {:induction false} ModesOnlyAdd(
    modes: seq<string>, cases: map<Slot, Case>, selected: map<string, Listed<Scalar>>,
    catalog: Catalog, r: Reading)
    ensures var out := ReadModes(modes, cases, selected, catalog, r);
            out.Some? ==> |r.issues| <= |out.value.issues|
    decreases |modes|
  {
    hide ReadCase, STDIO, HTTP;
    if modes != [] {
      var r0 := Note(r, When(!RunsCatalog(selected, modes[0], catalog), IncompleteCatalog(modes[0])));
      CaseOnlyAdds(cases, modes[0], STDIO, catalog, r0);
      var r1 := ReadCase(cases, modes[0], STDIO, catalog, r0);
      if r1.Some? {
        CaseOnlyAdds(cases, modes[0], HTTP, catalog, r1.value);
        var r2 := ReadCase(cases, modes[0], HTTP, catalog, r1.value);
        if r2.Some? {
          ModesOnlyAdd(modes[1..], cases, selected, catalog, r2.value);
        }
      }
    }
  }
}
