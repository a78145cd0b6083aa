/**
 * Reports that the regression gate accepts, one for every scenario catalog: what is
 * proved about acceptable reports is proved about something.
 */
module RegressionWitness {
  import opened JsonShapes
  import opened RegressionReports
  import opened RegressionFacts
  import opened RegressionGate
  import opened RegressionBaseline

  /** A check without failure, passed or skipped; the scenario of a check without one reads as empty. */
  function SampleCheck(source: string, scenario: string, passed: bool): Dict<Check> {
    Dict(Check(Str(source), if scenario == "" then Null else Str(scenario), Str("name"), Str("check"),
               Str(if passed then "PASS" else "SKIP"), Bool(true)))
  }

  function SampleChecks(scenarios: seq<string>, passed: bool): (r: seq<Dict<Check>>)
    ensures |r| == |scenarios| + 1
    ensures r[0] == SampleCheck(SUPPLEMENTAL, "", true)
    ensures forall i | 0 <= i < |scenarios| :: r[i + 1] == SampleCheck(OFFICIAL, scenarios[i], passed)
  {
    [SampleCheck(SUPPLEMENTAL, "", true)]
    + seq(|scenarios|, i requires 0 <= i < |scenarios| => SampleCheck(OFFICIAL, scenarios[i], passed))
  }

  function SampleCase(mode: string, transport: string, catalog: Catalog, passed: bool): Dict<Case> {
    Dict(Case(Str(mode), Str(transport), List(SampleChecks(catalog(mode), passed))))
  }

  function SampleCases(catalog: Catalog, passed: bool): (r: seq<Dict<Case>>)
    ensures |r| == 6
    ensures forall i | 0 <= i < 6 :: r[i] == SampleCase(MODES[i / 2], TRANSPORTS[i % 2], catalog, passed)
  {
    seq(6, i requires 0 <= i < 6 => SampleCase(MODES[i / 2], TRANSPORTS[i % 2], catalog, passed))
  }

  function SampleReport(catalog: Catalog, passed: bool): Report {
    Report(
      Int(SCHEMA_VERSION), Dict(Bool(true)), Bool(true), Bool(true),
      Dict(Official(Str(REPOSITORY), Str(GIT_REF), Bool(true),
                    Dict(map mode | mode in MODES :: List(Strs(catalog(mode)))))),
      Null, NotList, NotList, NotDict, List(SampleCases(catalog, passed)))
  }

  lemma SampleFact(mode: string, transport: string, source: string, scenario: string, passed: bool)
    requires source in SOURCES
    ensures CheckFact(mode, transport, SampleCheck(source, scenario, passed))
         == Good(Fact(Identity(mode, transport, source, scenario, "check"), if passed then Pass else Skip))
  {
  }

  function SampleFacts(mode: string, transport: string, scenarios: seq<string>, passed: bool): set<Fact> {
    {Fact(Identity(mode, transport, SUPPLEMENTAL, "", "check"), Pass)}
    + set s | s in scenarios :: Fact(Identity(mode, transport, OFFICIAL, s, "check"), if passed then Pass else Skip)
  }

  lemma SampleChecksRead(scenarios: seq<string>, mode: string, transport: string, passed: bool)
    ensures GoodChecks(SampleChecks(scenarios, passed), mode, transport)
    ensures CheckFacts(SampleChecks(scenarios, passed), mode, transport) == SampleFacts(mode, transport, scenarios, passed)
  {
    hide CheckFact;
    var checks, facts := SampleChecks(scenarios, passed), SampleFacts(mode, transport, scenarios, passed);
    assert SUPPLEMENTAL in SOURCES && OFFICIAL in SOURCES;
    SampleFact(mode, transport, SUPPLEMENTAL, "", true);
    forall i | 0 <= i < |scenarios|
      ensures CheckFact(mode, transport, checks[i + 1])
           == Good(Fact(Identity(mode, transport, OFFICIAL, scenarios[i], "check"), if passed then Pass else Skip))
    {
      SampleFact(mode, transport, OFFICIAL, scenarios[i], passed);
    }
    forall c | c in checks
      ensures CheckFact(mode, transport, c).Good? && CheckFact(mode, transport, c).value in facts
    {
      var i :| 0 <= i < |checks| && checks[i] == c;
      if i > 0 { assert checks[(i - 1) + 1] == c && scenarios[i - 1] in scenarios; }
    }
    forall f | f in facts ensures f in CheckFacts(checks, mode, transport) {
      if f.identity.source == SUPPLEMENTAL {
        assert checks[0] in checks;
      } else {
        var i :| 0 <= i < |scenarios| && scenarios[i] == f.identity.scenario;
        assert checks[i + 1] in checks;
      }
    }
  }

  lemma SlotsDiffer(i: nat, j: nat)
    requires i < 6 && j < 6 && MODES[i / 2] == MODES[j / 2] && TRANSPORTS[i % 2] == TRANSPORTS[j % 2]
    ensures i == j
  {
    assert |SHIPPING| == |LEGACY| == |MODERN| && SHIPPING[5] != LEGACY[5] && SHIPPING[3] != MODERN[3] && LEGACY[3] != MODERN[3];
    assert |STDIO| != |HTTP|;
  }

  /** Slot number `i` is filled by case number `i` and by no other. */
  lemma SampleFills(catalog: Catalog, passed: bool, i: nat, j: nat)
    requires i < 6 && j < 6
    ensures Fills(SampleCases(catalog, passed)[j], (MODES[i / 2], TRANSPORTS[i % 2])) <==> i == j
  {
    hide SHIPPING, LEGACY, MODERN, STDIO, HTTP;
    var c := SampleCases(catalog, passed)[j];
    assert c.value.mode.s in MODES;
    if Fills(c, (MODES[i / 2], TRANSPORTS[i % 2])) {
      SlotsDiffer(i, j);
    }
  }

  lemma SampleSlot(catalog: Catalog, passed: bool, i: nat)
    requires i < 6
    ensures var cases, mode, transport := SampleCases(catalog, passed), MODES[i / 2], TRANSPORTS[i % 2];
            && SlotGood(cases, (mode, transport))
            && SlotFacts(cases, (mode, transport)) == SampleFacts(mode, transport, catalog(mode), passed)
  {
    var cases, mode, transport := SampleCases(catalog, passed), MODES[i / 2], TRANSPORTS[i % 2];
    hide CheckFact, SampleFacts, Fills, MODES, TRANSPORTS;
    SampleChecksRead(catalog(mode), mode, transport, passed);
    forall j | 0 <= j < 6 ensures Fills(cases[j], (mode, transport)) <==> i == j {
      SampleFills(catalog, passed, i, j);
    }
    assert cases[i] in cases;
    assert forall c | c in cases && Fills(c, (mode, transport)) :: c == cases[i];
    assert SlotFacts(cases, (mode, transport)) == CheckFacts(cases[i].value.checks.items, mode, transport);
  }

  lemma SampleCovers(mode: string, scenarios: seq<string>, passed: bool)
    ensures CoveredScenarios(SampleFacts(mode, HTTP, scenarios, passed), mode) == SetOf(scenarios)
  {
    var facts := SampleFacts(mode, HTTP, scenarios, passed);
    SourcesDiffer();
    forall s | s in scenarios ensures s in CoveredScenarios(facts, mode) {
      var f := Fact(Identity(mode, HTTP, OFFICIAL, s, "check"), if passed then Pass else Skip);
      assert f in facts && CountsAsObserved(f.identity, mode);
    }
  }

  lemma SampleCasesOk(catalog: Catalog, passed: bool)
    ensures CasesOk(SampleCases(catalog, passed))
  {
    var cases := SampleCases(catalog, passed);
    forall i, j | 0 <= i < j < |cases|
      ensures cases[i].value.mode != cases[j].value.mode || cases[i].value.transport != cases[j].value.transport
    {
      if MODES[i / 2] == MODES[j / 2] && TRANSPORTS[i % 2] == TRANSPORTS[j % 2] {
        SlotsDiffer(i, j);
      }
    }
  }

  lemma SampleModeGood(catalog: Catalog, passed: bool, m: nat)
    requires m < 3
    ensures var r := SampleReport(catalog, passed);
            ModeGood(r.cases.items, Selected(r), MODES[m], catalog)
    ensures SlotFacts(SampleCases(catalog, passed), (MODES[m], STDIO)) == SampleFacts(MODES[m], STDIO, catalog(MODES[m]), passed)
    ensures SlotFacts(SampleCases(catalog, passed), (MODES[m], HTTP)) == SampleFacts(MODES[m], HTTP, catalog(MODES[m]), passed)
  {
    hide SlotGood, SlotFacts, CoveredScenarios, SampleFacts, SampleCases;
    SampleSlot(catalog, passed, 2 * m);
    SampleSlot(catalog, passed, 2 * m + 1);
    assert TRANSPORTS[0] == STDIO && TRANSPORTS[1] == HTTP;
    assert 2 * m / 2 == m && (2 * m + 1) / 2 == m && 2 * m % 2 == 0 && (2 * m + 1) % 2 == 1;
    SampleCovers(MODES[m], catalog(MODES[m]), passed);
    assert MODES[m] in MODES;
  }

  lemma {:induction false} FactsFromSlots(cases: seq<Dict<Case>>, modes: seq<string>, f: Fact)
    ensures f in ModesFacts(cases, modes) <==>
              exists m :: 0 <= m < |modes| && (f in SlotFacts(cases, (modes[m], STDIO)) || f in SlotFacts(cases, (modes[m], HTTP)))
  {
    hide SlotFacts;
    if modes != [] {
      FactsFromSlots(cases, modes[1..], f);
      if f in ModesFacts(cases, modes[1..]) {
        var m :| 0 <= m < |modes[1..]|
                 && (f in SlotFacts(cases, (modes[1..][m], STDIO)) || f in SlotFacts(cases, (modes[1..][m], HTTP)));
        assert modes[m + 1] == modes[1..][m];
      }
      if exists m :: 0 < m < |modes| && (f in SlotFacts(cases, (modes[m], STDIO)) || f in SlotFacts(cases, (modes[m], HTTP))) {
        var m :| 0 < m < |modes| && (f in SlotFacts(cases, (modes[m], STDIO)) || f in SlotFacts(cases, (modes[m], HTTP)));
        assert modes[m] == modes[1..][m - 1];
      }
    }
  }

  /** The facts of the sample report: its own checks, none failed. */
  lemma SampleReportFacts(catalog: Catalog, passed: bool, f: Fact)
    ensures f in ReportFacts(SampleReport(catalog, passed)) <==>
              exists m :: 0 <= m < 3 && (f in SampleFacts(MODES[m], STDIO, catalog(MODES[m]), passed)
                                         || f in SampleFacts(MODES[m], HTTP, catalog(MODES[m]), passed))
  {
    hide SlotFacts, SampleFacts, ModesFacts, ModeGood, Selected, SampleCases;
    FactsFromSlots(SampleCases(catalog, passed), MODES, f);
    SampleModeGood(catalog, passed, 0);
    SampleModeGood(catalog, passed, 1);
    SampleModeGood(catalog, passed, 2);
  }

  lemma SampleHeader(catalog: Catalog, passed: bool)
    ensures HeaderOk(SampleReport(catalog, passed))
  {
    hide REPOSITORY, GIT_REF, SampleCases;
  }

  lemma SampleAccepted(catalog: Catalog, passed: bool)
    ensures Accepts(SampleReport(catalog, passed), catalog)
  {
    hide HeaderOk, CasesOk, ModeGood, Selected, SampleCases;
    SampleHeader(catalog, passed);
    SampleCasesOk(catalog, passed);
    var r := SampleReport(catalog, passed);
    forall mode | mode in MODES ensures ModeGood(r.cases.items, Selected(r), mode, catalog) {
      var m :| 0 <= m < |MODES| && MODES[m] == mode;
      SampleModeGood(catalog, passed, m);
    }
  }

  /** What the validator makes of the sample report. */
  lemma SampleRead(catalog: Catalog, passed: bool)
    ensures var r := SampleReport(catalog, passed);
            && Acceptable(r, catalog)
            && Proper(CleanChecks(r, catalog)) && Facts(CleanChecks(r, catalog)) == ReportFacts(r)
  {
    hide Accepts, ReportFacts, Facts, ReadFull;
    var r := SampleReport(catalog, passed);
    SampleAccepted(catalog, passed);
    FullRead(r, catalog);
    var checks := CleanChecks(r, catalog);
    forall i | i in checks ensures Fail !in checks[i] {
      FactIn(checks, i, Fail);
      SampleReportFacts(catalog, passed, Fact(i, Fail));
    }
    assert Failing(checks) == {};
  }

  /** For every catalog there is an acceptable full report in which every required slot is decided. */
  lemma AcceptableReportExists(catalog: Catalog)
    ensures exists r: Report :: r.baselineKind == Null && Acceptable(r, catalog) && EverySlotDecided(CleanChecks(r, catalog), catalog)
  {
    hide Acceptable, ReportFacts, Facts, SampleFacts;
    var r := SampleReport(catalog, true);
    SampleRead(catalog, true);
    AcceptableReadsClean(r, catalog);
    var checks := CleanChecks(r, catalog);
    forall mode | mode in MODES
      ensures HasCase(Decided(checks), mode, STDIO) && HasCase(Decided(checks), mode, HTTP)
      ensures SetOf(catalog(mode)) <= ObservedScenarios(Decided(checks), mode)
    {
      SampleDecides(catalog, mode, checks);
    }
    assert EverySlotDecided(checks, catalog);
  }

  lemma SampleDecides(catalog: Catalog, mode: string, checks: Checks)
    requires mode in MODES && Facts(checks) == ReportFacts(SampleReport(catalog, true))
    ensures HasCase(Decided(checks), mode, STDIO) && HasCase(Decided(checks), mode, HTTP)
    ensures SetOf(catalog(mode)) <= ObservedScenarios(Decided(checks), mode)
  {
    hide ReportFacts, Facts;
    var m :| 0 <= m < 3 && MODES[m] == mode;
    forall i | Fact(i, Pass) in SampleFacts(mode, STDIO, catalog(mode), true) + SampleFacts(mode, HTTP, catalog(mode), true)
      ensures i in Decided(checks)
    {
      SampleReportFacts(catalog, true, Fact(i, Pass));
      FactIn(checks, i, Pass);
    }
    assert Fact(Identity(mode, STDIO, SUPPLEMENTAL, "", "check"), Pass) in SampleFacts(mode, STDIO, catalog(mode), true);
    assert Fact(Identity(mode, HTTP, SUPPLEMENTAL, "", "check"), Pass) in SampleFacts(mode, HTTP, catalog(mode), true);
    assert Identity(mode, STDIO, SUPPLEMENTAL, "", "check") in Decided(checks);
    assert Identity(mode, HTTP, SUPPLEMENTAL, "", "check") in Decided(checks);
    forall s | s in catalog(mode) ensures s in ObservedScenarios(Decided(checks), mode) {
      var i := Identity(mode, HTTP, OFFICIAL, s, "check");
      assert Fact(i, Pass) in SampleFacts(mode, HTTP, catalog(mode), true);
      assert i in Decided(checks) && CountsAsObserved(i, mode);
    }
  }

  lemma SkippedNotDecided(catalog: Catalog, i: Identity, checks: Checks)
    requires i.source == OFFICIAL || i.source == HARNESS
    requires Facts(checks) == ReportFacts(SampleReport(catalog, false))
    ensures i !in Decided(checks)
  {
    hide ReportFacts, Facts, MODES, STDIO, HTTP;
    FactIn(checks, i, Pass);
    FactIn(checks, i, Fail);
    SampleReportFacts(catalog, false, Fact(i, Pass));
    SampleReportFacts(catalog, false, Fact(i, Fail));
    SourcesDiffer();
  }

  /** And one with an undecided slot, as soon as some mode has a scenario to skip. */
  lemma UndecidedReportExists(catalog: Catalog, mode: string)
    requires mode in MODES && catalog(mode) != []
    ensures exists r: Report :: r.baselineKind == Null && Acceptable(r, catalog) && !EverySlotDecided(CleanChecks(r, catalog), catalog)
  {
    hide Acceptable, ReportFacts, Facts, Decided, HasCase;
    var r := SampleReport(catalog, false);
    SampleRead(catalog, false);
    AcceptableReadsClean(r, catalog);
    var checks := CleanChecks(r, catalog);
    forall i | CountsAsObserved(i, mode) ensures i !in Decided(checks) {
      SkippedNotDecided(catalog, i, checks);
    }
    assert ObservedScenarios(Decided(checks), mode) == {};
    assert catalog(mode)[0] in SetOf(catalog(mode));
    assert !EverySlotDecided(checks, catalog);
  }

  lemma SourcesDiffer()
    ensures SUPPLEMENTAL != OFFICIAL && SUPPLEMENTAL != HARNESS
  {
    assert SUPPLEMENTAL[0] != OFFICIAL[0] && SUPPLEMENTAL[0] != HARNESS[0];
  }
}
