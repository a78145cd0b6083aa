/**
 * The compact baseline written by `_compact_regression_baseline`: what the validator
 * makes of it when reading it back, and why the gate cannot tell it from the report.
 */
module RegressionBaseline {
  import opened Wrappers
  import opened Ordering
  import opened JsonShapes
  import opened RegressionReports
  import opened RegressionFacts
  import opened RegressionGate

  // ---- the compactor ----------------------------------------------------------

  function AsRecord(i: Identity): Dict<Record> {
    Dict(Record(Str(i.mode), Str(i.transport), Str(i.source), Str(i.scenario), Str(i.checkId)))
  }

  function AsRecords(identities: seq<Identity>): (r: seq<Dict<Record>>)
    ensures |r| == |identities|
    ensures forall k | 0 <= k < |r| :: r[k] == AsRecord(identities[k])
  {
    seq(|identities|, k requires 0 <= k < |identities| => AsRecord(identities[k]))
  }

  /** The compact report of a validated one. */
  function CompactOf(report: Report, checks: Checks): Report {
    var selected := Selected(report);
    Report(
      Int(SCHEMA_VERSION), Dict(Bool(true)), Bool(true), report.automaticAuthRequired,
      Dict(Official(Str(REPOSITORY), Str(GIT_REF), Bool(true),
                    Dict(map mode | mode in MODES && mode in selected :: selected[mode]))),
      Str(COMPACT_KIND), List(Strs(MODES)), List(Strs(TRANSPORTS)),
      Dict(Buckets(List(AsRecords(Listing(Passing(checks)))), List(AsRecords(Listing(Failing(checks)))))),
      NotList)
  }

  /** Nothing when the compactor raises: TypeError, or ValueError listing what is wrong. */
  function Compact(report: Report, catalog: Catalog): Option<Report> {
    var reading :- Read(report, catalog);
    if reading.issues != [] || !report.automaticAuthRequired.Bool? then None
    else if Shipping(Failing(reading.checks)) != {} then None
    else Some(CompactOf(report, reading.checks))
  }

  lemma CompactsWhenAcceptable(report: Report, catalog: Catalog)
    ensures Compact(report, catalog).Some? <==> Acceptable(report, catalog)
    ensures Acceptable(report, catalog) ==>
              Compact(report, catalog) == Some(CompactOf(report, CleanChecks(report, catalog)))
  {
    hide Read, CompactOf, Shipping, Failing;
  }

  // ---- reading compact buckets ------------------------------------------------

  predicate AllWellFormed(facts: set<Fact>) {
    forall f | f in facts :: WellFormed(f.identity)
  }

  function FactsFor(identities: seq<Identity>, status: Status): set<Fact> {
    set i | i in identities :: Fact(i, status)
  }

  /** Reading only adds issues and facts about well-formed identities. */
  lemma {:induction false} RecordsRead(records: seq<Dict<Record>>, status: Status, seen: set<Identity>, r: Reading)
    requires Proper(r.checks) && AllWellFormed(Facts(r.checks))
    ensures var out := ReadRecords(records, status, seen, r);
            out.Some? ==>
              && |r.issues| <= |out.value.issues|
              && Proper(out.value.checks) && AllWellFormed(Facts(out.value.checks))
    decreases |records|
  {
    hide RecordIdentity, WellFormed, Facts, Proper, AddFact;
    if records != [] {
      match RecordIdentity(records[0])
      case Raises =>
      case Malformed => RecordsRead(records[1..], status, seen, Note(r, [MalformedIdentity(status)]));
      case Good(i) =>
        AddFactAdds(r.checks, Fact(i, status));
        RecordsRead(records[1..], status, seen, Note(r, [DuplicateIdentity(status)]));
        RecordsRead(records[1..], status, seen + {i}, r.(checks := AddFact(r.checks, Fact(i, status))));
    }
  }

  lemma BucketRead(bucket: Listed<Dict<Record>>, status: Status, r: Reading)
    requires Proper(r.checks) && AllWellFormed(Facts(r.checks))
    ensures var out := ReadBucket(bucket, status, r);
            out.Some? ==>
              && |r.issues| <= |out.value.issues|
              && Proper(out.value.checks) && AllWellFormed(Facts(out.value.checks))
  {
    if bucket.List? {
      RecordsRead(bucket.items, status, {}, r);
    }
  }

  lemma RecordReadsBack(i: Identity)
    requires WellFormed(i)
    ensures RecordIdentity(AsRecord(i)) == Good(i)
  {
    hide MODES, TRANSPORTS, SOURCES;
  }

  /** Records written for distinct well-formed identities read back as exactly those. */
  lemma {:induction false} WrittenRecordsRead(
    identities: seq<Identity>, status: Status, seen: set<Identity>, r: Reading)
    requires Sorted(identities, IdentityLess) && Proper(r.checks)
    requires forall i | i in identities :: WellFormed(i) && i !in seen
    ensures var out := ReadRecords(AsRecords(identities), status, seen, r);
            && out.Some? && out.value.issues == r.issues && Proper(out.value.checks)
            && Facts(out.value.checks) == Facts(r.checks) + FactsFor(identities, status)
    decreases |identities|
  {
    hide RecordIdentity, WellFormed, Facts, Proper, AddFact, IdentityLess, AsRecord;
    if identities == [] {
      assert Facts(r.checks) + {} == Facts(r.checks);
    } else {
      var i, rest := identities[0], identities[1..];
      RecordReadsBack(i);
      AddFactAdds(r.checks, Fact(i, status));
      assert AsRecords(identities)[1..] == AsRecords(rest);
      assert identities == [i] + rest;
      assert i !in rest by { IdentityOrder(); }
      WrittenRecordsRead(rest, status, seen + {i}, r.(checks := AddFact(r.checks, Fact(i, status))));
      assert FactsFor(identities, status) == {Fact(i, status)} + FactsFor(rest, status);
    }
  }

  // ---- what any clean reading guarantees --------------------------------------

  predicate Covers(checks: Checks, catalog: Catalog) {
    forall mode | mode in MODES :: ObservedScenarios(checks, mode) == SetOf(catalog(mode))
  }

  predicate RunsAllCatalogs(selected: map<string, Listed<Scalar>>, catalog: Catalog) {
    forall mode | mode in MODES :: RunsCatalog(selected, mode, catalog)
  }

  lemma ObservedIsCovered(checks: Checks, mode: string)
    requires Proper(checks)
    ensures ObservedScenarios(checks, mode) == CoveredScenarios(Facts(checks), mode)
  {
    hide CountsAsObserved;
    forall x ensures x in ObservedScenarios(checks, mode) <==> x in CoveredScenarios(Facts(checks), mode) {
      if x in ObservedScenarios(checks, mode) {
        var i :| i in checks && CountsAsObserved(i, mode) && i.scenario == x;
        var s :| s in checks[i];
        assert Fact(i, s) in Facts(checks);
      }
    }
  }

  lemma SlotFactsBelong(cases: seq<Dict<Case>>, slot: Slot)
    ensures forall f | f in SlotFacts(cases, slot) ::
              f.identity.mode == slot.0 && f.identity.transport == slot.1 &&
              f.identity.source in SOURCES && f.identity.checkId != ""
  {
    hide CheckIdentity, StatusOf;
  }

  /** Facts of a report belong to its modes; what one mode covers over HTTP comes from its own slot. */
  lemma {:induction false} ModesFactsBelong(cases: seq<Dict<Case>>, modes: seq<string>)
    requires forall m | m in modes :: m in MODES
    ensures forall f | f in ModesFacts(cases, modes) :: WellFormed(f.identity) && f.identity.mode in modes
    ensures forall m, f | m in modes && f in ModesFacts(cases, modes) && CountsAsObserved(f.identity, m) ::
              f in SlotFacts(cases, (m, HTTP))
    ensures forall m | m in modes :: SlotFacts(cases, (m, HTTP)) <= ModesFacts(cases, modes)
  {
    hide SlotFacts, MODES, SOURCES;
    if modes != [] {
      assert modes == [modes[0]] + modes[1..];
      assert STDIO != HTTP;
      ModesFactsBelong(cases, modes[1..]);
      SlotFactsBelong(cases, (modes[0], STDIO));
      SlotFactsBelong(cases, (modes[0], HTTP));
    }
  }

  lemma FullReadingCovers(report: Report, catalog: Catalog)
    requires Accepts(report, catalog)
    ensures AllWellFormed(ReportFacts(report)) && RunsAllCatalogs(Selected(report), catalog)
    ensures forall mode | mode in MODES ::
              CoveredScenarios(ReportFacts(report), mode) == SetOf(catalog(mode))
  {
    hide SlotFacts, SlotGood, HeaderOk, CasesOk, RunsCatalog, SetOf, MODES, CountsAsObserved;
    var cases := CaseList(report);
    ModesFactsBelong(cases, MODES);
    forall mode | mode in MODES
      ensures CoveredScenarios(ReportFacts(report), mode) == SetOf(catalog(mode))
    {
      assert ModeGood(cases, Selected(report), mode, catalog);
      var all, own := ReportFacts(report), SlotFacts(cases, (mode, HTTP));
      assert CoveredScenarios(all, mode) == CoveredScenarios(own, mode);
    }
  }

  lemma CompactModeIssuesNone(
    checks: Checks, selected: map<string, Listed<Scalar>>, mode: string, catalog: Catalog)
    ensures CompactModeIssues(checks, selected, mode, catalog) == [] <==>
              && RunsCatalog(selected, mode, catalog)
              && HasCase(checks, mode, STDIO) && HasCase(checks, mode, HTTP)
              && ObservedScenarios(checks, mode) == SetOf(catalog(mode))
  {
    hide RunsCatalog, HasCase, ObservedScenarios, SetOf, ScenarioIssues, STDIO, HTTP;
    ScenarioIssuesNone(mode, SetOf(catalog(mode)), ObservedScenarios(checks, mode));
  }

  lemma {:induction false} CompactModesIssuesNone(
    modes: seq<string>, checks: Checks, selected: map<string, Listed<Scalar>>, catalog: Catalog)
    ensures CompactModesIssues(modes, checks, selected, catalog) == [] <==>
              forall mode | mode in modes :: CompactModeIssues(checks, selected, mode, catalog) == []
  {
    hide CompactModeIssues;
    if modes != [] {
      assert modes == [modes[0]] + modes[1..];
      CompactModesIssuesNone(modes[1..], checks, selected, catalog);
    }
  }

  lemma CompactReadingCovers(report: Report, catalog: Catalog)
    requires var out := ReadCompact(report, catalog); out.Some? && out.value.issues == []
    ensures var checks := ReadCompact(report, catalog).value.checks;
            && Proper(checks) && AllWellFormed(Facts(checks))
            && HeaderOk(report) && RunsAllCatalogs(Selected(report), catalog) && Covers(checks, catalog)
  {
    hide HeaderIssues, HeaderOk, ReadBucket, CompactModesIssues, Facts, WellFormed, MODES, CompactModeIssues,
         TransportsRequired, RunsCatalog, ObservedScenarios, SetOf, HasCase, COMPACT_KIND;
    HeaderIssuesNone(report);
    var start := Reading(HeaderIssues(report), map[]);
    assert Facts(map[]) == {} by { NoFacts(); }
    var transports := TransportsRequired(report.transports);
    var r := Note(start, When(report.requiredModes != List(Strs(MODES)), WrongModes)
                         + When(!transports.value, WrongTransports));
    BucketRead(report.checks.value.passing, Pass, r);
    var passing := ReadBucket(report.checks.value.passing, Pass, r).value;
    BucketRead(report.checks.value.failing, Fail, passing);
    var both := ReadBucket(report.checks.value.failing, Fail, passing).value;
    CompactModesIssuesNone(MODES, both.checks, Selected(report), catalog);
    forall mode | mode in MODES
      ensures RunsCatalog(Selected(report), mode, catalog) && ObservedScenarios(both.checks, mode) == SetOf(catalog(mode))
    {
      CompactModeIssuesNone(both.checks, Selected(report), mode, catalog);
    }
  }

  /** Whatever its format, a report read without complaint is complete and well formed. */
  lemma CleanReadingCovers(report: Report, catalog: Catalog)
    requires ReadsClean(report, catalog)
    ensures var checks := CleanChecks(report, catalog);
            && Proper(checks) && AllWellFormed(Facts(checks))
            && RunsAllCatalogs(Selected(report), catalog) && Covers(checks, catalog)
  {
    hide ReadFull, ReadCompact, Facts, Proper, AllWellFormed, RunsAllCatalogs, ObservedScenarios, CoveredScenarios, Accepts, ReportFacts, MODES;
    if report.baselineKind == Null {
      FullRead(report, catalog);
      FullReadingCovers(report, catalog);
      var checks := CleanChecks(report, catalog);
      forall mode | mode in MODES ensures ObservedScenarios(checks, mode) == SetOf(catalog(mode)) {
        ObservedIsCovered(checks, mode);
      }
    } else {
      CompactReadingCovers(report, catalog);
    }
  }

  // ---- reading a compact baseline back ----------------------------------------

  /** The dictionary without skipped statuses, and without identities that have no other. */
  function Decided(checks: Checks): Checks {
    map i | i in checks && (Pass in checks[i] || Fail in checks[i]) :: checks[i] - {Skip}
  }

  /** Every required transport and scenario has a check that was not skipped. */
  predicate EverySlotDecided(checks: Checks, catalog: Catalog) {
    forall mode | mode in MODES ::
      && HasCase(Decided(checks), mode, STDIO) && HasCase(Decided(checks), mode, HTTP)
      && SetOf(catalog(mode)) <= ObservedScenarios(Decided(checks), mode)
  }

  lemma DecidedFacts(checks: Checks)
    ensures Proper(Decided(checks))
    ensures Facts(Decided(checks))
         == FactsFor(Listing(Passing(checks)), Pass) + FactsFor(Listing(Failing(checks)), Fail)
  {
    hide Listing;
    var d := Decided(checks);
    forall i | i in d ensures d[i] != {} {
      assert Pass in d[i] || Fail in d[i];
    }
    forall f ensures f in Facts(d) <==>
                     f in FactsFor(Listing(Passing(checks)), Pass) + FactsFor(Listing(Failing(checks)), Fail)
    {
      FactIn(d, f.identity, f.status);
      assert f.status == Pass || f.status == Fail || f.status == Skip;
    }
  }

  lemma DecidedObservesLess(checks: Checks, mode: string)
    ensures ObservedScenarios(Decided(checks), mode) <= ObservedScenarios(checks, mode)
  {
    hide CountsAsObserved;
  }

  lemma CompactHeader(report: Report, checks: Checks, catalog: Catalog)
    requires RunsAllCatalogs(Selected(report), catalog)
    ensures var c := CompactOf(report, checks);
            && HeaderIssues(c) == [] && c.baselineKind == Str(COMPACT_KIND)
            && c.requiredModes == List(Strs(MODES)) && RunsAllCatalogs(Selected(c), catalog)
  {
    hide MODES, REPOSITORY, GIT_REF, COMPACT_KIND, TRANSPORTS, AsRecords, Listing, Strs;
    HeaderIssuesNone(CompactOf(report, checks));
  }

  lemma CompactTransports()
    ensures TransportsRequired(List(Strs(TRANSPORTS))) == Some(true)
  {
    hide STDIO, HTTP;
    var items := Strs(TRANSPORTS);
    assert items == [Str(STDIO), Str(HTTP)];
    assert (set t | t in items) == {Str(STDIO), Str(HTTP)};
  }

  lemma BucketsReadBack(checks: Checks)
    requires Proper(checks) && AllWellFormed(Facts(checks))
    ensures var passing := ReadBucket(List(AsRecords(Listing(Passing(checks)))), Pass, Reading([], map[]));
            && passing.Some?
            && ReadBucket(List(AsRecords(Listing(Failing(checks)))), Fail, passing.value)
               == Some(Reading([], Decided(checks)))
  {
    hide AsRecords, Listing, ReadRecords, Facts, WellFormed, Decided, Proper, FactsFor;
    var p, f := Listing(Passing(checks)), Listing(Failing(checks));
    forall i | i in p || i in f ensures WellFormed(i) {
      FactIn(checks, i, Pass);
      FactIn(checks, i, Fail);
    }
    assert Facts(map[]) == {} && Proper(map[]) by { NoFacts(); NothingIsProper(); }
    WrittenRecordsRead(p, Pass, {}, Reading([], map[]));
    var passing := ReadRecords(AsRecords(p), Pass, {}, Reading([], map[])).value;
    WrittenRecordsRead(f, Fail, {}, passing);
    var both := ReadRecords(AsRecords(f), Fail, {}, passing).value;
    DecidedFacts(checks);
    assert Facts(both.checks) == {} + FactsFor(p, Pass) + FactsFor(f, Fail);
    SameFacts(both.checks, Decided(checks));
  }

  lemma NothingIsProper()
    ensures Proper(map[])
  {}

  /**
   * Reading the compact baseline back keeps exactly the PASS and FAIL facts, and
   * raises no complaint exactly when every required slot has a decided check.
   */
  lemma CompactReadsBack(report: Report, catalog: Catalog)
    requires Acceptable(report, catalog)
    ensures var checks := CleanChecks(report, catalog);
            var back := Read(CompactOf(report, checks), catalog);
            && back.Some? && back.value.checks == Decided(checks)
            && (back.value.issues == [] <==> EverySlotDecided(checks, catalog))
  {
    hide Read, ReadFull, HeaderIssues, ReadBucket, CompactModesIssues, Decided, MODES, Selected, RunsCatalog,
         HasCase, ObservedScenarios, SetOf, TransportsRequired, Listing, AsRecords, COMPACT_KIND, Proper, AllWellFormed, TRANSPORTS;
    var checks := CleanChecks(report, catalog);
    CleanReadingCovers(report, catalog);
    var c := CompactOf(report, checks);
    CompactHeader(report, checks, catalog);
    CompactTransports();
    BucketsReadBack(checks);
    CompactFieldsOf(report, checks);
    ReadCompactOf(c, checks, catalog);
    CompactModesIssuesNone(MODES, Decided(checks), Selected(c), catalog);
    forall mode | mode in MODES
      ensures CompactModeIssues(Decided(checks), Selected(c), mode, catalog) == [] <==>
                HasCase(Decided(checks), mode, STDIO) && HasCase(Decided(checks), mode, HTTP) &&
                SetOf(catalog(mode)) <= ObservedScenarios(Decided(checks), mode)
    {
      CompactModeIssuesNone(Decided(checks), Selected(c), mode, catalog);
      DecidedObservesLess(checks, mode);
    }
  }

  lemma CompactFieldsOf(report: Report, checks: Checks)
    ensures var c := CompactOf(report, checks);
            && c.transports == List(Strs(TRANSPORTS)) && c.checks.Dict?
            && c.checks.value.passing == List(AsRecords(Listing(Passing(checks))))
            && c.checks.value.failing == List(AsRecords(Listing(Failing(checks))))
            && c.automaticAuthRequired == report.automaticAuthRequired
  {}

  lemma ReadCompactOf(c: Report, checks: Checks, catalog: Catalog)
    requires HeaderIssues(c) == [] && c.baselineKind == Str(COMPACT_KIND)
    requires c.requiredModes == List(Strs(MODES)) && TransportsRequired(c.transports) == Some(true)
    requires c.checks.Dict?
    requires var passing := ReadBucket(c.checks.value.passing, Pass, Reading([], map[]));
             passing.Some? && ReadBucket(c.checks.value.failing, Fail, passing.value)
                              == Some(Reading([], Decided(checks)))
    ensures Read(c, catalog)
         == Some(Reading(CompactModesIssues(MODES, Decided(checks), Selected(c), catalog), Decided(checks)))
  {
    hide HeaderIssues, ReadBucket, CompactModesIssues, Decided, MODES, Selected, TransportsRequired, Strs, COMPACT_KIND;
    assert Note(Reading([], map[]), [] + []) == Reading([], map[]);
    assert [] + CompactModesIssues(MODES, Decided(checks), Selected(c), catalog)
        == CompactModesIssues(MODES, Decided(checks), Selected(c), catalog);
  }

  // ---- the gate cannot tell them apart ----------------------------------------

  lemma DecidedKeeps(checks: Checks)
    ensures Passing(Decided(checks)) == Passing(checks) && Failing(Decided(checks)) == Failing(checks)
  {}

  lemma EvaluateDecides(b: Checks, c: Reading, bAuth: Scalar, cAuth: Scalar)
    ensures Evaluate(Reading([], Decided(b)), c, bAuth, cAuth) == Evaluate(Reading([], b), c, bAuth, cAuth)
  {
    hide Holding, Decided, Listing, ShippingIssues, BaselineShippingIssues, AuthIssues;
    DecidedKeeps(b);
  }

  /**
   * When every required slot has a decided check, the gate gives every candidate the
   * same verdict and the same lists against the compact baseline as against the report.
   */
  lemma CompactGatesAlike(report: Report, candidate: Report, catalog: Catalog)
    requires Acceptable(report, catalog) && EverySlotDecided(CleanChecks(report, catalog), catalog)
    ensures Gate(candidate, CompactOf(report, CleanChecks(report, catalog)), catalog)
         == Gate(candidate, report, catalog)
  {
    hide Read, Evaluate, Decided, EverySlotDecided, CompactOf;
    var checks := CleanChecks(report, catalog);
    var c := CompactOf(report, checks);
    CompactReadsBack(report, catalog);
    CompactFieldsOf(report, checks);
    var candidateReading := Read(candidate, catalog);
    if candidateReading.Some? {
      EvaluateDecides(checks, candidateReading.value, report.automaticAuthRequired, candidate.automaticAuthRequired);
    }
  }

  /** Compacting a compact baseline changes nothing. */
  lemma CompactIdempotent(report: Report, catalog: Catalog)
    requires Acceptable(report, catalog) && EverySlotDecided(CleanChecks(report, catalog), catalog)
    ensures var c := CompactOf(report, CleanChecks(report, catalog));
            Compact(c, catalog) == Some(c)
  {
    hide Read, Decided, EverySlotDecided, Shipping, Holding, Listing, MODES, Strs;
    var checks := CleanChecks(report, catalog);
    var c := CompactOf(report, checks);
    CompactReadsBack(report, catalog);
    DecidedKeeps(checks);
    assert Selected(CompactOf(c, Decided(checks))) == Selected(c);
    assert CompactOf(c, Decided(checks)) == c;
  }

  /** Otherwise the compact baseline is useless: no candidate at all passes against it. */
  lemma SkippedSlotBlocksEveryCandidate(report: Report, candidate: Report, catalog: Catalog)
    requires Acceptable(report, catalog) && !EverySlotDecided(CleanChecks(report, catalog), catalog)
    ensures !Passes(candidate, CompactOf(report, CleanChecks(report, catalog)), catalog)
  {
    hide Read, Passes, Decided, EverySlotDecided, CompactOf;
    CompactReadsBack(report, catalog);
    PassMeans(candidate, CompactOf(report, CleanChecks(report, catalog)), catalog);
  }
}
