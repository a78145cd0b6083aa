/** What the conformance validator says about any compact baseline, message by message, and when it raises. */
module CompactMessages {
  import opened Wrappers
  import opened JsonShapes
  import opened RegressionReports
  import opened RegressionFacts
  import opened RegressionCompact
  import opened RegressionMessages

  // ---- one bucket -------------------------------------------------------------

  /** The record has a list or a dictionary where a known transport or source is looked up. */
  predicate RecordRaises(record: Dict<Record>) {
    && record.Dict? && record.value.mode.Str? && record.value.mode.s in MODES
    && (|| record.value.transport.Container?
        || (record.value.transport in [Str("stdio"), Str("official-http")] && record.value.source.Container?))
  }

  lemma RaisingRecords(record: Dict<Record>)
    ensures RecordIdentity(record).Raises? <==> RecordRaises(record)
  {
    hide MODES, SOURCES;
  }

  ghost predicate RecordMalformed(record: Dict<Record>) {
    !RecordRaises(record) && !SpellsOne(record)
  }

  lemma MalformedRecords(record: Dict<Record>)
    ensures RecordIdentity(record).Malformed? <==> RecordMalformed(record)
    ensures RecordIdentity(record).Good? <==> exists i :: Spells(record, i)
  {
    hide RecordIdentity, Spells, RecordRaises;
    RaisingRecords(record);
    forall i ensures RecordIdentity(record) == Good(i) <==> Spells(record, i) {
      RecordMeans(record, i);
    }
    if RecordIdentity(record).Good? {
      assert Spells(record, RecordIdentity(record).value);
    }
  }

  /** Two of the records spell the same identity, or one spells an identity seen before. */
  ghost predicate Repeated(records: seq<Dict<Record>>, seen: set<Identity>) {
    || (exists i :: i in seen && Spelled(records, i))
    || (exists j, k :: 0 <= j < k < |records| && records[j] == records[k] && SpellsOne(records[j]))
  }

  lemma RepeatedCons(records: seq<Dict<Record>>, i: Identity, seen: set<Identity>)
    requires records != [] && Spells(records[0], i)
    ensures Repeated(records, seen) <==> i in seen || Repeated(records[1..], seen + {i})
  {
    hide Spelled;
    var rest := records[1..];
    OneIdentity(records[0], i);
    forall x ensures Spelled(records, x) <==> x == i || Spelled(rest, x) {
      SpelledCons(records, x);
    }
    SpelledAgain(records, i);
    if j, k :| 0 <= j < k < |records| && records[j] == records[k] && SpellsOne(records[j]) {
      if j == 0 {
        assert Spelled(rest, i);
      } else {
        assert rest[j - 1] == rest[k - 1] && SpellsOne(rest[j - 1]);
      }
    }
    if j, k :| 0 <= j < k < |rest| && rest[j] == rest[k] && SpellsOne(rest[j]) {
      assert records[j + 1] == records[k + 1] && SpellsOne(records[j + 1]);
    }
    assert Spelled(rest, i) ==> Repeated(records, seen);
  }

  lemma OneIdentity(record: Dict<Record>, i: Identity)
    requires Spells(record, i)
    ensures forall x :: Spells(record, x) <==> x == i
    ensures SpellsOne(record)
  {
    hide WellFormed;
  }

  lemma SpelledAgain(records: seq<Dict<Record>>, i: Identity)
    requires records != [] && Spells(records[0], i)
    ensures Spelled(records[1..], i) <==> exists k :: 0 < k < |records| && records[0] == records[k]
  {
    hide WellFormed;
    if k :| 0 <= k < |records[1..]| && Spells(records[1..][k], i) {
      assert records[k + 1] == records[1..][k];
    }
    if k :| 0 < k < |records| && records[0] == records[k] {
      assert records[1..][k - 1] == records[k];
    }
  }

  lemma RepeatedSkip(records: seq<Dict<Record>>, seen: set<Identity>)
    requires records != [] && !SpellsOne(records[0])
    ensures Repeated(records, seen) <==> Repeated(records[1..], seen)
  {
    hide Spelled, Spells, SpellsOne;
    var rest := records[1..];
    forall x ensures Spelled(records, x) <==> Spelled(rest, x) {
      NotSpelled(records[0], x);
      SpelledCons(records, x);
    }
    if j, k :| 0 <= j < k < |records| && records[j] == records[k] && SpellsOne(records[j]) {
      assert rest[j - 1] == rest[k - 1] && SpellsOne(rest[j - 1]);
    }
    if j, k :| 0 <= j < k < |rest| && rest[j] == rest[k] && SpellsOne(rest[j]) {
      assert records[j + 1] == records[k + 1] && SpellsOne(records[j + 1]);
    }
  }

  lemma NotSpelled(record: Dict<Record>, i: Identity)
    requires !SpellsOne(record)
    ensures !Spells(record, i)
  {
  }

  predicate AnyRaises(records: seq<Dict<Record>>) {
    exists k :: 0 <= k < |records| && RecordRaises(records[k])
  }

  ghost predicate AnyMalformed(records: seq<Dict<Record>>) {
    exists k :: 0 <= k < |records| && RecordMalformed(records[k])
  }

  lemma AnyCons(records: seq<Dict<Record>>)
    requires records != []
    ensures AnyRaises(records) <==> RecordRaises(records[0]) || AnyRaises(records[1..])
    ensures AnyMalformed(records) <==> RecordMalformed(records[0]) || AnyMalformed(records[1..])
  {
    hide RecordRaises, RecordMalformed;
    var rest := records[1..];
    assert forall k | 0 < k < |records| :: records[k] == rest[k - 1];
    assert forall k | 0 <= k < |rest| :: rest[k] == records[k + 1];
  }

  ghost predicate RecordComplaint(records: seq<Dict<Record>>, status: Status, seen: set<Identity>, issue: Issue) {
    || (issue == MalformedIdentity(status) && AnyMalformed(records))
    || (issue == DuplicateIdentity(status) && Repeated(records, seen))
  }

  lemma FirstMalformed(records: seq<Dict<Record>>, status: Status, seen: set<Identity>, issue: Issue)
    requires records != [] && RecordMalformed(records[0])
    ensures RecordComplaint(records, status, seen, issue) <==>
              issue == MalformedIdentity(status) || RecordComplaint(records[1..], status, seen, issue)
  {
    AnyCons(records);
    RepeatedSkip(records, seen);
    hide AnyMalformed, Repeated;
  }

  lemma FirstGood(records: seq<Dict<Record>>, status: Status, seen: set<Identity>, issue: Issue, x: Identity)
    requires records != [] && Spells(records[0], x)
    ensures RecordComplaint(records, status, seen, issue) <==>
              (issue == DuplicateIdentity(status) && x in seen) || RecordComplaint(records[1..], status, seen + {x}, issue)
  {
    OneIdentity(records[0], x);
    hide AnyMalformed, Repeated, Spells, SpellsOne;
    AnyCons(records);
    RepeatedCons(records, x, seen);
  }

  lemma {:induction false} RecordsReported(
    records: seq<Dict<Record>>, status: Status, seen: set<Identity>, r: Reading, issue: Issue, i: Identity)
    requires forall x | x in seen :: x in r.checks
    ensures var out := ReadRecords(records, status, seen, r);
            && (out.None? <==> AnyRaises(records))
            && (out.Some? ==>
                  && (issue in out.value.issues <==> issue in r.issues || RecordComplaint(records, status, seen, issue))
                  && (i in out.value.checks <==> i in r.checks || Spelled(records, i)))
    decreases |records|
  {
    hide RecordIdentity, Spells, AnyRaises, RecordRaises, RecordMalformed, SpellsOne, Spelled, RecordComplaint;
    if records == [] {
      NoRecords(status, seen, issue, i);
    } else {
      var rest := records[1..];
      AnyCons(records);
      RaisingRecords(records[0]);
      MalformedRecords(records[0]);
      SpelledCons(records, i);
      match RecordIdentity(records[0])
      case Raises =>
      case Malformed =>
        FirstMalformed(records, status, seen, issue);
        MalformedSpells(records[0], i);
        RecordsReported(rest, status, seen, Note(r, [MalformedIdentity(status)]), issue, i);
      case Good(x) =>
        RecordMeans(records[0], x);
        OneIdentity(records[0], x);
        FirstGood(records, status, seen, issue, x);
        if x in seen {
          SeenStays(seen, x);
          RecordsReported(rest, status, seen, Note(r, [DuplicateIdentity(status)]), issue, i);
        } else {
          RecordsReported(rest, status, seen + {x}, r.(checks := AddFact(r.checks, Fact(x, status))), issue, i);
        }
    }
  }

  lemma SeenStays(seen: set<Identity>, x: Identity)
    requires x in seen
    ensures seen + {x} == seen
  {
  }

  lemma MalformedSpells(record: Dict<Record>, i: Identity)
    requires RecordMalformed(record)
    ensures !Spells(record, i)
  {
    hide Spells;
    NotSpelled(record, i);
  }

  lemma NoRecords(status: Status, seen: set<Identity>, issue: Issue, i: Identity)
    ensures !AnyRaises([]) && !RecordComplaint([], status, seen, issue) && !Spelled([], i)
  {
  }

  // ---- the whole baseline -----------------------------------------------------

  ghost predicate BucketComplaint(bucket: Listed<Dict<Record>>, status: Status, issue: Issue) {
    if bucket.NotList? then issue == NoBucket(status) else RecordComplaint(bucket.items, status, {}, issue)
  }

  predicate BucketRaises(bucket: Listed<Dict<Record>>) {
    bucket.List? && AnyRaises(bucket.items)
  }

  ghost predicate ListedIn(bucket: Listed<Dict<Record>>, i: Identity) {
    bucket.List? && Spelled(bucket.items, i)
  }

  lemma BucketReported(bucket: Listed<Dict<Record>>, status: Status, r: Reading, issue: Issue, i: Identity)
    ensures var out := ReadBucket(bucket, status, r);
            && (out.None? <==> BucketRaises(bucket))
            && (out.Some? ==>
                  && (issue in out.value.issues <==> issue in r.issues || BucketComplaint(bucket, status, issue))
                  && (i in out.value.checks <==> i in r.checks || ListedIn(bucket, i)))
  {
    hide ReadRecords, RecordComplaint, AnyRaises, Spelled;
    if bucket.List? {
      RecordsReported(bucket.items, status, {}, r, issue, i);
    }
  }

  /** The scenarios observed are those of the listed official and harness identities over HTTP. */
  ghost predicate ObservesExactly(checks: Checks, mode: string, observed: set<string>) {
    forall scenario :: scenario in observed <==>
      exists i :: i in checks && i.mode == mode && i.transport == "official-http"
                  && i.source in ["official", "harness"] && i.scenario == scenario
  }

  ghost predicate CompactModeComplaint(
    checks: Checks, selected: map<string, Listed<Scalar>>, mode: string, catalog: Catalog, issue: Issue)
  {
    || (issue == IncompleteCatalog(mode) && !RunsCatalog(selected, mode, catalog))
    || (exists transport | transport in ["stdio", "official-http"] ::
          issue == MissingCase(transport, mode) && forall i | i in checks :: !(i.mode == mode && i.transport == transport))
    || (exists observed :: ObservesExactly(checks, mode, observed)
                           && ScenarioComplaint(mode, SetOf(catalog(mode)), observed, issue))
  }

  lemma ObservedExactly(checks: Checks, mode: string, observed: set<string>)
    ensures ObservesExactly(checks, mode, observed) <==> observed == ObservedScenarios(checks, mode)
  {
    var all := ObservedScenarios(checks, mode);
    forall scenario
      ensures scenario in all <==>
                exists i :: i in checks && i.mode == mode && i.transport == "official-http"
                            && i.source in ["official", "harness"] && i.scenario == scenario
    {
      if i :| i in checks && i.mode == mode && i.transport == "official-http" && i.source in ["official", "harness"] && i.scenario == scenario {
        assert CountsAsObserved(i, mode);
      }
    }
    hide ObservedScenarios;
    if ObservesExactly(checks, mode, observed) {
      forall scenario ensures scenario in all <==> scenario in observed { }
    }
  }

  lemma CompactModeMessages(
    checks: Checks, selected: map<string, Listed<Scalar>>, mode: string, catalog: Catalog, issue: Issue)
    ensures issue in CompactModeIssues(checks, selected, mode, catalog) <==>
              CompactModeComplaint(checks, selected, mode, catalog, issue)
  {
    hide When, RunsCatalog, ScenarioIssues, ScenarioComplaint, ObservesExactly, ObservedScenarios, SetOf;
    WhenIn(!RunsCatalog(selected, mode, catalog), IncompleteCatalog(mode), issue);
    WhenIn(!HasCase(checks, mode, STDIO), MissingCase(STDIO, mode), issue);
    WhenIn(!HasCase(checks, mode, HTTP), MissingCase(HTTP, mode), issue);
    ScenarioMessages(mode, SetOf(catalog(mode)), ObservedScenarios(checks, mode), issue);
    forall observed ensures ObservesExactly(checks, mode, observed) <==> observed == ObservedScenarios(checks, mode) {
      ObservedExactly(checks, mode, observed);
    }
    assert "stdio" in ["stdio", "official-http"] && "official-http" in ["stdio", "official-http"];
  }

  lemma {:induction false} CompactModesMessages(
    modes: seq<string>, checks: Checks, selected: map<string, Listed<Scalar>>, catalog: Catalog, issue: Issue)
    ensures issue in CompactModesIssues(modes, checks, selected, catalog) <==>
              exists mode | mode in modes :: CompactModeComplaint(checks, selected, mode, catalog, issue)
  {
    hide CompactModeIssues, CompactModeComplaint;
    if modes != [] {
      assert modes == [modes[0]] + modes[1..];
      CompactModeMessages(checks, selected, modes[0], catalog, issue);
      CompactModesMessages(modes[1..], checks, selected, catalog, issue);
    }
  }

  /** The two transports are looked up in a set, which raises for a list or a dictionary. */
  predicate TransportsRaise(transports: Listed<Scalar>) {
    transports.List? && |transports.items| == 2 && Container in transports.items
  }

  predicate IsBaseline(report: Report) {
    report.baselineKind == Str("mcp-conformance-regression-baseline-v1")
  }

  lemma BaselineKind(report: Report)
    ensures IsBaseline(report) <==> report.baselineKind == Str(COMPACT_KIND)
  {
  }

  predicate CompactRaises(report: Report) {
    && IsBaseline(report)
    && (|| TransportsRaise(report.transports)
        || (report.checks.Dict? && (BucketRaises(report.checks.value.passing) || BucketRaises(report.checks.value.failing))))
  }

  ghost predicate CompactComplaint(report: Report, checks: Checks, catalog: Catalog, issue: Issue) {
    if !IsBaseline(report) then issue == UnsupportedBaseline || HeaderComplaint(report, issue)
    else
      || StartComplaint(report, issue)
      || (if report.checks.NotDict? then issue == NoIdentities else BucketsComplaint(report, checks, catalog, issue))
  }

  predicate BucketsRead(report: Report) {
    IsBaseline(report) && report.checks.Dict?
  }

  /** What the two buckets add, and what the modes then say. */
  ghost predicate BucketsComplaint(report: Report, checks: Checks, catalog: Catalog, issue: Issue)
    requires report.checks.Dict?
  {
    || BucketComplaint(report.checks.value.passing, Pass, issue)
    || BucketComplaint(report.checks.value.failing, Fail, issue)
    || exists mode | mode in MODES :: CompactModeComplaint(checks, Selected(report), mode, catalog, issue)
  }

  function ReadBuckets(report: Report, catalog: Catalog, r: Reading): Option<Reading>
    requires report.checks.Dict?
  {
    var passing :- ReadBucket(report.checks.value.passing, Pass, r);
    var both :- ReadBucket(report.checks.value.failing, Fail, passing);
    Some(Note(both, CompactModesIssues(MODES, both.checks, Selected(report), catalog)))
  }

  lemma BucketsReported(report: Report, catalog: Catalog, r: Reading, issue: Issue, i: Identity)
    requires report.checks.Dict? && r.checks == map[]
    ensures var out, buckets := ReadBuckets(report, catalog, r), report.checks.value;
            && (out.None? <==> BucketRaises(buckets.passing) || BucketRaises(buckets.failing))
            && (out.Some? ==>
                  && (issue in out.value.issues <==> issue in r.issues || BucketsComplaint(report, out.value.checks, catalog, issue))
                  && (i in out.value.checks <==> ListedIn(buckets.passing, i) || ListedIn(buckets.failing, i)))
  {
    hide ReadBucket, CompactModesIssues, CompactModeComplaint, BucketComplaint, BucketRaises, ListedIn, MODES, Selected;
    BucketReported(report.checks.value.passing, Pass, r, issue, i);
    var passing := ReadBucket(report.checks.value.passing, Pass, r);
    if passing.Some? {
      BucketReported(report.checks.value.failing, Fail, passing.value, issue, i);
      var both := ReadBucket(report.checks.value.failing, Fail, passing.value);
      if both.Some? {
        CompactModesMessages(MODES, both.value.checks, Selected(report), catalog, issue);
      }
    }
  }

  predicate StartComplaint(report: Report, issue: Issue) {
    || HeaderComplaint(report, issue)
    || (issue == WrongModes && report.requiredModes != List([Str("2025-06-18"), Str("2025-11-25"), Str("2026-07-28")]))
    || (issue == WrongTransports && !TwoTransports(report.transports))
  }

  function Started(report: Report, known: bool): Reading {
    Note(Reading(HeaderIssues(report), map[]),
         When(report.requiredModes != List(Strs(MODES)), WrongModes) + When(!known, WrongTransports))
  }

  lemma StartMessages(report: Report, known: bool, issue: Issue)
    requires TransportsRequired(report.transports) == Some(known)
    ensures issue in Started(report, known).issues <==> StartComplaint(report, issue)
  {
    hide HeaderIssues, HeaderComplaint, TwoTransports, TransportsRequired, MODES, When;
    HeaderMessages(report, issue);
    ModesListed();
    TransportsMean(report.transports);
    WhenIn(report.requiredModes != List(Strs(MODES)), WrongModes, issue);
    WhenIn(!known, WrongTransports, issue);
  }

  /** The validator raises exactly where it looks up a list or a dictionary, and otherwise says exactly what is wrong. */
  lemma CompactReported(report: Report, catalog: Catalog, issue: Issue, i: Identity)
    ensures var out := ReadCompact(report, catalog);
            && (out.None? <==> CompactRaises(report))
            && (out.Some? ==>
                  && (issue in out.value.issues <==> CompactComplaint(report, out.value.checks, catalog, issue))
                  && (i in out.value.checks <==>
                        BucketsRead(report)
                        && (ListedIn(report.checks.value.passing, i) || ListedIn(report.checks.value.failing, i))))
  {
    BaselineKind(report);
    TransportsRaised(report.transports);
    hide HeaderIssues, HeaderComplaint, ReadBucket, CompactModesIssues, BucketsComplaint, StartComplaint,
         TransportsRequired, BucketRaises, ListedIn, MODES, When, Selected, IsBaseline, COMPACT_KIND, TransportsRaise;
    if !IsBaseline(report) {
      HeaderMessages(report, issue);
    } else if TransportsRequired(report.transports).Some? {
      var known := TransportsRequired(report.transports).value;
      StartMessages(report, known, issue);
      if report.checks.Dict? {
        BucketsReported(report, catalog, Started(report, known), issue, i);
      }
    }
  }

  lemma TransportsRaised(transports: Listed<Scalar>)
    ensures TransportsRequired(transports).None? <==> TransportsRaise(transports)
  {
  }
}
