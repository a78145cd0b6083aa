/** Which compact baselines the validator accepts, whoever wrote them, and what it then knows. */
module RegressionCompact {
  import opened Wrappers
  import opened JsonShapes
  import opened RegressionReports
  import opened RegressionFacts
  import opened RegressionGate
  import opened RegressionBaseline
  import opened RegressionIdentity

  // ---- records ----------------------------------------------------------------

  /** The record spells out a well-formed identity. */
  ghost predicate Spells(record: Dict<Record>, i: Identity) {
    WellFormed(i) && record == Dict(Record(Str(i.mode), Str(i.transport), Str(i.source), Str(i.scenario), Str(i.checkId)))
  }

  lemma RecordMeans(record: Dict<Record>, i: Identity)
    ensures RecordIdentity(record) == Good(i) <==> Spells(record, i)
  {
    hide MODES, TRANSPORTS, SOURCES;
  }

  ghost predicate SpellsOne(record: Dict<Record>) {
    exists i :: Spells(record, i)
  }

  /** Every record spells out an identity, and no two are alike. */
  ghost predicate GoodRecords(records: seq<Dict<Record>>) {
    && (forall k | 0 <= k < |records| :: SpellsOne(records[k]))
    && (forall j, k | 0 <= j < k < |records| :: records[j] != records[k])
  }

  ghost predicate Spelled(records: seq<Dict<Record>>, i: Identity) {
    exists k :: 0 <= k < |records| && Spells(records[k], i)
  }

  ghost predicate Unseen(records: seq<Dict<Record>>, seen: set<Identity>) {
    forall i | i in seen :: !Spelled(records, i)
  }

  lemma SpelledCons(records: seq<Dict<Record>>, i: Identity)
    requires records != []
    ensures Spelled(records, i) <==> Spells(records[0], i) || Spelled(records[1..], i)
  {
    hide Spells;
    if k :| 0 <= k < |records| && Spells(records[k], i) {
      assert k > 0 ==> records[k] == records[1..][k - 1];
    }
    if k :| 0 <= k < |records[1..]| && Spells(records[1..][k], i) {
      assert records[k + 1] == records[1..][k];
    }
  }

  lemma GoodRecordsCons(records: seq<Dict<Record>>, i: Identity)
    requires records != [] && Spells(records[0], i)
    ensures GoodRecords(records) <==> GoodRecords(records[1..]) && !Spelled(records[1..], i)
  {
    var rest := records[1..];
    assert forall k | 0 < k < |records| :: records[k] == rest[k - 1];
    assert forall k | 0 <= k < |rest| :: rest[k] == records[k + 1];
    hide WellFormed;
    forall k | 0 <= k < |rest| ensures rest[k] == records[0] <==> Spells(rest[k], i) { }
    hide Spells;
    if GoodRecords(rest) && !Spelled(rest, i) {
      forall j, k | 0 <= j < k < |records| ensures records[j] != records[k] {
        if j == 0 { assert !Spells(rest[k - 1], i); }
      }
      forall k | 0 <= k < |records| ensures SpellsOne(records[k]) {
        if k > 0 { assert records[k] == rest[k - 1]; }
      }
      assert GoodRecords(records);
    }
    if GoodRecords(records) {
      forall k | 0 <= k < |rest| ensures !Spells(rest[k], i) && SpellsOne(rest[k]) {
        assert rest[k] == records[k + 1] && records[0] != records[k + 1];
      }
      forall j, k | 0 <= j < k < |rest| ensures rest[j] != rest[k] {
        assert records[j + 1] != records[k + 1];
      }
      assert GoodRecords(rest);
      assert !Spelled(rest, i);
    }
  }

  lemma BadRecords(records: seq<Dict<Record>>)
    requires records != [] && !RecordIdentity(records[0]).Good?
    ensures !GoodRecords(records)
  {
    hide RecordIdentity, Spells;
    if i :| Spells(records[0], i) {
      RecordMeans(records[0], i);
    }
  }

  /** Reading the records is silent exactly when they are good and list nothing seen, and then adds what they list. */
  lemma {:induction false} RecordsReadIff(records: seq<Dict<Record>>, status: Status, seen: set<Identity>, r: Reading)
    requires Proper(r.checks)
    ensures var out := ReadRecords(records, status, seen, r);
            var good := GoodRecords(records) && Unseen(records, seen);
            && (out.Some? ==> |r.issues| <= |out.value.issues| && Proper(out.value.checks))
            && ((out.Some? && |out.value.issues| == |r.issues|) <==> good)
            && (good ==> out.value.issues == r.issues && Adds(records, status, r.checks, out.value.checks))
    decreases |records|
  {
    hide RecordIdentity, Proper, AddFact, Spells, GoodRecords, Unseen, Adds;
    if records == [] {
      NothingListed(seen, status, r.checks);
    } else {
      var rest := records[1..];
      match RecordIdentity(records[0])
      case Raises =>
        BadRecords(records);
      case Malformed =>
        BadRecords(records);
        RecordsReadIff(rest, status, seen, Note(r, [MalformedIdentity(status)]));
      case Good(i) =>
        RecordMeans(records[0], i);
        AddFactAdds(r.checks, Fact(i, status));
        var next := AddFact(r.checks, Fact(i, status));
        RecordsReadIff(rest, status, seen, Note(r, [DuplicateIdentity(status)]));
        RecordsReadIff(rest, status, seen + {i}, r.(checks := next));
        GoodRecordsCons(records, i);
        UnseenCons(records, i, seen);
        AddsCons(records, i, status, r.checks);
    }
  }

  /** The second dictionary has the given status for what the records list, and is the first otherwise. */
  ghost predicate Adds(records: seq<Dict<Record>>, status: Status, before: Checks, after: Checks) {
    forall i, s :: Has(after, i, s) <==> Has(before, i, s) || (s == status && Spelled(records, i))
  }

  lemma NothingListed(seen: set<Identity>, status: Status, checks: Checks)
    ensures GoodRecords([]) && Unseen([], seen) && Adds([], status, checks, checks)
  {
  }

  lemma UnseenCons(records: seq<Dict<Record>>, i: Identity, seen: set<Identity>)
    requires records != [] && Spells(records[0], i)
    ensures i in seen ==> !Unseen(records, seen)
    ensures i !in seen ==> (Unseen(records, seen) && !Spelled(records[1..], i) <==> Unseen(records[1..], seen + {i}))
  {
    forall j ensures Spells(records[0], j) <==> j == i { }
    hide Spells;
    forall j ensures Spelled(records, j) <==> j == i || Spelled(records[1..], j) { SpelledCons(records, j); }
    hide Spelled;
    if Unseen(records[1..], seen + {i}) {
      assert i in seen + {i};
    }
  }

  lemma AddsCons(records: seq<Dict<Record>>, i: Identity, status: Status, before: Checks)
    requires records != [] && Spells(records[0], i)
    ensures forall after | Adds(records[1..], status, AddFact(before, Fact(i, status)), after) :: Adds(records, status, before, after)
  {
    var next := AddFact(before, Fact(i, status));
    forall j ensures Spells(records[0], j) <==> j == i { }
    hide Spells;
    forall j ensures Spelled(records, j) <==> j == i || Spelled(records[1..], j) { SpelledCons(records, j); }
    hide Spelled;
    forall j, s ensures Has(next, j, s) <==> Has(before, j, s) || (j == i && s == status) { }
    hide Has, AddFact;
    forall after | Adds(records[1..], status, next, after) ensures Adds(records, status, before, after) {
      forall j, s ensures Has(after, j, s) <==> Has(before, j, s) || (s == status && Spelled(records, j)) { }
    }
  }

  // ---- the whole baseline -----------------------------------------------------

  predicate TwoTransports(transports: Listed<Scalar>) {
    || transports == List([Str("stdio"), Str("official-http")])
    || transports == List([Str("official-http"), Str("stdio")])
  }

  lemma TransportsMean(transports: Listed<Scalar>)
    ensures TransportsRequired(transports) == Some(true) <==> TwoTransports(transports)
  {
    if transports.List? && |transports.items| == 2 {
      var a, b := transports.items[0], transports.items[1];
      assert transports.items == [a, b];
      assert (set t | t in transports.items) == {a, b};
      if {a, b} == {Str(STDIO), Str(HTTP)} {
        assert Str(STDIO) in {a, b} && Str(HTTP) in {a, b};
      }
    }
  }

  /** What a mode needs: its catalog, a check on either transport, and each scenario of the catalog and no other observed. */
  ghost predicate ModeCovered(report: Report, checks: Checks, mode: string, catalog: Catalog) {
    && RunsCatalog(Selected(report), mode, catalog)
    && (exists i :: i in checks && i.mode == mode && i.transport == "stdio")
    && (exists i :: i in checks && i.mode == mode && i.transport == "official-http")
    && (forall scenario :: scenario in catalog(mode) <==>
          exists i :: i in checks && i.mode == mode && i.transport == "official-http"
                      && i.source in ["official", "harness"] && i.scenario == scenario)
  }

  lemma ModeCoveredMeans(report: Report, checks: Checks, mode: string, catalog: Catalog)
    ensures CompactModeIssues(checks, Selected(report), mode, catalog) == [] <==> ModeCovered(report, checks, mode, catalog)
  {
    CompactModeIssuesNone(checks, Selected(report), mode, catalog);
    hide CompactModeIssues, RunsCatalog, Selected;
    var observed := ObservedScenarios(checks, mode);
    forall scenario
      ensures scenario in observed <==>
                exists i :: i in checks && i.mode == mode && i.transport == "official-http"
                            && i.source in ["official", "harness"] && i.scenario == scenario
    {
      if i :| i in checks && i.mode == mode && i.transport == "official-http" && i.source in ["official", "harness"] && i.scenario == scenario {
        assert CountsAsObserved(i, mode);
      }
    }
    hide ObservedScenarios;
    assert forall scenario :: scenario in SetOf(catalog(mode)) <==> scenario in catalog(mode);
  }

  /** Everything a compact baseline must satisfy to be read without complaint. */
  ghost predicate AcceptsCompact(report: Report, catalog: Catalog) {
    && HeaderOk(report) && report.baselineKind == Str("mcp-conformance-regression-baseline-v1")
    && report.requiredModes == List([Str("2025-06-18"), Str("2025-11-25"), Str("2026-07-28")])
    && TwoTransports(report.transports)
    && report.checks.Dict? && report.checks.value.passing.List? && report.checks.value.failing.List?
    && GoodRecords(report.checks.value.passing.items) && GoodRecords(report.checks.value.failing.items)
  }

  /** The dictionary has exactly the statuses of the buckets an identity is listed in. */
  ghost predicate ReadsAs(report: Report, checks: Checks)
    requires report.checks.Dict? && report.checks.value.passing.List? && report.checks.value.failing.List?
  {
    forall i, s :: Has(checks, i, s) <==>
      || (s == Pass && Spelled(report.checks.value.passing.items, i))
      || (s == Fail && Spelled(report.checks.value.failing.items, i))
  }

  lemma ModesListed()
    ensures Strs(MODES) == [Str("2025-06-18"), Str("2025-11-25"), Str("2026-07-28")]
  {
  }

  lemma BucketReadIff(bucket: Listed<Dict<Record>>, status: Status, r: Reading)
    requires Proper(r.checks)
    ensures var out := ReadBucket(bucket, status, r);
            var good := bucket.List? && GoodRecords(bucket.items);
            && (out.Some? ==> |r.issues| <= |out.value.issues| && Proper(out.value.checks))
            && ((out.Some? && |out.value.issues| == |r.issues|) <==> good)
            && (good ==> out.value.issues == r.issues && Adds(bucket.items, status, r.checks, out.value.checks))
  {
    hide ReadRecords, Proper, GoodRecords, Adds, Spelled;
    if bucket.List? {
      RecordsReadIff(bucket.items, status, {}, r);
    }
  }

  /** A compact baseline is accepted exactly when it is well formed and what its buckets list covers every mode. */
  lemma CompactRead(report: Report, catalog: Catalog)
    ensures var out := ReadCompact(report, catalog);
            && ((out.Some? && out.value.issues == []) <==>
                  AcceptsCompact(report, catalog)
                  && exists checks: Checks :: Proper(checks) && ReadsAs(report, checks)
                                              && forall mode | mode in MODES :: ModeCovered(report, checks, mode, catalog))
            && (out.Some? && out.value.issues == [] ==> Proper(out.value.checks) && ReadsAs(report, out.value.checks))
  {
    hide HeaderIssues, HeaderOk, ReadBucket, CompactModesIssues, CompactModeIssues, ModeCovered, TransportsRequired,
         TwoTransports, GoodRecords, Proper, MODES, Spelled, Adds, ReadsAs;
    var out := ReadCompact(report, catalog);
    HeaderIssuesNone(report);
    ModesListed();
    TransportsMean(report.transports);
    if report.baselineKind == Str(COMPACT_KIND) && TransportsRequired(report.transports).Some? && report.checks.Dict? {
      var start := Note(Reading(HeaderIssues(report), map[]),
                        When(report.requiredModes != List(Strs(MODES)), WrongModes)
                        + When(!TransportsRequired(report.transports).value, WrongTransports));
      var buckets := report.checks.value;
      NothingIsProper();
      BucketReadIff(buckets.passing, Pass, start);
      var passing := ReadBucket(buckets.passing, Pass, start);
      if passing.Some? {
        BucketReadIff(buckets.failing, Fail, passing.value);
        var both := ReadBucket(buckets.failing, Fail, passing.value);
        if both.Some? {
          ModesCovered(report, both.value.checks, catalog);
          if both.value.issues == [] {
            BucketsReadAs(report, passing.value.checks, both.value.checks);
          }
        }
      }
    }
  }

  lemma ModesCovered(report: Report, checks: Checks, catalog: Catalog)
    ensures CompactModesIssues(MODES, checks, Selected(report), catalog) == [] <==>
              forall mode | mode in MODES :: ModeCovered(report, checks, mode, catalog)
  {
    hide CompactModesIssues, CompactModeIssues, ModeCovered, MODES;
    CompactModesIssuesNone(MODES, checks, Selected(report), catalog);
    forall mode ensures CompactModeIssues(checks, Selected(report), mode, catalog) == [] <==> ModeCovered(report, checks, mode, catalog) {
      ModeCoveredMeans(report, checks, mode, catalog);
    }
  }

  lemma BucketsReadAs(report: Report, passing: Checks, both: Checks)
    requires report.checks.Dict? && report.checks.value.passing.List? && report.checks.value.failing.List?
    requires Adds(report.checks.value.passing.items, Pass, map[], passing)
    requires Adds(report.checks.value.failing.items, Fail, passing, both) && Proper(both)
    ensures ReadsAs(report, both)
    ensures forall checks: Checks | Proper(checks) && ReadsAs(report, checks) :: checks == both
  {
    hide Spelled;
    forall i, s ensures !Has(map[], i, s) { }
    assert ReadsAs(report, both);
    forall checks: Checks | Proper(checks) && ReadsAs(report, checks) ensures checks == both {
      SameStatuses(checks, both);
    }
  }

  lemma SameStatuses(a: Checks, b: Checks)
    requires Proper(a) && Proper(b) && forall i, s :: Has(a, i, s) <==> Has(b, i, s)
    ensures a == b
  {
    forall i, s ensures Fact(i, s) in Facts(a) <==> Fact(i, s) in Facts(b) {
      FactIn(a, i, s);
      FactIn(b, i, s);
      assert Has(a, i, s) <==> Has(b, i, s);
    }
    forall f ensures f in Facts(a) <==> f in Facts(b) {
      assert f == Fact(f.identity, f.status);
    }
    SameFacts(a, b);
  }
}
