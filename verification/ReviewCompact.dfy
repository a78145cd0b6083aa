/** Which compact review baselines are read without complaint, whoever wrote them, and what the review gate lists. */
module ReviewCompact {
  import opened Wrappers
  import opened Ordering
  import opened JsonShapes
  import opened ReviewBaseline
  import opened ReviewReports

  // ---- records ----------------------------------------------------------------

  /** The record spells out an identity of a required case. */
  ghost predicate Spells(record: Dict<Record>, expected: set<Slot>, i: Identity) {
    && i.slot in expected && IsCheckId(Str(i.checkId))
    && record == Dict(Record(Str(i.slot.mode), Str(i.slot.transport), Str(i.checkId)))
  }

  lemma RecordMeans(record: Dict<Record>, expected: set<Slot>, i: Identity)
    ensures RecordIdentity(record, expected) == Some(i) <==> Spells(record, expected, i)
  {
    hide CHECK_PREFIX;
    assert i == Identity(Slot(i.slot.mode, i.slot.transport), i.checkId);
  }

  ghost predicate SpellsOne(record: Dict<Record>, expected: set<Slot>) {
    exists i :: Spells(record, expected, i)
  }

  ghost predicate GoodRecords(records: seq<Dict<Record>>, expected: set<Slot>) {
    && (forall k | 0 <= k < |records| :: SpellsOne(records[k], expected))
    && (forall j, k | 0 <= j < k < |records| :: records[j] != records[k])
  }

  ghost predicate Spelled(records: seq<Dict<Record>>, expected: set<Slot>, i: Identity) {
    exists k :: 0 <= k < |records| && Spells(records[k], expected, i)
  }

  ghost predicate Has(checks: Checks, i: Identity, result: bool) {
    i in checks && checks[i] == result
  }

  /** The second dictionary adds the given result for what the records spell out. */
  ghost predicate Adds(records: seq<Dict<Record>>, expected: set<Slot>, success: bool, before: Checks, after: Checks) {
    forall i, b :: Has(after, i, b) <==> Has(before, i, b) || (b == success && Spelled(records, expected, i))
  }

  ghost predicate Unseen(records: seq<Dict<Record>>, expected: set<Slot>, checks: Checks) {
    forall i | i in checks :: !Spelled(records, expected, i)
  }

  lemma SpelledCons(records: seq<Dict<Record>>, expected: set<Slot>, i: Identity)
    requires records != []
    ensures Spelled(records, expected, i) <==> Spells(records[0], expected, i) || Spelled(records[1..], expected, i)
  {
    hide Spells;
    if k :| 0 <= k < |records| && Spells(records[k], expected, i) {
      assert k > 0 ==> records[k] == records[1..][k - 1];
    }
    if k :| 0 <= k < |records[1..]| && Spells(records[1..][k], expected, i) {
      assert records[k + 1] == records[1..][k];
    }
  }

  lemma GoodRecordsCons(records: seq<Dict<Record>>, expected: set<Slot>, i: Identity)
    requires records != [] && Spells(records[0], expected, i)
    ensures GoodRecords(records, expected) <==> GoodRecords(records[1..], expected) && !Spelled(records[1..], expected, i)
  {
    var rest := records[1..];
    assert forall k | 0 < k < |records| :: records[k] == rest[k - 1];
    assert forall k | 0 <= k < |rest| :: rest[k] == records[k + 1];
    hide IsCheckId;
    forall k | 0 <= k < |rest| ensures rest[k] == records[0] <==> Spells(rest[k], expected, i) { }
    hide Spells;
    if GoodRecords(rest, expected) && !Spelled(rest, expected, i) {
      forall j, k | 0 <= j < k < |records| ensures records[j] != records[k] {
        if j == 0 { assert !Spells(rest[k - 1], expected, i); }
      }
      forall k | 0 <= k < |records| ensures SpellsOne(records[k], expected) {
        if k > 0 { assert records[k] == rest[k - 1]; }
      }
    }
    if GoodRecords(records, expected) {
      forall k | 0 <= k < |rest| ensures !Spells(rest[k], expected, i) && SpellsOne(rest[k], expected) {
        assert rest[k] == records[k + 1] && records[0] != records[k + 1];
      }
      forall j, k | 0 <= j < k < |rest| ensures rest[j] != rest[k] {
        assert records[j + 1] != records[k + 1];
      }
    }
  }

  lemma BadRecords(records: seq<Dict<Record>>, expected: set<Slot>)
    requires records != [] && RecordIdentity(records[0], expected).None?
    ensures !GoodRecords(records, expected)
  {
    hide RecordIdentity, Spells;
    if i :| Spells(records[0], expected, i) {
      RecordMeans(records[0], expected, i);
    }
  }

  lemma UnseenCons(records: seq<Dict<Record>>, expected: set<Slot>, i: Identity, checks: Checks, success: bool)
    requires records != [] && Spells(records[0], expected, i)
    ensures i in checks ==> !Unseen(records, expected, checks)
    ensures i !in checks ==>
              (Unseen(records, expected, checks) && !Spelled(records[1..], expected, i)
               <==> Unseen(records[1..], expected, checks[i := success]))
    ensures i !in checks ==>
              forall after | Adds(records[1..], expected, success, checks[i := success], after) ::
                Adds(records, expected, success, checks, after)
  {
    forall j ensures Spells(records[0], expected, j) <==> j == i { }
    hide Spells;
    forall j ensures Spelled(records, expected, j) <==> j == i || Spelled(records[1..], expected, j) {
      SpelledCons(records, expected, j);
    }
    hide Spelled;
    if i !in checks {
      var next := checks[i := success];
      if Unseen(records[1..], expected, next) {
        assert i in next;
      }
      forall j, b ensures Has(next, j, b) <==> Has(checks, j, b) || (j == i && b == success) { }
      hide Has;
      forall after | Adds(records[1..], expected, success, next, after) ensures Adds(records, expected, success, checks, after) {
        forall j, b ensures Has(after, j, b) <==> Has(checks, j, b) || (b == success && Spelled(records, expected, j)) { }
      }
    }
  }

  /** Reading the records is silent exactly when they are good and spell out nothing recorded already. */
  lemma {:induction false} RecordsReadIff(records: seq<Dict<Record>>, success: bool, expected: set<Slot>, r: Reading)
    ensures var out := ReadRecords(records, success, expected, r);
            var good := GoodRecords(records, expected) && Unseen(records, expected, r.checks);
            && |r.issues| <= |out.issues|
            && (|out.issues| == |r.issues| <==> good)
            && (good ==> out.issues == r.issues && out.observed == r.observed && Adds(records, expected, success, r.checks, out.checks))
    decreases |records|
  {
    hide RecordIdentity, Spells, GoodRecords, Unseen, Adds, Spelled;
    if records == [] {
      NothingSpelled(expected, success, r.checks);
    } else {
      match RecordIdentity(records[0], expected)
      case None =>
        BadRecords(records, expected);
        RecordsReadIff(records[1..], success, expected, Note(r, [MalformedRecord(success)]));
      case Some(i) =>
        RecordMeans(records[0], expected, i);
        RecordsReadIff(records[1..], success, expected, Note(r, [DuplicateCheck]));
        RecordsReadIff(records[1..], success, expected, r.(checks := r.checks[i := success]));
        GoodRecordsCons(records, expected, i);
        UnseenCons(records, expected, i, r.checks, success);
    }
  }

  lemma NothingSpelled(expected: set<Slot>, success: bool, checks: Checks)
    ensures GoodRecords([], expected) && Unseen([], expected, checks) && Adds([], expected, success, checks, checks)
  {
  }

  // ---- required cases ---------------------------------------------------------

  predicate Refers(ref: Dict<CaseRef>, slot: Slot) {
    ref == Dict(CaseRef(Str(slot.mode), Str(slot.transport)))
  }

  predicate GoodRef(ref: Dict<CaseRef>) {
    ref.Dict? && ref.value.mode.Str? && ref.value.transport.Str?
  }

  function RefSlot(ref: Dict<CaseRef>): Slot
    requires GoodRef(ref)
  {
    Slot(ref.value.mode.s, ref.value.transport.s)
  }

  ghost predicate GoodRefs(refs: seq<Dict<CaseRef>>) {
    && (forall k | 0 <= k < |refs| :: GoodRef(refs[k]))
    && (forall j, k | 0 <= j < k < |refs| :: refs[j] != refs[k])
  }

  ghost predicate Referred(refs: seq<Dict<CaseRef>>, slot: Slot) {
    exists k :: 0 <= k < |refs| && Refers(refs[k], slot)
  }

  lemma ReferredCons(refs: seq<Dict<CaseRef>>, slot: Slot)
    requires refs != []
    ensures Referred(refs, slot) <==> Refers(refs[0], slot) || Referred(refs[1..], slot)
  {
    if k :| 0 <= k < |refs| && Refers(refs[k], slot) {
      assert k > 0 ==> refs[k] == refs[1..][k - 1];
    }
    if k :| 0 <= k < |refs[1..]| && Refers(refs[1..][k], slot) {
      assert refs[k + 1] == refs[1..][k];
    }
  }

  lemma GoodRefsCons(refs: seq<Dict<CaseRef>>)
    requires refs != [] && GoodRef(refs[0])
    ensures GoodRefs(refs) <==> GoodRefs(refs[1..]) && !Referred(refs[1..], RefSlot(refs[0]))
  {
    var rest, slot := refs[1..], RefSlot(refs[0]);
    assert forall k | 0 < k < |refs| :: refs[k] == rest[k - 1];
    assert forall k | 0 <= k < |rest| :: rest[k] == refs[k + 1];
    if GoodRefs(rest) && !Referred(rest, slot) {
      forall j, k | 0 <= j < k < |refs| ensures refs[j] != refs[k] {
        if j == 0 { assert !Refers(rest[k - 1], slot); }
      }
    }
    if GoodRefs(refs) {
      forall k | 0 <= k < |rest| ensures !Refers(rest[k], slot) && GoodRef(rest[k]) {
        assert refs[0] != refs[k + 1];
      }
      forall j, k | 0 <= j < k < |rest| ensures rest[j] != rest[k] {
        assert refs[j + 1] != refs[k + 1];
      }
    }
  }

  lemma {:induction false} CaseRefsReadIff(refs: seq<Dict<CaseRef>>, r: Reading)
    ensures var out := ReadCaseRefs(refs, r);
            var good := GoodRefs(refs) && forall slot | slot in r.observed :: !Referred(refs, slot);
            && |r.issues| <= |out.issues| && out.checks == r.checks
            && (|out.issues| == |r.issues| <==> good)
            && (good ==> out.issues == r.issues && forall slot :: slot in out.observed <==> slot in r.observed || Referred(refs, slot))
    decreases |refs|
  {
    hide GoodRefs, Referred;
    if refs == [] {
      NothingReferred();
    } else {
      var rest := refs[1..];
      CaseRefsReadIff(rest, Note(r, [MalformedCase]));
      if GoodRef(refs[0]) {
        var slot := RefSlot(refs[0]);
        GoodRefsCons(refs);
        CaseRefsReadIff(rest, Note(r, [DuplicateCase]));
        CaseRefsReadIff(rest, r.(observed := r.observed + {slot}));
        forall s ensures Referred(refs, s) <==> s == slot || Referred(rest, s) { ReferredCons(refs, s); }
      } else {
        BadRef(refs);
      }
    }
  }

  lemma NothingReferred()
    ensures GoodRefs([]) && forall slot :: !Referred([], slot)
  {
  }

  lemma BadRef(refs: seq<Dict<CaseRef>>)
    requires refs != [] && !GoodRef(refs[0])
    ensures !GoodRefs(refs)
  {
  }

  // ---- the whole baseline -----------------------------------------------------

  /** The form of a compact baseline: its header, the required cases, and buckets of good records. */
  ghost predicate WellFormed(report: Report, expected: set<Slot>) {
    && EqualsInt(report.schemaVersion, 1) && report.reviewer == Str("sofia-mcp-regression-suite")
    && report.requiredModes == List([Str("2025-06-18"), Str("2025-11-25"), Str("2026-07-28")])
    && report.baselineKind == Str("mcp-review-regression-baseline-v1")
    && report.requiredCases.List? && GoodRefs(report.requiredCases.items)
    && (forall slot :: slot in expected <==> Referred(report.requiredCases.items, slot))
    && report.checks.Dict? && report.checks.value.passing.List? && report.checks.value.failing.List?
    && GoodRecords(report.checks.value.passing.items, expected) && GoodRecords(report.checks.value.failing.items, expected)
    && (forall i :: !(Spelled(report.checks.value.passing.items, expected, i) && Spelled(report.checks.value.failing.items, expected, i)))
  }

  /** The dictionary holds what the buckets spell out, with the result of the bucket. */
  ghost predicate ReadsAs(report: Report, expected: set<Slot>, checks: Checks)
    requires report.checks.Dict? && report.checks.value.passing.List? && report.checks.value.failing.List?
  {
    forall i, b :: Has(checks, i, b) <==>
      Spelled(if b then report.checks.value.passing.items else report.checks.value.failing.items, expected, i)
  }

  lemma OpeningMeans(report: Report)
    requires report.baselineKind != Null
    ensures OpeningIssues(report) == [] <==>
              && EqualsInt(report.schemaVersion, 1) && report.reviewer == Str("sofia-mcp-regression-suite")
              && report.requiredModes == List([Str("2025-06-18"), Str("2025-11-25"), Str("2026-07-28")])
  {
    assert Strs(REVIEW_MODES) == [Str("2025-06-18"), Str("2025-11-25"), Str("2026-07-28")];
  }

  lemma ClosingMeans(report: Report, expected: set<Slot>, r: Reading)
    requires report.baselineKind != Null
    ensures ClosingIssues(report, expected, r) == [] <==>
              r.observed == expected && TotalsMatch(report.summary, r.observed, r.checks)
  {
    hide Slots, TotalsMatch, Holding;
    SlotsEmpty(expected - r.observed);
    SlotsEmpty(r.observed - expected);
    EmptyDifference(expected, r.observed);
    EmptyDifference(r.observed, expected);
  }

  lemma BucketsMean(report: Report, expected: set<Slot>, r: Reading)
    requires r.checks == map[] && report.checks.Dict?
    ensures var passing, failing := report.checks.value.passing, report.checks.value.failing;
            var out := ReadBucket(failing, false, expected, ReadBucket(passing, true, expected, r));
            var good := && passing.List? && failing.List?
                        && GoodRecords(passing.items, expected) && GoodRecords(failing.items, expected)
                        && forall i :: !(Spelled(passing.items, expected, i) && Spelled(failing.items, expected, i));
            && |r.issues| <= |out.issues|
            && (|out.issues| == |r.issues| <==> good)
            && (good ==> out.issues == r.issues && out.observed == r.observed && ReadsAs(report, expected, out.checks))
  {
    hide ReadRecords, GoodRecords, Spelled;
    var passing, failing := report.checks.value.passing, report.checks.value.failing;
    var first := ReadBucket(passing, true, expected, r);
    forall i, b ensures !Has(map[], i, b) { }
    if passing.List? {
      RecordsReadIff(passing.items, true, expected, r);
      assert Unseen(passing.items, expected, map[]);
    }
    if failing.List? {
      RecordsReadIff(failing.items, false, expected, first);
      if passing.List? && GoodRecords(passing.items, expected) {
        forall i ensures i in first.checks <==> Spelled(passing.items, expected, i) {
          assert Has(first.checks, i, true) <==> Has(map[], i, true) || Spelled(passing.items, expected, i);
          assert Has(first.checks, i, false) <==> Has(map[], i, false);
        }
      }
    }
  }

  /** A compact baseline is accepted exactly when it is well formed and its totals count what its buckets spell out. */
  lemma CompactRead(report: Report, expected: set<Slot>)
    requires report.baselineKind != Null
    ensures ReadsClean(report, expected) <==>
              && WellFormed(report, expected)
              && exists checks: Checks :: ReadsAs(report, expected, checks) && TotalsMatch(report.summary, expected, checks)
    ensures ReadsClean(report, expected) ==>
              Read(report, expected).observed == expected && ReadsAs(report, expected, Read(report, expected).checks)
  {
    hide OpeningIssues, ClosingIssues, TotalsMatch, ReadCaseRefs, ReadBucket, GoodRecords, GoodRefs, Spelled, Referred, ReadsAs;
    var start := Reading(OpeningIssues(report), {}, map[]);
    var r1 := Note(start, When(report.baselineKind != Str(REVIEW_BASELINE_KIND), WrongKind));
    var r2 := Note(r1, When(report.requiredCases.NotList?, NoRequiredCases));
    var refs := if report.requiredCases.List? then report.requiredCases.items else [];
    OpeningMeans(report);
    CaseRefsReadIff(refs, r2);
    var r3 := ReadCaseRefs(refs, r2);
    var r := ReadCompact(report, expected, start);
    if report.checks.Dict? {
      BucketsMean(report, expected, r3);
    }
    ClosingMeans(report, expected, r);
    assert ReadsClean(report, expected) <==> r.issues == [] && ClosingIssues(report, expected, r) == [];
    if r.issues == [] {
      assert r.observed == expected <==> forall slot :: slot in expected <==> Referred(refs, slot);
      forall checks: Checks | ReadsAs(report, expected, checks) ensures checks == r.checks {
        SameReadings(report, expected, checks, r.checks);
      }
    }
  }

  lemma SameReadings(report: Report, expected: set<Slot>, a: Checks, b: Checks)
    requires report.checks.Dict? && report.checks.value.passing.List? && report.checks.value.failing.List?
    requires ReadsAs(report, expected, a) && ReadsAs(report, expected, b)
    ensures a == b
  {
    hide Spelled;
    forall i ensures (i in a) == (i in b) && (i in a ==> a[i] == b[i]) {
      assert Has(a, i, true) <==> Has(b, i, true);
      assert Has(a, i, false) <==> Has(b, i, false);
    }
  }

  // ---- what the gate lists ----------------------------------------------------

  /** Each list of the gate's result, by the results of the identities in it. */
  lemma ListsMean(baseline: Reading, candidate: Reading, i: Identity)
    ensures var r, b, c := Evaluate(baseline, candidate), baseline.checks, candidate.checks;
            && (i in r.newFailures <==> Has(c, i, false) && !Has(b, i, false))
            && (i in r.knownFailures <==> Has(c, i, false) && Has(b, i, false))
            && (i in r.missingChecks <==> i in b && i !in c)
            && (i in r.fixedChecks <==> Has(b, i, false) && Has(c, i, true))
  {
    hide IdentityLess, Sorted;
  }

  lemma ListsSorted(baseline: Reading, candidate: Reading)
    ensures var r := Evaluate(baseline, candidate);
            && Sorted(r.newFailures, IdentityLess) && Sorted(r.knownFailures, IdentityLess)
            && Sorted(r.missingChecks, IdentityLess) && Sorted(r.fixedChecks, IdentityLess)
  {
    hide IdentityLess, Sorted;
  }
}
