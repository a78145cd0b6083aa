/**
 * The review validator and gate as the script runs them, with a shared error list
 * and dictionaries that grow inside nested loops.
 */
module ReviewValidator {
  import opened Ordering
  import opened JsonShapes
  import opened ErrorLog
  import opened ReviewBaseline

  method ReadCaseRefsInto(
    refs: seq<Dict<CaseRef>>, role: string, errors: ErrorList<Issue>, ghost before: seq<Reported<Issue>>, ghost r: Reading)
    returns (observed: set<Slot>)
    requires Logged(errors, before, role, r.issues) && r.observed == {}
    modifies errors
    ensures var out := ReadCaseRefs(refs, r);
            observed == out.observed && Logged(errors, before, role, out.issues)
  {
    hide Logged;
    observed := {};
    ghost var now := r;
    var k := 0;
    assert refs[0..] == refs;
    while k < |refs|
      invariant 0 <= k <= |refs|
      invariant observed == now.observed && Logged(errors, before, role, now.issues)
      invariant ReadCaseRefs(refs, r) == ReadCaseRefs(refs[k..], now)
    {
      assert refs[k..][1..] == refs[k + 1..];
      var ref := refs[k];
      k := k + 1;
      if ref.NotDict? || !ref.value.mode.Str? || !ref.value.transport.Str? {
        NoteInto(errors, before, role, now.issues, [MalformedCase]);
        now := ReviewBaseline.Note(now, [MalformedCase]);
        continue;
      }
      var slot := Slot(ref.value.mode.s, ref.value.transport.s);
      if slot in observed {
        NoteInto(errors, before, role, now.issues, [DuplicateCase]);
        now := ReviewBaseline.Note(now, [DuplicateCase]);
        continue;
      }
      observed := observed + {slot};
      now := now.(observed := observed);
    }
  }

  method ReadBucketInto(
    bucket: Listed<Dict<Record>>, success: bool, expected: set<Slot>, identities: Checks,
    role: string, errors: ErrorList<Issue>, ghost before: seq<Reported<Issue>>, ghost r: Reading)
    returns (after: Checks)
    requires Logged(errors, before, role, r.issues) && r.checks == identities
    modifies errors
    ensures var out := ReadBucket(bucket, success, expected, r);
            && after == out.checks && out.observed == r.observed && Logged(errors, before, role, out.issues)
  {
    hide Logged, RecordIdentity;
    after := identities;
    if bucket.NotList? {
      NoteInto(errors, before, role, r.issues, [NoBucket(success)]);
      return;
    }
    var records := bucket.items;
    ghost var now := r;
    var k := 0;
    assert records[0..] == records;
    while k < |records|
      invariant 0 <= k <= |records|
      invariant after == now.checks && now.observed == r.observed && Logged(errors, before, role, now.issues)
      invariant ReadRecords(records, success, expected, r) == ReadRecords(records[k..], success, expected, now)
    {
      assert records[k..][1..] == records[k + 1..];
      var identity := RecordIdentity(records[k], expected);
      k := k + 1;
      if identity.None? {
        NoteInto(errors, before, role, now.issues, [MalformedRecord(success)]);
        now := ReviewBaseline.Note(now, [MalformedRecord(success)]);
        continue;
      }
      if identity.value in after {
        NoteInto(errors, before, role, now.issues, [DuplicateCheck]);
        now := ReviewBaseline.Note(now, [DuplicateCheck]);
        continue;
      }
      after := after[identity.value := success];
      now := now.(checks := after);
    }
  }

  method ReadChecksInto(
    checks: seq<Dict<Check>>, slot: Slot, identities: Checks,
    role: string, errors: ErrorList<Issue>, ghost before: seq<Reported<Issue>>, ghost r: Reading)
    returns (after: Checks, success: bool)
    requires Logged(errors, before, role, r.issues) && r.checks == identities
    modifies errors
    ensures var out := ReadChecks(checks, slot, true, r);
            && after == out.0.checks && success == out.1 && out.0.observed == r.observed
            && Logged(errors, before, role, out.0.issues)
  {
    hide Logged, CheckIdentity;
    after, success := identities, true;
    ghost var now := r;
    var k := 0;
    assert checks[0..] == checks;
    while k < |checks|
      invariant 0 <= k <= |checks|
      invariant after == now.checks && now.observed == r.observed && Logged(errors, before, role, now.issues)
      invariant ReadChecks(checks, slot, true, r) == ReadChecks(checks[k..], slot, success, now)
    {
      assert checks[k..][1..] == checks[k + 1..];
      var found := CheckIdentity(checks[k], slot);
      k := k + 1;
      if found.None? {
        NoteInto(errors, before, role, now.issues, [MalformedCheck]);
        now := ReviewBaseline.Note(now, [MalformedCheck]);
        continue;
      }
      if found.value.0 in after {
        NoteInto(errors, before, role, now.issues, [DuplicateCheck]);
        now := ReviewBaseline.Note(now, [DuplicateCheck]);
        continue;
      }
      after := after[found.value.0 := found.value.1];
      now := now.(checks := after);
      success := success && found.value.1;
    }
  }

  method ReadCaseInto(
    c: Dict<Case>, expected: set<Slot>, observed: set<Slot>, identities: Checks,
    role: string, errors: ErrorList<Issue>, ghost before: seq<Reported<Issue>>, ghost r: Reading)
    returns (seen: set<Slot>, after: Checks)
    requires Logged(errors, before, role, r.issues) && r.checks == identities && r.observed == observed
    modifies errors
    ensures var out := ReadCase(c, expected, r);
            seen == out.observed && after == out.checks && Logged(errors, before, role, out.issues)
  {
    hide Logged, ReadChecks, CaseSlot;
    seen, after := observed, identities;
    if c.NotDict? {
      NoteInto(errors, before, role, r.issues, [MalformedCase]);
      return;
    }
    var slot := CaseSlot(c, expected);
    if slot.None? {
      NoteInto(errors, before, role, r.issues, [UnexpectedCase]);
      return;
    }
    if slot.value in observed {
      NoteInto(errors, before, role, r.issues, [DuplicateCase]);
      return;
    }
    seen := observed + {slot.value};
    if c.value.checks.NotList? || c.value.checks.items == [] {
      NoteInto(errors, before, role, r.issues, [NoChecks(slot.value)]);
      return;
    }
    ghost var r' := r.(observed := seen);
    var success;
    after, success := ReadChecksInto(c.value.checks.items, slot.value, identities, role, errors, before, r');
    ghost var out := ReadChecks(c.value.checks.items, slot.value, true, r').0;
    NoteInto(errors, before, role, out.issues, When(c.value.success != Bool(success), WrongCaseSuccess(slot.value)));
  }

  method ReadFullInto(
    report: Report, expected: set<Slot>, role: string, errors: ErrorList<Issue>,
    ghost before: seq<Reported<Issue>>, ghost r: Reading)
    returns (observed: set<Slot>, identities: Checks)
    requires Logged(errors, before, role, r.issues) && r.checks == map[] && r.observed == {}
    modifies errors
    ensures var out := ReadFull(report, expected, r);
            observed == out.observed && identities == out.checks && Logged(errors, before, role, out.issues)
  {
    hide Logged, ReadCase;
    var cases := if report.cases.List? then report.cases.items else [];
    NoteInto(errors, before, role, r.issues, When(report.cases.NotList?, NoCases));
    ghost var start := ReviewBaseline.Note(r, When(report.cases.NotList?, NoCases));
    observed, identities := {}, map[];
    ghost var now := start;
    var k := 0;
    assert cases[0..] == cases;
    while k < |cases|
      invariant 0 <= k <= |cases|
      invariant observed == now.observed && identities == now.checks && Logged(errors, before, role, now.issues)
      invariant ReadCases(cases, expected, start) == ReadCases(cases[k..], expected, now)
    {
      assert cases[k..][1..] == cases[k + 1..];
      observed, identities := ReadCaseInto(cases[k], expected, observed, identities, role, errors, before, now);
      now := ReadCase(cases[k], expected, now);
      k := k + 1;
    }
  }

  method ReadCompactInto(
    report: Report, expected: set<Slot>, role: string, errors: ErrorList<Issue>,
    ghost before: seq<Reported<Issue>>, ghost r: Reading)
    returns (observed: set<Slot>, identities: Checks)
    requires Logged(errors, before, role, r.issues) && r.checks == map[] && r.observed == {}
    modifies errors
    ensures var out := ReadCompact(report, expected, r);
            observed == out.observed && identities == out.checks && Logged(errors, before, role, out.issues)
  {
    hide Logged, ReadBucket, ReadCaseRefs, REVIEW_BASELINE_KIND;
    var wrongKind := When(report.baselineKind != Str(REVIEW_BASELINE_KIND), WrongKind);
    NoteInto(errors, before, role, r.issues, wrongKind);
    ghost var r1 := ReviewBaseline.Note(r, wrongKind);
    var noCases := When(report.requiredCases.NotList?, NoRequiredCases);
    NoteInto(errors, before, role, r1.issues, noCases);
    ghost var r2 := ReviewBaseline.Note(r1, noCases);
    var refs := if report.requiredCases.List? then report.requiredCases.items else [];
    observed := ReadCaseRefsInto(refs, role, errors, before, r2);
    ghost var r3 := ReadCaseRefs(refs, r2);
    CaseRefsKeepChecks(refs, r2);
    identities := map[];
    if report.checks.NotDict? {
      NoteInto(errors, before, role, r3.issues, [NoCheckIdentities, NoBucket(true), NoBucket(false)]);
      return;
    }
    var buckets := report.checks.value;
    identities := ReadBucketInto(buckets.passing, true, expected, identities, role, errors, before, r3);
    ghost var r4 := ReadBucket(buckets.passing, true, expected, r3);
    identities := ReadBucketInto(buckets.failing, false, expected, identities, role, errors, before, r4);
  }

  lemma {:induction false} CaseRefsKeepChecks(refs: seq<Dict<CaseRef>>, r: Reading)
    ensures ReadCaseRefs(refs, r).checks == r.checks
    decreases |refs|
  {
    if refs != [] {
      CaseRefsKeepChecks(refs[1..], ReviewBaseline.Note(r, [MalformedCase]));
      if refs[0].Dict? && refs[0].value.mode.Str? && refs[0].value.transport.Str? {
        CaseRefsKeepChecks(refs[1..], ReviewBaseline.Note(r, [DuplicateCase]));
        CaseRefsKeepChecks(refs[1..], r.(observed := r.observed + {Slot(refs[0].value.mode.s, refs[0].value.transport.s)}));
      }
    }
  }

  /** `_required_review_checks`, appending its findings to the shared error list. */
  method RequiredReviewChecks(report: Report, role: string, expected: set<Slot>, errors: ErrorList<Issue>)
    returns (identities: Checks)
    modifies errors
    ensures var out := Read(report, expected);
            identities == out.checks && errors.items == old(errors.items) + Tagged(role, out.issues)
  {
    hide OpeningIssues, ReadCompact, ReadFull, ClosingIssues;
    ghost var before := errors.items;
    assert before + Tagged(role, []) == before && [] + OpeningIssues(report) == OpeningIssues(report);
    NoteInto(errors, before, role, [], OpeningIssues(report));
    ghost var start := Reading(OpeningIssues(report), {}, map[]);
    var observed;
    if report.baselineKind != Null {
      observed, identities := ReadCompactInto(report, expected, role, errors, before, start);
    } else {
      observed, identities := ReadFullInto(report, expected, role, errors, before, start);
    }
    ghost var r := if report.baselineKind != Null then ReadCompact(report, expected, start)
                   else ReadFull(report, expected, start);
    var closing := ClosingIssues(report, expected, Reading([], observed, identities));
    assert closing == ClosingIssues(report, expected, r) by { ClosingIgnoresIssues(report, expected, r); }
    NoteInto(errors, before, role, r.issues, closing);
  }

  lemma ClosingIgnoresIssues(report: Report, expected: set<Slot>, r: Reading)
    ensures ClosingIssues(report, expected, Reading([], r.observed, r.checks)) == ClosingIssues(report, expected, r)
  {}

  // ---- the gate ---------------------------------------------------------------

  lemma IdentitiesStep(all: set<Identity>, k: nat, chosen: set<Identity>)
    requires k < |Identities(all)|
    ensures var order := Identities(all);
            Identities(Met(order, k + 1, chosen))
            == if order[k] in chosen then Identities(Met(order, k, chosen)) + [order[k]]
               else Identities(Met(order, k, chosen))
  {
    Orders();
    MetStep(Identities(all), k, chosen, IdentityLess);
  }

  lemma IdentitiesStart(all: set<Identity>, chosen: set<Identity>)
    ensures Identities(Met(Identities(all), 0, chosen)) == []
  {
    assert Met(Identities(all), 0, chosen) == {};
    IdentitiesEmpty({});
  }

  /** `_evaluate_review_regression_gate`. */
  method EvaluateReviewRegressionGate(candidate: Report, baseline: Report, expected: set<Slot>) returns (r: GateResult)
    ensures r == Gate(candidate, baseline, expected)
  {
    hide Read, Identities, Met, Tagged;
    var errors := new ErrorList<Issue>();
    var baselineChecks := RequiredReviewChecks(baseline, "baseline", expected, errors);
    var candidateChecks := RequiredReviewChecks(candidate, "candidate", expected, errors);
    var knownFailures, newFailures := CompareFailures(candidateChecks, baselineChecks);
    var missingChecks, fixedChecks := CompareBaseline(candidateChecks, baselineChecks);
    assert errors.items == Tagged("baseline", Read(baseline, expected).issues)
                           + Tagged("candidate", Read(candidate, expected).issues);
    r := GateResult(errors.items == [] && newFailures == [] && missingChecks == [], errors.items,
                    knownFailures, newFailures, missingChecks, fixedChecks);
  }

  method CompareFailures(candidate: Checks, baseline: Checks)
    returns (knownFailures: seq<Identity>, newFailures: seq<Identity>)
    ensures knownFailures == Identities(Holding(candidate, false) * Holding(baseline, false))
    ensures newFailures == Identities(Holding(candidate, false) - Holding(baseline, false))
  {
    hide Identities, Met;
    ghost var isKnown := Holding(candidate, false) * Holding(baseline, false);
    ghost var isNew := Holding(candidate, false) - Holding(baseline, false);
    knownFailures, newFailures := [], [];
    var order := Identities(candidate.Keys);
    IdentitiesStart(candidate.Keys, isKnown);
    IdentitiesStart(candidate.Keys, isNew);
    for k := 0 to |order|
      invariant knownFailures == Identities(Met(order, k, isKnown))
      invariant newFailures == Identities(Met(order, k, isNew))
    {
      IdentitiesStep(candidate.Keys, k, isKnown);
      IdentitiesStep(candidate.Keys, k, isNew);
      var identity := order[k];
      if candidate[identity] {
        continue;
      }
      if identity in baseline && baseline[identity] == false {
        knownFailures := knownFailures + [identity];
      } else {
        newFailures := newFailures + [identity];
      }
    }
    MetAll(order, isKnown);
    MetAll(order, isNew);
  }

  method CompareBaseline(candidate: Checks, baseline: Checks)
    returns (missingChecks: seq<Identity>, fixedChecks: seq<Identity>)
    ensures missingChecks == Identities(baseline.Keys - candidate.Keys)
    ensures fixedChecks == Identities(Holding(baseline, false) * Holding(candidate, true))
  {
    hide Identities, Met;
    ghost var isMissing := baseline.Keys - candidate.Keys;
    ghost var isFixed := Holding(baseline, false) * Holding(candidate, true);
    missingChecks, fixedChecks := [], [];
    var order := Identities(baseline.Keys);
    IdentitiesStart(baseline.Keys, isMissing);
    IdentitiesStart(baseline.Keys, isFixed);
    for k := 0 to |order|
      invariant missingChecks == Identities(Met(order, k, isMissing))
      invariant fixedChecks == Identities(Met(order, k, isFixed))
    {
      IdentitiesStep(baseline.Keys, k, isMissing);
      IdentitiesStep(baseline.Keys, k, isFixed);
      var identity := order[k];
      if identity !in candidate {
        missingChecks := missingChecks + [identity];
      } else if !baseline[identity] && candidate[identity] {
        fixedChecks := fixedChecks + [identity];
      }
    }
    MetAll(order, isMissing);
    MetAll(order, isFixed);
  }
}
