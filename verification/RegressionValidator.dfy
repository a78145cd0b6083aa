/**
 * The validator and the gate as the script runs them: nested loops that append to a
 * shared error list and fill the `identities` and `cases` dictionaries.
 */
module RegressionValidator {
  import opened Wrappers
  import opened Ordering
  import opened JsonShapes
  import opened ErrorLog
  import opened RegressionReports
  import opened RegressionGate

  method ReadRecordsInto(
    records: seq<Dict<Record>>, status: Status, role: string, identities: Checks,
    errors: ErrorList<Issue>, ghost before: seq<Reported<Issue>>, ghost issues: seq<Issue>)
    returns (raised: bool, after: Checks)
    requires Logged(errors, before, role, issues)
    modifies errors
    ensures var out := ReadRecords(records, status, {}, Reading(issues, identities));
            && (raised <==> out.None?)
            && (!raised ==> after == out.value.checks && Logged(errors, before, role, out.value.issues))
  {
    hide RecordIdentity, Tagged;
    after := identities;
    var seen: set<Identity> := {};
    ghost var found := issues;
    var k := 0;
    assert records[0..] == records;
    while k < |records|
      invariant 0 <= k <= |records|
      invariant Logged(errors, before, role, found)
      invariant ReadRecords(records, status, {}, Reading(issues, identities))
             == ReadRecords(records[k..], status, seen, Reading(found, after))
    {
      assert records[k..][1..] == records[k + 1..];
      match RecordIdentity(records[k]) {
      case Raises =>
        return true, after;
      case Malformed =>
        NoteInto(errors, before, role, found, [MalformedIdentity(status)]);
        found := found + [MalformedIdentity(status)];
      case Good(identity) =>
        if identity in seen {
          NoteInto(errors, before, role, found, [DuplicateIdentity(status)]);
          found := found + [DuplicateIdentity(status)];
        } else {
          seen := seen + {identity};
          after := AddFact(after, Fact(identity, status));
        }
      }
      k := k + 1;
    }
    raised := false;
  }

  method CollectCasesInto(
    cases: seq<Dict<Case>>, role: string, errors: ErrorList<Issue>, ghost before: seq<Reported<Issue>>, ghost issues: seq<Issue>)
    returns (table: map<Slot, Case>)
    requires Logged(errors, before, role, issues)
    modifies errors
    ensures var out := CollectCases(cases, CaseTable(issues, map[]));
            table == out.cases && Logged(errors, before, role, out.issues)
  {
    hide MODES, Tagged;
    table := map[];
    ghost var found := issues;
    var k := 0;
    assert cases[0..] == cases;
    while k < |cases|
      invariant 0 <= k <= |cases|
      invariant Logged(errors, before, role, found)
      invariant CollectCases(cases, CaseTable(issues, map[])) == CollectCases(cases[k..], CaseTable(found, table))
    {
      assert cases[k..][1..] == cases[k + 1..];
      var case_ := cases[k];
      k := k + 1;
      if case_.NotDict? {
        NoteInto(errors, before, role, found, [MalformedCase]);
        found := found + [MalformedCase];
        continue;
      }
      var c := case_.value;
      if !(c.mode.Str? && c.mode.s in MODES) {
        continue;
      }
      if !c.transport.Str? {
        NoteInto(errors, before, role, found, [MalformedRequiredCase]);
        found := found + [MalformedRequiredCase];
        continue;
      }
      var slot := (c.mode.s, c.transport.s);
      if slot in table {
        NoteInto(errors, before, role, found, [DuplicateCase(slot.1, slot.0)]);
        found := found + [DuplicateCase(slot.1, slot.0)];
        continue;
      }
      table := table[slot := c];
    }
  }

  method ReadChecksInto(
    checks: seq<Dict<Check>>, mode: string, transport: string, role: string, identities: Checks,
    errors: ErrorList<Issue>, ghost before: seq<Reported<Issue>>, ghost issues: seq<Issue>)
    returns (raised: bool, after: Checks, observed: set<string>)
    requires Logged(errors, before, role, issues)
    modifies errors
    ensures var out := ReadChecks(checks, mode, transport, Reading(issues, identities), {});
            && (raised <==> out.None?)
            && (!raised ==> && after == out.value.0.checks && observed == out.value.1
                            && Logged(errors, before, role, out.value.0.issues))
  {
    hide CheckFact, Tagged;
    after, observed := identities, {};
    ghost var found := issues;
    var k := 0;
    assert checks[0..] == checks;
    while k < |checks|
      invariant 0 <= k <= |checks|
      invariant Logged(errors, before, role, found)
      invariant ReadChecks(checks, mode, transport, Reading(issues, identities), {})
             == ReadChecks(checks[k..], mode, transport, Reading(found, after), observed)
    {
      assert checks[k..][1..] == checks[k + 1..];
      match CheckFact(mode, transport, checks[k]) {
      case Raises =>
        return true, after, observed;
      case Malformed =>
        NoteInto(errors, before, role, found, [MalformedCheck(transport, mode)]);
        found := found + [MalformedCheck(transport, mode)];
      case Good(f) =>
        after := AddFact(after, f);
        if CountsAsObserved(f.identity, mode) {
          observed := observed + {f.identity.scenario};
        }
      }
      k := k + 1;
    }
    raised := false;
  }

  method ReadCaseInto(
    cases: map<Slot, Case>, mode: string, transport: string, role: string, catalog: Catalog, identities: Checks,
    errors: ErrorList<Issue>, ghost before: seq<Reported<Issue>>, ghost issues: seq<Issue>)
    returns (raised: bool, after: Checks)
    requires Logged(errors, before, role, issues)
    modifies errors
    ensures var out := ReadCase(cases, mode, transport, catalog, Reading(issues, identities));
            && (raised <==> out.None?)
            && (!raised ==> after == out.value.checks && Logged(errors, before, role, out.value.issues))
  {
    hide ReadChecks, ScenarioIssues, Tagged, HTTP;
    after := identities;
    if (mode, transport) !in cases {
      NoteInto(errors, before, role, issues, [MissingCase(transport, mode)]);
      return false, after;
    }
    var checks := cases[(mode, transport)].checks;
    if checks.NotList? || checks.items == [] {
      NoteInto(errors, before, role, issues, [NoChecks(transport, mode)]);
      return false, after;
    }
    var observed: set<string>;
    raised, after, observed := ReadChecksInto(checks.items, mode, transport, role, identities, errors, before, issues);
    if !raised && transport == HTTP {
      ghost var r := ReadChecks(checks.items, mode, transport, Reading(issues, identities), {}).value.0;
      NoteInto(errors, before, role, r.issues, ScenarioIssues(mode, SetOf(catalog(mode)), observed));
    }
  }

  method ReadFullInto(
    report: Report, role: string, catalog: Catalog, errors: ErrorList<Issue>,
    ghost before: seq<Reported<Issue>>, ghost issues: seq<Issue>)
    returns (raised: bool, identities: Checks)
    requires Logged(errors, before, role, issues) && issues == HeaderIssues(report)
    modifies errors
    ensures var out := ReadFull(report, catalog);
            && (raised <==> out.None?)
            && (!raised ==> identities == out.value.checks && Logged(errors, before, role, out.value.issues))
  {
    hide ReadCase, HeaderIssues, CollectCases, RunsCatalog, MODES, Tagged, STDIO, HTTP;
    NoteInto(errors, before, role, issues, When(report.cases.NotList?, NoCases));
    ghost var start := issues + When(report.cases.NotList?, NoCases);
    var cases := CollectCasesInto(CaseList(report), role, errors, before, start);
    ghost var found := CollectCases(CaseList(report), CaseTable(start, map[])).issues;
    ghost var first := Reading(found, map[]);
    identities := map[];
    var selected := Selected(report);
    var k := 0;
    assert MODES[0..] == MODES;
    while k < |MODES|
      invariant 0 <= k <= |MODES|
      invariant Logged(errors, before, role, found)
      invariant ReadModes(MODES, cases, selected, catalog, first)
             == ReadModes(MODES[k..], cases, selected, catalog, Reading(found, identities))
    {
      assert MODES[k..][1..] == MODES[k + 1..];
      var mode := MODES[k];
      var incomplete := When(!RunsCatalog(selected, mode, catalog), IncompleteCatalog(mode));
      NoteInto(errors, before, role, found, incomplete);
      ghost var r0 := Reading(found + incomplete, identities);
      raised, identities := ReadCaseInto(cases, mode, STDIO, role, catalog, identities, errors, before, r0.issues);
      if raised {
        return;
      }
      ghost var r1 := ReadCase(cases, mode, STDIO, catalog, r0).value;
      raised, identities := ReadCaseInto(cases, mode, HTTP, role, catalog, identities, errors, before, r1.issues);
      if raised {
        return;
      }
      found := ReadCase(cases, mode, HTTP, catalog, r1).value.issues;
      k := k + 1;
    }
    raised := false;
  }

  method ReadBucketInto(
    bucket: Listed<Dict<Record>>, status: Status, role: string, identities: Checks,
    errors: ErrorList<Issue>, ghost before: seq<Reported<Issue>>, ghost issues: seq<Issue>)
    returns (raised: bool, after: Checks)
    requires Logged(errors, before, role, issues)
    modifies errors
    ensures var out := ReadBucket(bucket, status, Reading(issues, identities));
            && (raised <==> out.None?)
            && (!raised ==> after == out.value.checks && Logged(errors, before, role, out.value.issues))
  {
    hide Tagged, ReadRecords;
    if bucket.NotList? {
      NoteInto(errors, before, role, issues, [NoBucket(status)]);
      return false, identities;
    }
    raised, after := ReadRecordsInto(bucket.items, status, role, identities, errors, before, issues);
  }

  /** The closing loop over the required protocol versions of a compact baseline. */
  method NoteModesInto(
    identities: Checks, selected: map<string, Listed<Scalar>>, role: string, catalog: Catalog,
    errors: ErrorList<Issue>, ghost before: seq<Reported<Issue>>, ghost issues: seq<Issue>)
    requires Logged(errors, before, role, issues)
    modifies errors
    ensures Logged(errors, before, role, issues + CompactModesIssues(MODES, identities, selected, catalog))
  {
    hide CompactModeIssues, MODES, Tagged;
    ghost var all := CompactModesIssues(MODES, identities, selected, catalog);
    var k := 0;
    ghost var done := [];
    assert MODES[0..] == MODES && done + all == all && issues + done == issues;
    while k < |MODES|
      invariant 0 <= k <= |MODES|
      invariant Logged(errors, before, role, issues + done)
      invariant all == done + CompactModesIssues(MODES[k..], identities, selected, catalog)
    {
      assert MODES[k..][1..] == MODES[k + 1..];
      var more := CompactModeIssues(identities, selected, MODES[k], catalog);
      NoteInto(errors, before, role, issues + done, more);
      assert issues + done + more == issues + (done + more);
      done := done + more;
      k := k + 1;
    }
    assert MODES[k..] == [] && all == done;
  }

  method ReadCompactInto(
    report: Report, role: string, catalog: Catalog, errors: ErrorList<Issue>,
    ghost before: seq<Reported<Issue>>, ghost issues: seq<Issue>)
    returns (raised: bool, identities: Checks)
    requires Logged(errors, before, role, issues) && issues == HeaderIssues(report)
    modifies errors
    ensures var out := ReadCompact(report, catalog);
            && (raised <==> out.None?)
            && (!raised ==> identities == out.value.checks && Logged(errors, before, role, out.value.issues))
  {
    hide HeaderIssues, ReadBucket, CompactModesIssues, TransportsRequired, MODES, Tagged, COMPACT_KIND;
    identities := map[];
    if report.baselineKind != Str(COMPACT_KIND) {
      NoteInto(errors, before, role, issues, [UnsupportedBaseline]);
      return false, map[];
    }
    var wrongModes := When(report.requiredModes != List(Strs(MODES)), WrongModes);
    NoteInto(errors, before, role, issues, wrongModes);
    var transports := TransportsRequired(report.transports);
    if transports.None? {
      return true, map[];
    }
    var wrongTransports := When(!transports.value, WrongTransports);
    NoteInto(errors, before, role, issues + wrongModes, wrongTransports);
    ghost var found := issues + wrongModes + wrongTransports;
    assert found == issues + (wrongModes + wrongTransports);
    if report.checks.NotDict? {
      NoteInto(errors, before, role, found, [NoIdentities]);
      return false, map[];
    }
    ghost var r := Reading(found, identities);
    raised, identities := ReadBucketInto(report.checks.value.passing, Pass, role, identities, errors, before, found);
    if raised {
      return;
    }
    ghost var passing := ReadBucket(report.checks.value.passing, Pass, r).value;
    raised, identities := ReadBucketInto(report.checks.value.failing, Fail, role, identities, errors, before, passing.issues);
    if raised {
      return;
    }
    found := ReadBucket(report.checks.value.failing, Fail, passing).value.issues;
    NoteModesInto(identities, Selected(report), role, catalog, errors, before, found);
  }

  /** `_required_regression_checks`, appending its findings to the shared error list. */
  method RequiredRegressionChecks(report: Report, role: string, catalog: Catalog, errors: ErrorList<Issue>)
    returns (raised: bool, identities: Checks)
    modifies errors
    ensures var out := Read(report, catalog);
            && (raised <==> out.None?)
            && (!raised ==> identities == out.value.checks
                            && errors.items == old(errors.items) + Tagged(role, out.value.issues))
  {
    hide ReadFull, ReadCompact, HeaderIssues, Tagged;
    ghost var before := errors.items;
    errors.Note(role, HeaderIssues(report));
    if report.baselineKind != Null {
      raised, identities := ReadCompactInto(report, role, catalog, errors, before, HeaderIssues(report));
    } else {
      raised, identities := ReadFullInto(report, role, catalog, errors, before, HeaderIssues(report));
    }
  }

  // ---- the gate ---------------------------------------------------------------

  lemma ListingStep(all: set<Identity>, k: nat, chosen: set<Identity>)
    requires k < |Listing(all)|
    ensures var order := Listing(all);
            Listing(Met(order, k + 1, chosen))
            == if order[k] in chosen then Listing(Met(order, k, chosen)) + [order[k]]
               else Listing(Met(order, k, chosen))
  {
    IdentityOrder();
    MetStep(Listing(all), k, chosen, IdentityLess);
  }

  lemma ListingStart(all: set<Identity>, chosen: set<Identity>)
    ensures Listing(Met(Listing(all), 0, chosen)) == []
  {
    assert Met(Listing(all), 0, chosen) == {};
    ListingEmpty({});
  }

  function StatusesOf(checks: Checks, i: Identity): set<Status> {
    if i in checks then checks[i] else {}
  }

  /** The candidate's failures, split into new and known ones. */
  method CompareFailures(candidate: Checks, baseline: Checks, errors: ErrorList<Issue>)
    returns (newFailures: seq<Identity>, knownFailures: seq<Identity>)
    modifies errors
    ensures newFailures == Listing(Failing(candidate) - Failing(baseline))
    ensures knownFailures == Listing(Failing(candidate) * Failing(baseline))
    ensures errors.items == old(errors.items) + ShippingIssues(Listing(Shipping(Failing(candidate))))
  {
    hide Listing, SHIPPING, Met;
    ghost var isNew, isKnown := Failing(candidate) - Failing(baseline), Failing(candidate) * Failing(baseline);
    ghost var isShipping := Shipping(Failing(candidate));
    ghost var before := errors.items;
    var keys := candidate.Keys;
    var order := Listing(keys);
    newFailures, knownFailures := [], [];
    ListingStart(keys, isNew);
    ListingStart(keys, isKnown);
    ListingStart(keys, isShipping);
    assert before + ShippingIssues([]) == before;
    for k := 0 to |order|
      invariant newFailures == Listing(Met(order, k, isNew))
      invariant knownFailures == Listing(Met(order, k, isKnown))
      invariant errors.items == before + ShippingIssues(Listing(Met(order, k, isShipping)))
    {
      ListingStep(keys, k, isNew);
      ListingStep(keys, k, isKnown);
      ListingStep(keys, k, isShipping);
      var identity := order[k];
      var statuses, baselineStatuses := candidate[identity], StatusesOf(baseline, identity);
      if Fail !in statuses {
        continue;
      }
      if identity.mode == SHIPPING {
        ghost var listed := Listing(Met(order, k, isShipping));
        errors.Append(General(ShippingCheckFailed(identity.checkId)));
        assert ShippingIssues(listed + [identity])
            == ShippingIssues(listed) + [General(ShippingCheckFailed(identity.checkId))];
      }
      if Fail in baselineStatuses {
        knownFailures := knownFailures + [identity];
      } else {
        newFailures := newFailures + [identity];
      }
    }
    MetAll(order, isNew);
    MetAll(order, isKnown);
    MetAll(order, isShipping);
  }

  lemma BaselineMembership(candidate: Checks, baseline: Checks, i: Identity)
    requires i in baseline
    ensures var was, now := baseline[i], StatusesOf(candidate, i);
            && (i in Missing(baseline, candidate) <==>
                  (Pass in was && Pass !in now) || (Fail in was && Fail !in now && Pass !in now))
            && (i in (Failing(baseline) - Failing(candidate)) * Passing(candidate) <==>
                  Fail in was && Fail !in now && Pass in now)
            && (i in Shipping(Failing(baseline)) <==> i.mode == SHIPPING && Fail in was)
  {}

  lemma BaselineSubsets(candidate: Checks, baseline: Checks)
    ensures Missing(baseline, candidate) <= baseline.Keys
    ensures (Failing(baseline) - Failing(candidate)) * Passing(candidate) <= baseline.Keys
    ensures Shipping(Failing(baseline)) <= baseline.Keys
  {}

  /** The baseline's decided checks that are gone, and its failures that now pass. */
  method CompareBaseline(candidate: Checks, baseline: Checks, errors: ErrorList<Issue>)
    returns (missingChecks: seq<Identity>, fixedChecks: seq<Identity>)
    modifies errors
    ensures missingChecks == Listing(Missing(baseline, candidate))
    ensures fixedChecks == Listing((Failing(baseline) - Failing(candidate)) * Passing(candidate))
    ensures errors.items == old(errors.items) + BaselineShippingIssues(Listing(Shipping(Failing(baseline))))
  {
    hide Listing, SHIPPING, Met, Missing, Failing, Passing, Shipping;
    BaselineSubsets(candidate, baseline);
    ghost var isMissing := Missing(baseline, candidate);
    ghost var isFixed := (Failing(baseline) - Failing(candidate)) * Passing(candidate);
    ghost var isShipping := Shipping(Failing(baseline));
    ghost var before := errors.items;
    var keys := baseline.Keys;
    var order := Listing(keys);
    missingChecks, fixedChecks := [], [];
    ListingStart(keys, isMissing);
    ListingStart(keys, isFixed);
    ListingStart(keys, isShipping);
    assert before + BaselineShippingIssues([]) == before;
    for k := 0 to |order|
      invariant missingChecks == Listing(Met(order, k, isMissing))
      invariant fixedChecks == Listing(Met(order, k, isFixed))
      invariant errors.items == before + BaselineShippingIssues(Listing(Met(order, k, isShipping)))
    {
      ListingStep(keys, k, isMissing);
      ListingStep(keys, k, isFixed);
      ListingStep(keys, k, isShipping);
      var identity := order[k];
      BaselineMembership(candidate, baseline, identity);
      var statuses, candidateStatuses := baseline[identity], StatusesOf(candidate, identity);
      if identity.mode == SHIPPING && Fail in statuses {
        ghost var listed := Listing(Met(order, k, isShipping));
        errors.Append(General(BaselineShippingCheckFailed(identity.checkId)));
        assert BaselineShippingIssues(listed + [identity])
            == BaselineShippingIssues(listed) + [General(BaselineShippingCheckFailed(identity.checkId))];
      }
      if Pass in statuses && Pass !in candidateStatuses {
        missingChecks := missingChecks + [identity];
      } else if Fail in statuses && Fail !in candidateStatuses && Pass !in candidateStatuses {
        missingChecks := missingChecks + [identity];
      } else if Fail in statuses && Fail !in candidateStatuses {
        fixedChecks := fixedChecks + [identity];
      }
    }
    MetAll(order, isMissing);
    MetAll(order, isFixed);
    MetAll(order, isShipping);
  }

  /** `_evaluate_regression_gate`; nothing when Python would raise TypeError. */
  method EvaluateRegressionGate(candidate: Report, baseline: Report, catalog: Catalog) returns (r: Option<GateResult>)
    ensures r == Gate(candidate, baseline, catalog)
  {
    hide Read, Tagged, Listing, Failing, Passing, Missing, Shipping, ShippingIssues, BaselineShippingIssues;
    var errors := new ErrorList<Issue>();
    var raised, baselineChecks := RequiredRegressionChecks(baseline, "baseline", catalog, errors);
    if raised {
      return None;
    }
    var candidateChecks;
    raised, candidateChecks := RequiredRegressionChecks(candidate, "candidate", catalog, errors);
    if raised {
      return None;
    }
    var baselineAuth, candidateAuth := baseline.automaticAuthRequired, candidate.automaticAuthRequired;
    if !baselineAuth.Bool? || !candidateAuth.Bool? {
      errors.Append(General(NoAuthPolicy));
    } else if baselineAuth != candidateAuth {
      errors.Append(General(DifferentAuthPolicies));
    }
    ghost var b, c := Read(baseline, catalog).value, Read(candidate, catalog).value;
    assert errors.items == Tagged("baseline", b.issues) + Tagged("candidate", c.issues)
                           + AuthIssues(baselineAuth, candidateAuth);
    var newFailures, knownFailures := CompareFailures(candidateChecks, baselineChecks, errors);
    var missingChecks, fixedChecks := CompareBaseline(candidateChecks, baselineChecks, errors);
    r := Some(GateResult(
                errors.items == [] && newFailures == [] && missingChecks == [], errors.items,
                newFailures, missingChecks, knownFailures, fixedChecks));
  }
}
