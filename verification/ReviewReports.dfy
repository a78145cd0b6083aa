/** Which full review reports are read without complaint, and which dictionaries they can read as. */
module ReviewReports {
  import opened Wrappers
  import opened Ordering
  import opened JsonShapes
  import opened ReviewBaseline

  // ---- a list of checks -------------------------------------------------------

  predicate AllSucceed(checks: seq<Dict<Check>>, slot: Slot) {
    forall c | c in checks :: var found := CheckIdentity(c, slot); found.Some? ==> found.value.1
  }

  /** Every check is well formed and no name is used twice. */
  predicate GoodCheckList(checks: seq<Dict<Check>>, slot: Slot) {
    && (forall k | 0 <= k < |checks| :: CheckIdentity(checks[k], slot).Some?)
    && (forall j, k | 0 <= j < k < |checks| :: checks[j].value.name != checks[k].value.name)
  }

  /** The results under their identities. */
  function ResultsOf(checks: seq<Dict<Check>>, slot: Slot): Checks {
    if checks == [] then map[]
    else
      var found, rest := CheckIdentity(checks[0], slot), ResultsOf(checks[1..], slot);
      if found.Some? then rest[found.value.0 := found.value.1] else rest
  }

  lemma {:induction false} ResultsKeys(checks: seq<Dict<Check>>, slot: Slot, i: Identity)
    ensures i in ResultsOf(checks, slot) <==>
              exists k :: 0 <= k < |checks| && CheckIdentity(checks[k], slot).Some? && CheckIdentity(checks[k], slot).value.0 == i
  {
    hide CheckIdentity;
    if checks != [] {
      ResultsKeys(checks[1..], slot, i);
      if k :| 0 <= k < |checks| && CheckIdentity(checks[k], slot).Some? && CheckIdentity(checks[k], slot).value.0 == i {
        assert k > 0 ==> checks[1..][k - 1] == checks[k];
      }
      if k :| 0 <= k < |checks[1..]| && CheckIdentity(checks[1..][k], slot).Some? && CheckIdentity(checks[1..][k], slot).value.0 == i {
        assert checks[k + 1] == checks[1..][k];
      }
    }
  }

  lemma GoodListCons(checks: seq<Dict<Check>>, slot: Slot)
    requires checks != []
    ensures GoodCheckList(checks, slot) <==>
              && CheckIdentity(checks[0], slot).Some? && GoodCheckList(checks[1..], slot)
              && CheckIdentity(checks[0], slot).value.0 !in ResultsOf(checks[1..], slot)
  {
    var rest := checks[1..];
    assert forall k | 0 < k < |checks| :: checks[k] == rest[k - 1];
    if CheckIdentity(checks[0], slot).Some? {
      var i := CheckIdentity(checks[0], slot).value.0;
      ResultsKeys(rest, slot, i);
      hide ResultsOf, IsCheckId;
      if GoodCheckList(rest, slot) {
        if forall k | 0 <= k < |rest| :: rest[k].value.name != checks[0].value.name {
          assert GoodCheckList(checks, slot);
        } else {
          var k :| 0 <= k < |rest| && rest[k].value.name == checks[0].value.name;
          assert checks[k + 1] == rest[k];
        }
      }
    }
  }

  /** Reading a list of checks is silent exactly when it is good and nothing in it is recorded already. */
  lemma {:induction false} ChecksReadIff(checks: seq<Dict<Check>>, slot: Slot, success: bool, r: Reading)
    ensures var out := ReadChecks(checks, slot, success, r);
            var good := GoodCheckList(checks, slot) && ResultsOf(checks, slot).Keys !! r.checks.Keys;
            && |r.issues| <= |out.0.issues|
            && (|out.0.issues| == |r.issues| <==> good)
            && (good ==> out == (r.(checks := r.checks + ResultsOf(checks, slot)), success && AllSucceed(checks, slot)))
    decreases |checks|
  {
    hide CheckIdentity, GoodCheckList, AllSucceed;
    if checks == [] {
      NoChecksGood(slot);
      assert r.checks + map[] == r.checks;
    } else {
      var rest := checks[1..];
      GoodListCons(checks, slot);
      SucceedCons(checks, slot);
      match CheckIdentity(checks[0], slot)
      case None => ChecksReadIff(rest, slot, success, Note(r, [MalformedCheck]));
      case Some(found) =>
        ChecksReadIff(rest, slot, success, Note(r, [DuplicateCheck]));
        ChecksReadIff(rest, slot, success && found.1, r.(checks := r.checks[found.0 := found.1]));
        if found.0 !in r.checks && found.0 !in ResultsOf(rest, slot) {
          assert r.checks[found.0 := found.1] + ResultsOf(rest, slot) == r.checks + ResultsOf(checks, slot);
        }
    }
  }

  lemma NoChecksGood(slot: Slot)
    ensures GoodCheckList([], slot) && AllSucceed([], slot)
  {
  }

  lemma SucceedCons(checks: seq<Dict<Check>>, slot: Slot)
    requires checks != []
    ensures AllSucceed(checks, slot) <==>
              (CheckIdentity(checks[0], slot).Some? ==> CheckIdentity(checks[0], slot).value.1) && AllSucceed(checks[1..], slot)
  {
    hide CheckIdentity;
    assert checks == [checks[0]] + checks[1..];
  }

  // ---- a list of cases --------------------------------------------------------

  /** The case stands for a required slot with a good, non-empty list, and its verdict is their conjunction. */
  predicate GoodCase(c: Dict<Case>, expected: set<Slot>) {
    var slot := CaseSlot(c, expected);
    && slot.Some? && c.value.checks.List? && c.value.checks.items != []
    && GoodCheckList(c.value.checks.items, slot.value)
    && c.value.success == Bool(AllSucceed(c.value.checks.items, slot.value))
  }

  function CaseResults(c: Dict<Case>, expected: set<Slot>): Checks {
    var slot := CaseSlot(c, expected);
    if slot.Some? && c.value.checks.List? then ResultsOf(c.value.checks.items, slot.value) else map[]
  }

  /** All results that a list of cases holds. */
  function AllResults(cases: seq<Dict<Case>>, expected: set<Slot>): Checks {
    if cases == [] then map[] else CaseResults(cases[0], expected) + AllResults(cases[1..], expected)
  }

  function SlotsOf(cases: seq<Dict<Case>>, expected: set<Slot>): set<Slot> {
    set k | 0 <= k < |cases| && CaseSlot(cases[k], expected).Some? :: CaseSlot(cases[k], expected).value
  }

  /** No two cases share a slot. */
  predicate DistinctSlots(cases: seq<Dict<Case>>, expected: set<Slot>) {
    forall i, j | 0 <= i < j < |cases| :: CaseSlot(cases[i], expected) != CaseSlot(cases[j], expected)
  }

  /** Every case is good and no two stand for one slot. */
  predicate GoodCases(cases: seq<Dict<Case>>, expected: set<Slot>) {
    (forall k | 0 <= k < |cases| :: GoodCase(cases[k], expected)) && DistinctSlots(cases, expected)
  }

  lemma SlotsCons(cases: seq<Dict<Case>>, expected: set<Slot>)
    requires cases != []
    ensures SlotsOf(cases, expected)
         == (if CaseSlot(cases[0], expected).Some? then {CaseSlot(cases[0], expected).value} else {})
            + SlotsOf(cases[1..], expected)
  {
    hide CaseSlot;
    assert forall k | 0 < k < |cases| :: cases[k] == cases[1..][k - 1];
    forall s | s in SlotsOf(cases[1..], expected) ensures s in SlotsOf(cases, expected) {
      var k :| 0 <= k < |cases[1..]| && CaseSlot(cases[1..][k], expected) == Some(s);
      assert cases[k + 1] == cases[1..][k];
    }
  }

  lemma GoodCasesCons(cases: seq<Dict<Case>>, expected: set<Slot>)
    requires cases != []
    ensures GoodCases(cases, expected) <==>
              && GoodCase(cases[0], expected) && GoodCases(cases[1..], expected)
              && CaseSlot(cases[0], expected).value !in SlotsOf(cases[1..], expected)
  {
    hide CaseSlot, GoodCheckList, AllSucceed;
    var c, rest := cases[0], cases[1..];
    assert forall k | 0 < k < |cases| :: cases[k] == rest[k - 1];
    if GoodCases(cases, expected) {
      forall k | 0 <= k < |rest| ensures GoodCase(rest[k], expected) && CaseSlot(rest[k], expected) != CaseSlot(c, expected) {
        assert rest[k] == cases[k + 1];
      }
      assert forall j, k | 0 <= j < k < |rest| :: rest[j] == cases[j + 1] && rest[k] == cases[k + 1];
    }
    if GoodCase(c, expected) && GoodCases(rest, expected) {
      if forall k | 0 <= k < |rest| :: CaseSlot(rest[k], expected) != CaseSlot(c, expected) {
        assert GoodCases(cases, expected);
      } else {
        var k :| 0 <= k < |rest| && CaseSlot(rest[k], expected) == CaseSlot(c, expected);
        assert CaseSlot(c, expected).value in SlotsOf(rest, expected);
      }
    }
  }

  /** Everything recorded belongs to a case already seen. */
  predicate Observed(r: Reading) {
    forall i | i in r.checks :: i.slot in r.observed
  }

  lemma {:induction false} ResultsSlot(checks: seq<Dict<Check>>, slot: Slot)
    ensures forall i | i in ResultsOf(checks, slot) :: i.slot == slot
  {
    if checks != [] {
      ResultsSlot(checks[1..], slot);
    }
  }

  lemma CaseReadIff(c: Dict<Case>, expected: set<Slot>, r: Reading)
    requires Observed(r)
    ensures var out := ReadCase(c, expected, r);
            var good := GoodCase(c, expected) && CaseSlot(c, expected).value !in r.observed;
            && |r.issues| <= |out.issues|
            && (|out.issues| == |r.issues| <==> good)
            && (good ==> out == Reading(r.issues, r.observed + {CaseSlot(c, expected).value}, r.checks + CaseResults(c, expected)))
            && (good ==> Observed(out))
  {
    hide ReadChecks, GoodCheckList, AllSucceed, ResultsOf;
    if CaseSlot(c, expected).Some? && c.value.checks.List? {
      var slot := CaseSlot(c, expected).value;
      var next := r.(observed := r.observed + {slot});
      ChecksReadIff(c.value.checks.items, slot, true, next);
      ResultsSlot(c.value.checks.items, slot);
      if slot !in r.observed {
        assert ResultsOf(c.value.checks.items, slot).Keys !! r.checks.Keys;
      }
    }
  }

  /** Reading a list of cases is silent exactly when it is good and none of its slots was seen before. */
  lemma {:induction false} CasesReadIff(cases: seq<Dict<Case>>, expected: set<Slot>, r: Reading)
    requires Observed(r)
    ensures var out := ReadCases(cases, expected, r);
            var good := GoodCases(cases, expected) && SlotsOf(cases, expected) !! r.observed;
            && |r.issues| <= |out.issues|
            && (|out.issues| == |r.issues| <==> good)
            && (good ==> out == Reading(r.issues, r.observed + SlotsOf(cases, expected), r.checks + AllResults(cases, expected)))
    decreases |cases|
  {
    hide ReadCase, CaseSlot, CaseResults, GoodCase, GoodCases, SlotsOf;
    if cases == [] {
      NoCasesGood(expected);
      assert r.checks + map[] == r.checks && r.observed + {} == r.observed;
    } else {
      var c, rest := cases[0], cases[1..];
      var next := ReadCase(c, expected, r);
      CaseReadIff(c, expected, r);
      GoodCasesCons(cases, expected);
      SlotsCons(cases, expected);
      GoodHasSlot(c, expected);
      CasesGrow(rest, expected, next);
      if |next.issues| == |r.issues| {
        CasesReadIff(rest, expected, next);
        assert r.checks + CaseResults(c, expected) + AllResults(rest, expected)
            == r.checks + (CaseResults(c, expected) + AllResults(rest, expected));
        assert r.observed + {CaseSlot(c, expected).value} + SlotsOf(rest, expected)
            == r.observed + ({CaseSlot(c, expected).value} + SlotsOf(rest, expected));
      }
    }
  }

  lemma NoCasesGood(expected: set<Slot>)
    ensures GoodCases([], expected) && SlotsOf([], expected) == {}
  {
  }

  lemma GoodHasSlot(c: Dict<Case>, expected: set<Slot>)
    ensures GoodCase(c, expected) ==> CaseSlot(c, expected).Some?
  {
  }

  // ---- the whole report -------------------------------------------------------

  predicate Opens(report: Report) {
    && EqualsInt(report.schemaVersion, REVIEW_SCHEMA_VERSION)
    && report.reviewer == Str(REVIEWER) && report.modes == List(Strs(REVIEW_MODES))
  }

  /** Everything a full report must satisfy to be read without complaint. */
  predicate Accepts(report: Report, expected: set<Slot>) {
    && Opens(report)
    && report.cases.List? && GoodCases(report.cases.items, expected)
    && SlotsOf(report.cases.items, expected) == expected
    && var results := AllResults(report.cases.items, expected);
       && TotalsMatch(report.summary, expected, results)
       && report.success == Bool(expected != {} && Holding(results, false) == {})
  }

  lemma OpensIff(report: Report)
    requires report.baselineKind == Null
    ensures OpeningIssues(report) == [] <==> Opens(report)
  {
    hide REVIEWER, REVIEW_MODES, Strs;
  }

  lemma ClosesIff(report: Report, expected: set<Slot>, r: Reading)
    requires report.baselineKind == Null
    ensures ClosingIssues(report, expected, r) == [] <==>
              && r.observed == expected && TotalsMatch(report.summary, r.observed, r.checks)
              && report.success == Bool(r.observed != {} && Holding(r.checks, false) == {})
  {
    hide Slots, TotalsMatch, Holding;
    SlotsEmpty(expected - r.observed);
    SlotsEmpty(r.observed - expected);
    EmptyDifference(expected, r.observed);
    EmptyDifference(r.observed, expected);
  }

  /** The validator reads a full report without complaint exactly when `Accepts` holds, and then as its results. */
  lemma FullRead(report: Report, expected: set<Slot>)
    requires report.baselineKind == Null
    ensures ReadsClean(report, expected) <==> Accepts(report, expected)
    ensures Accepts(report, expected) ==>
              Read(report, expected) == Reading([], expected, AllResults(report.cases.items, expected))
  {
    hide ReadCases, OpeningIssues, ClosingIssues, Opens, GoodCases, SlotsOf, AllResults, TotalsMatch, Holding;
    var start := Reading(OpeningIssues(report), {}, map[]);
    var cases := if report.cases.List? then report.cases.items else [];
    var begun := Note(start, When(report.cases.NotList?, NoCases));
    OpensIff(report);
    FullIsCases(report, expected, start);
    CasesReadIff(cases, expected, begun);
    var r := ReadCases(cases, expected, begun);
    ClosesIff(report, expected, r);
    if report.cases.List? && Opens(report) && GoodCases(cases, expected) {
      assert r == Reading([], {} + SlotsOf(cases, expected), map[] + AllResults(cases, expected));
      assert {} + SlotsOf(cases, expected) == SlotsOf(cases, expected);
      assert map[] + AllResults(cases, expected) == AllResults(cases, expected);
    }
  }

  // ---- what the results hold --------------------------------------------------

  /** A good list has one result for each check: the check's own. */
  lemma {:induction false} ResultsHold(checks: seq<Dict<Check>>, slot: Slot)
    requires GoodCheckList(checks, slot)
    ensures |ResultsOf(checks, slot)| == |checks|
    ensures forall c | c in checks :: Recorded(c, slot, ResultsOf(checks, slot))
  {
    hide CheckIdentity, GoodCheckList;
    if checks != [] {
      GoodListCons(checks, slot);
      ResultsHold(checks[1..], slot);
      assert checks == [checks[0]] + checks[1..];
    }
  }

  /** The check is recorded under its own identity with its own result. */
  predicate Recorded(c: Dict<Check>, slot: Slot, results: Checks) {
    var found := CheckIdentity(c, slot);
    found.Some? && found.value.0 in results && results[found.value.0] == found.value.1
  }

  lemma {:induction false} AllResultsSlots(cases: seq<Dict<Case>>, expected: set<Slot>)
    ensures forall i | i in AllResults(cases, expected) :: i.slot in SlotsOf(cases, expected)
  {
    hide SlotsOf, CaseSlot, ResultsOf;
    if cases != [] {
      var c := cases[0];
      AllResultsSlots(cases[1..], expected);
      SlotsCons(cases, expected);
      if CaseSlot(c, expected).Some? && c.value.checks.List? {
        ResultsSlot(c.value.checks.items, CaseSlot(c, expected).value);
      }
    }
  }

  /** The results of good cases do not meet. */
  lemma ResultsApart(cases: seq<Dict<Case>>, expected: set<Slot>)
    requires cases != [] && GoodCases(cases, expected)
    ensures GoodCase(cases[0], expected) && GoodCases(cases[1..], expected)
    ensures CaseResults(cases[0], expected).Keys !! AllResults(cases[1..], expected).Keys
  {
    hide SlotsOf, GoodCases, AllResults, GoodCheckList, AllSucceed, ResultsOf;
    GoodCasesCons(cases, expected);
    AllResultsSlots(cases[1..], expected);
    ResultsSlot(cases[0].value.checks.items, CaseSlot(cases[0], expected).value);
  }

  function CheckCount(cases: seq<Dict<Case>>): nat {
    if cases == [] then 0
    else (if cases[0].Dict? && cases[0].value.checks.List? then |cases[0].value.checks.items| else 0)
         + CheckCount(cases[1..])
  }

  lemma {:induction false} AllResultsCount(cases: seq<Dict<Case>>, expected: set<Slot>)
    requires GoodCases(cases, expected)
    ensures |AllResults(cases, expected)| == CheckCount(cases)
  {
    hide GoodCases, GoodCheckList, ResultsOf, AllSucceed;
    if cases != [] {
      var c, rest := cases[0], cases[1..];
      ResultsApart(cases, expected);
      AllResultsCount(rest, expected);
      ResultsHold(c.value.checks.items, CaseSlot(c, expected).value);
      UnionCount(CaseResults(c, expected), AllResults(rest, expected));
    }
  }

  lemma UnionCount(a: Checks, b: Checks)
    requires a.Keys !! b.Keys
    ensures |a + b| == |a| + |b|
  {
    assert (a + b).Keys == a.Keys + b.Keys;
    assert |(a + b).Keys| == |a.Keys| + |b.Keys|;
  }

  /** In good cases no result is lost, changed or added. */
  lemma {:induction false} AllResultsMean(cases: seq<Dict<Case>>, expected: set<Slot>, i: Identity)
    requires GoodCases(cases, expected)
    ensures forall c | c in cases && i in CaseResults(c, expected) ::
              i in AllResults(cases, expected) && AllResults(cases, expected)[i] == CaseResults(c, expected)[i]
    ensures i in AllResults(cases, expected) ==> exists c | c in cases :: i in CaseResults(c, expected)
  {
    hide GoodCases, CaseResults;
    if cases != [] {
      ResultsApart(cases, expected);
      AllResultsMean(cases[1..], expected, i);
      assert cases == [cases[0]] + cases[1..];
    }
  }

  /** The case stands for a required slot, and each of its checks is recorded. */
  predicate CaseRecorded(c: Dict<Case>, expected: set<Slot>, results: Checks) {
    var slot := CaseSlot(c, expected);
    && slot.Some? && c.value.checks.List? && c.value.checks.items != []
    && (forall check | check in c.value.checks.items :: Recorded(check, slot.value, results))
    && c.value.success == Bool(AllSucceed(c.value.checks.items, slot.value))
  }

  /**
   * A full report that reads cleanly holds one case per required slot; every check of
   * every case is recorded under its own identity with its own result, and nothing else.
   */
  lemma FullReportRecorded(report: Report, expected: set<Slot>)
    requires report.baselineKind == Null && ReadsClean(report, expected)
    ensures report.cases.List?
    ensures var cases, checks := report.cases.items, Read(report, expected).checks;
            && (forall c | c in cases :: CaseRecorded(c, expected, checks))
            && DistinctSlots(cases, expected)
            && |checks| == CheckCount(cases)
            && report.success == Bool(expected != {} && Holding(checks, false) == {})
  {
    hide Read, ReadsClean, AllResults, CaseRecorded, TotalsMatch, Holding, Opens, CheckCount;
    FullRead(report, expected);
    var cases := report.cases.items;
    AllResultsCount(cases, expected);
    forall c | c in cases ensures CaseRecorded(c, expected, AllResults(cases, expected)) {
      GoodCaseRecorded(cases, expected, c);
    }
  }

  lemma GoodCaseRecorded(cases: seq<Dict<Case>>, expected: set<Slot>, c: Dict<Case>)
    requires GoodCases(cases, expected) && c in cases
    ensures CaseRecorded(c, expected, AllResults(cases, expected))
  {
    assert GoodCase(c, expected);
    hide AllResults, GoodCases, GoodCheckList, AllSucceed, ResultsOf, CheckIdentity, CaseSlot;
    var slot, items, all := CaseSlot(c, expected).value, c.value.checks.items, AllResults(cases, expected);
    ResultsHold(items, slot);
    forall check | check in items ensures Recorded(check, slot, all) {
      AllResultsMean(cases, expected, CheckIdentity(check, slot).value.0);
    }
  }

  // ---- which dictionaries full reports read as --------------------------------

  function AsCheck(i: Identity, success: bool): Dict<Check> {
    Dict(Check(Str(i.checkId), Bool(success)))
  }

  /** The part of a dictionary that belongs to one slot. */
  function AtSlot(checks: Checks, slot: Slot): Checks {
    map i | i in checks && i.slot == slot :: checks[i]
  }

  function AsChecks(identities: seq<Identity>, checks: Checks): (r: seq<Dict<Check>>)
    requires forall i | i in identities :: i in checks
    ensures |r| == |identities|
    ensures forall k | 0 <= k < |r| :: r[k] == AsCheck(identities[k], checks[identities[k]])
  {
    seq(|identities|, k requires 0 <= k < |identities| => AsCheck(identities[k], checks[identities[k]]))
  }

  function CaseFor(checks: Checks, slot: Slot): Dict<Case> {
    var here := AtSlot(checks, slot);
    Dict(Case(Str(slot.mode), Str(slot.transport), List(AsChecks(Identities(here.Keys), here)),
              Bool(Holding(here, false) == {})))
  }

  function CasesFor(checks: Checks, slots: seq<Slot>): (r: seq<Dict<Case>>)
    ensures |r| == |slots| && forall k | 0 <= k < |r| :: r[k] == CaseFor(checks, slots[k])
  {
    seq(|slots|, k requires 0 <= k < |slots| => CaseFor(checks, slots[k]))
  }

  predicate Once<T(==)>(xs: seq<T>) {
    xs == [] || (xs[0] !in xs[1..] && Once(xs[1..]))
  }

  lemma {:induction false} SortedOnce<T(!new)>(xs: seq<T>, less: (T, T) -> bool)
    requires TotalOrder(less) && Sorted(xs, less)
    ensures Once(xs)
  {
    if xs != [] {
      SortedTail(xs, less);
      SortedOnce(xs[1..], less);
    }
  }

  function ResultsAt(identities: seq<Identity>, checks: Checks): Checks {
    map i | i in identities && i in checks :: checks[i]
  }

  lemma ResultsAtCons(identities: seq<Identity>, checks: Checks)
    requires identities != [] && identities[0] in checks
    ensures ResultsAt(identities, checks) == ResultsAt(identities[1..], checks)[identities[0] := checks[identities[0]]]
  {
    assert forall i | i in identities :: i == identities[0] || i in identities[1..];
  }

  predicate AllTrue(identities: seq<Identity>, checks: Checks) {
    forall k | 0 <= k < |identities| && identities[k] in checks :: checks[identities[k]]
  }

  lemma {:induction false} WrittenChecksRead(identities: seq<Identity>, checks: Checks, slot: Slot)
    requires Once(identities)
    requires forall i | i in identities :: i in checks && i.slot == slot && IsCheckId(Str(i.checkId))
    ensures GoodCheckList(AsChecks(identities, checks), slot)
    ensures ResultsOf(AsChecks(identities, checks), slot) == ResultsAt(identities, checks)
    ensures AllSucceed(AsChecks(identities, checks), slot) <==> AllTrue(identities, checks)
  {
    hide IsCheckId, AllSucceed, GoodCheckList, ResultsAt;
    var written := AsChecks(identities, checks);
    if identities == [] {
      assert written == [];
      NoChecksGood(slot);
      assert ResultsAt(identities, checks) == map[] by { NoResultsAt(checks); }
    } else {
      var first, rest := identities[0], identities[1..];
      WrittenChecksRead(rest, checks, slot);
      assert written[0] == AsCheck(first, checks[first]);
      assert written[1..] == AsChecks(rest, checks);
      assert first == Identity(slot, first.checkId);
      assert CheckIdentity(written[0], slot) == Some((first, checks[first]));
      hide CheckIdentity;
      GoodListCons(written, slot);
      SucceedCons(written, slot);
      ResultsAtCons(identities, checks);
      FreshAt(first, rest, checks);
      TrueCons(identities, checks);
    }
  }

  lemma NoResultsAt(checks: Checks)
    ensures ResultsAt([], checks) == map[]
  {
  }

  lemma FreshAt(i: Identity, rest: seq<Identity>, checks: Checks)
    requires i !in rest
    ensures i !in ResultsAt(rest, checks)
  {
  }

  lemma TrueCons(identities: seq<Identity>, checks: Checks)
    requires identities != [] && identities[0] in checks
    ensures AllTrue(identities, checks) <==> checks[identities[0]] && AllTrue(identities[1..], checks)
  {
    assert forall k | 0 < k < |identities| :: identities[k] == identities[1..][k - 1];
  }

  /** Good identities, and for every required slot at least one. */
  predicate Complete(checks: Checks, expected: set<Slot>) {
    GoodChecks(checks, expected) && forall slot | slot in expected :: exists i | i in checks :: i.slot == slot
  }

  /** The identities of one slot: listed once, all of them good, and at least one. */
  lemma IdentitiesAt(checks: Checks, expected: set<Slot>, slot: Slot)
    requires Complete(checks, expected) && slot in expected
    ensures var here := AtSlot(checks, slot);
            var identities := Identities(here.Keys);
            && Once(identities) && identities != []
            && (forall i | i in identities :: i in here && i.slot == slot && IsCheckId(Str(i.checkId)))
            && ResultsAt(identities, here) == here
            && (Holding(here, false) == {} <==> AllTrue(identities, here))
  {
    hide IsCheckId, TotalOrder, IdentityLess, Sorted, Once;
    var here := AtSlot(checks, slot);
    var identities := Identities(here.Keys);
    Orders();
    SortedOnce(identities, IdentityLess);
    forall i | i in identities ensures i in here && i.slot == slot && IsCheckId(Str(i.checkId)) {
      assert GoodIdentity(i, expected);
    }
    var i :| i in checks && i.slot == slot;
    assert i in here;
    assert i in identities;
    HoldingNone(identities, here);
  }

  lemma HoldingNone(identities: seq<Identity>, here: Checks)
    requires forall i :: i in identities <==> i in here
    ensures Holding(here, false) == {} <==> AllTrue(identities, here)
  {
    if i :| i in here && !here[i] {
      assert i in Holding(here, false) && i in identities;
    }
  }

  lemma CaseForGood(checks: Checks, expected: set<Slot>, slot: Slot)
    requires Complete(checks, expected) && slot in expected
    ensures CaseSlot(CaseFor(checks, slot), expected) == Some(slot)
    ensures GoodCase(CaseFor(checks, slot), expected)
    ensures CaseResults(CaseFor(checks, slot), expected) == AtSlot(checks, slot)
  {
    hide IsCheckId, GoodCheckList, AllSucceed, ResultsOf, ResultsAt, AllTrue, Once, Complete, Identities, Holding, AtSlot;
    var here := AtSlot(checks, slot);
    IdentitiesAt(checks, expected, slot);
    WrittenChecksRead(Identities(here.Keys), here, slot);
    assert CaseFor(checks, slot).value.checks.items == AsChecks(Identities(here.Keys), here);
  }

  function SlotsPart(checks: Checks, slots: seq<Slot>): Checks {
    map i | i in checks && i.slot in slots :: checks[i]
  }

  lemma SlotsPartCons(checks: Checks, slots: seq<Slot>)
    requires slots != []
    ensures SlotsPart(checks, slots) == AtSlot(checks, slots[0]) + SlotsPart(checks, slots[1..])
    ensures (set s | s in slots) == {slots[0]} + set s | s in slots[1..]
  {
    assert forall s | s in slots :: s == slots[0] || s in slots[1..];
  }

  lemma {:induction false} CasesForGood(checks: Checks, expected: set<Slot>, slots: seq<Slot>)
    requires Complete(checks, expected) && Once(slots) && forall s | s in slots :: s in expected
    ensures GoodCases(CasesFor(checks, slots), expected)
    ensures SlotsOf(CasesFor(checks, slots), expected) == set s | s in slots
    ensures AllResults(CasesFor(checks, slots), expected) == SlotsPart(checks, slots)
  {
    hide GoodCases, SlotsOf, CaseResults, CaseFor, Complete, CaseSlot, GoodCase, SlotsPart, AtSlot;
    var cases := CasesFor(checks, slots);
    if slots == [] {
      assert cases == [];
      NoCasesGood(expected);
      assert SlotsPart(checks, slots) == map[] by { NoSlotsPart(checks); }
    } else {
      var slot, rest := slots[0], slots[1..];
      CasesForGood(checks, expected, rest);
      CaseForGood(checks, expected, slot);
      assert cases[1..] == CasesFor(checks, rest);
      GoodCasesCons(cases, expected);
      SlotsCons(cases, expected);
      SlotsPartCons(checks, slots);
    }
  }

  lemma NoSlotsPart(checks: Checks)
    ensures SlotsPart(checks, []) == map[]
  {
  }

  /** A dictionary is what some full report reads as, without complaint, exactly when it is complete. */
  lemma FullReportExists(checks: Checks, expected: set<Slot>)
    ensures Complete(checks, expected) <==>
              exists report: Report :: report.baselineKind == Null && Read(report, expected) == Reading([], expected, checks)
  {
    hide Read, Complete;
    if Complete(checks, expected) {
      CompleteWritten(checks, expected);
    }
    forall report: Report | report.baselineKind == Null && Read(report, expected) == Reading([], expected, checks)
      ensures Complete(checks, expected)
    {
      FullRead(report, expected);
      ResultsComplete(report, expected);
    }
  }

  lemma CompleteWritten(checks: Checks, expected: set<Slot>)
    requires Complete(checks, expected)
    ensures exists report: Report :: report.baselineKind == Null && Read(report, expected) == Reading([], expected, checks)
  {
    hide Read, Complete, TotalsMatch, GoodCases, SlotsOf, AllResults, Slots, SlotsPart, CasesFor, Holding, CasePassed, REVIEWER, REVIEW_MODES, Strs;
    var totals := Summary(Int(|Holding(checks, true)|), Int(|checks| - |Holding(checks, true)|), Int(|checks|),
                          Int(|set s | s in expected && CasePassed(checks, s)|), Int(|expected|));
    var cases := CasesFor(checks, Slots(expected));
    var report := Report(Int(REVIEW_SCHEMA_VERSION), Str(REVIEWER), Null, List(Strs(REVIEW_MODES)), NotList, NotList,
                         NotDict, List(cases), Dict(totals), Bool(expected != {} && Holding(checks, false) == {}));
    SlotsOnce(expected);
    CasesForGood(checks, expected, Slots(expected));
    AllSlotsPart(checks, expected);
    TotalsOf(report, checks, expected);
    assert Accepts(report, expected);
    FullRead(report, expected);
  }

  lemma SlotsOnce(expected: set<Slot>)
    ensures Once(Slots(expected)) && (forall s | s in Slots(expected) :: s in expected)
    ensures (set s | s in Slots(expected)) == expected
  {
    Orders();
    SortedOnce(Slots(expected), SlotLess);
  }

  lemma AllSlotsPart(checks: Checks, expected: set<Slot>)
    requires Complete(checks, expected)
    ensures SlotsPart(checks, Slots(expected)) == checks
  {
    CompleteInside(checks, expected);
  }

  lemma TotalsOf(report: Report, checks: Checks, expected: set<Slot>)
    requires report.summary == Dict(Summary(Int(|Holding(checks, true)|), Int(|checks| - |Holding(checks, true)|), Int(|checks|),
                                            Int(|set s | s in expected && CasePassed(checks, s)|), Int(|expected|)))
    ensures TotalsMatch(report.summary, expected, checks)
  {
  }

  lemma CompleteInside(checks: Checks, expected: set<Slot>)
    requires Complete(checks, expected)
    ensures forall i | i in checks :: i.slot in expected
  {
    forall i | i in checks ensures i.slot in expected {
      assert GoodIdentity(i, expected);
    }
  }

  lemma ResultsComplete(report: Report, expected: set<Slot>)
    requires report.baselineKind == Null && Accepts(report, expected)
    ensures Complete(AllResults(report.cases.items, expected), expected)
  {
    hide TotalsMatch, Opens, Holding;
    FullRead(report, expected);
    CleanReading(report, expected);
    var cases := report.cases.items;
    hide Read;
    forall slot | slot in expected ensures exists i | i in AllResults(cases, expected) :: i.slot == slot {
      var k :| 0 <= k < |cases| && CaseSlot(cases[k], expected) == Some(slot);
      CaseContributes(cases, expected, k);
    }
  }

  lemma {:induction false} CaseContributes(cases: seq<Dict<Case>>, expected: set<Slot>, k: nat)
    requires k < |cases| && GoodCase(cases[k], expected)
    ensures exists i | i in AllResults(cases, expected) :: i.slot == CaseSlot(cases[k], expected).value
  {
    if k > 0 {
      CaseContributes(cases[1..], expected, k - 1);
    } else {
      var slot, items := CaseSlot(cases[0], expected).value, cases[0].value.checks.items;
      var i := CheckIdentity(items[0], slot).value.0;
      ResultsKeys(items, slot, i);
      assert i in CaseResults(cases[0], expected);
    }
  }
}
