/** Neither the order of a full review report's cases nor that of a case's checks matters to the gate. */
module ReviewOrder {
  import opened Ordering
  import opened JsonShapes
  import opened ReviewBaseline
  import opened ReviewReports

  /** Two reports whose clean readings agree are interchangeable on either side of the gate. */
  predicate Interchangeable(a: Report, b: Report, expected: set<Slot>) {
    && (ReadsClean(a, expected) <==> ReadsClean(b, expected))
    && (ReadsClean(a, expected) ==> Read(a, expected) == Read(b, expected))
  }

  /** The verdict is the same, and so is the whole result where both are read without complaint. */
  lemma InterchangeableVerdicts(a: Report, b: Report, other: Report, expected: set<Slot>)
    requires Interchangeable(a, b, expected)
    ensures Gate(a, other, expected).success <==> Gate(b, other, expected).success
    ensures Gate(other, a, expected).success <==> Gate(other, b, expected).success
    ensures ReadsClean(a, expected) ==>
              Gate(a, other, expected) == Gate(b, other, expected) && Gate(other, a, expected) == Gate(other, b, expected)
  {
    hide Read, Evaluate, Holding;
    PassMeans(a, other, expected);
    PassMeans(b, other, expected);
    PassMeans(other, a, expected);
    PassMeans(other, b, expected);
  }

  /** Two lists of cases that stand for the same slots with the same results. */
  predicate SameReading(a: seq<Dict<Case>>, b: seq<Dict<Case>>, expected: set<Slot>) {
    && (GoodCases(a, expected) <==> GoodCases(b, expected))
    && (GoodCases(a, expected) ==>
          SlotsOf(a, expected) == SlotsOf(b, expected) && AllResults(a, expected) == AllResults(b, expected))
  }

  lemma SameReadingInterchangeable(report: Report, cases: seq<Dict<Case>>, expected: set<Slot>)
    requires report.baselineKind == Null && report.cases.List? && SameReading(report.cases.items, cases, expected)
    ensures Interchangeable(report, report.(cases := List(cases)), expected)
  {
    hide Read, ReadsClean, GoodCases, SlotsOf, AllResults, TotalsMatch, Holding, Opens;
    var b := report.(cases := List(cases));
    FullRead(report, expected);
    FullRead(b, expected);
    OpensAlike(report, cases);
  }

  lemma OpensAlike(report: Report, cases: seq<Dict<Case>>)
    ensures Opens(report) <==> Opens(report.(cases := List(cases)))
  {
  }

  // ---- the order of cases -----------------------------------------------------

  lemma GoodCasesReordered(a: seq<Dict<Case>>, b: seq<Dict<Case>>, expected: set<Slot>)
    requires multiset(a) == multiset(b) && GoodCases(a, expected)
    ensures GoodCases(b, expected)
  {
    hide GoodCase, CaseSlot;
    SameElements(a, b);
    forall k | 0 <= k < |b| ensures GoodCase(b[k], expected) {
      assert b[k] in a;
    }
    forall i, j | 0 <= i < j < |b| ensures CaseSlot(b[i], expected) != CaseSlot(b[j], expected) {
      if b[i] == b[j] {
        var k, l := TwiceInReordering(b, a, i, j);
        assert CaseSlot(a[k], expected) != CaseSlot(a[l], expected);
      } else {
        assert b[i] in a && b[j] in a;
      }
    }
  }

  lemma SlotsReordered(a: seq<Dict<Case>>, b: seq<Dict<Case>>, expected: set<Slot>)
    requires forall c :: c in a <==> c in b
    ensures SlotsOf(a, expected) <= SlotsOf(b, expected)
  {
    hide CaseSlot;
    forall s | s in SlotsOf(a, expected) ensures s in SlotsOf(b, expected) {
      var k :| 0 <= k < |a| && CaseSlot(a[k], expected).Some? && CaseSlot(a[k], expected).value == s;
      assert a[k] in b;
      var j :| 0 <= j < |b| && b[j] == a[k];
    }
  }

  lemma ResultsReordered(a: seq<Dict<Case>>, b: seq<Dict<Case>>, expected: set<Slot>)
    requires (forall c :: c in a <==> c in b) && GoodCases(a, expected) && GoodCases(b, expected)
    ensures AllResults(a, expected) == AllResults(b, expected)
  {
    hide AllResults, GoodCases, CaseResults;
    var p, q := AllResults(a, expected), AllResults(b, expected);
    forall i ensures (i in p) == (i in q) && (i in p ==> p[i] == q[i]) {
      AllResultsMean(a, expected, i);
      AllResultsMean(b, expected, i);
    }
  }

  /** Reordering the cases of a report never changes how it is read nor any verdict. */
  lemma CaseOrderIrrelevant(report: Report, cases: seq<Dict<Case>>, expected: set<Slot>)
    requires report.baselineKind == Null && report.cases.List?
    requires multiset(report.cases.items) == multiset(cases)
    ensures Interchangeable(report, report.(cases := List(cases)), expected)
  {
    hide Interchangeable, GoodCases, SlotsOf, AllResults;
    var a := report.cases.items;
    SameElements(a, cases);
    if GoodCases(a, expected) { GoodCasesReordered(a, cases, expected); }
    if GoodCases(cases, expected) { GoodCasesReordered(cases, a, expected); }
    SlotsReordered(a, cases, expected);
    SlotsReordered(cases, a, expected);
    if GoodCases(a, expected) { ResultsReordered(a, cases, expected); }
    SameReadingInterchangeable(report, cases, expected);
  }

  // ---- the order of checks ----------------------------------------------------

  lemma GoodListReordered(a: seq<Dict<Check>>, b: seq<Dict<Check>>, slot: Slot)
    requires multiset(a) == multiset(b) && GoodCheckList(a, slot)
    ensures GoodCheckList(b, slot)
  {
    hide IsCheckId;
    SameElements(a, b);
    forall k | 0 <= k < |b| ensures CheckIdentity(b[k], slot).Some? {
      assert b[k] in a;
    }
    forall i, j | 0 <= i < j < |b| ensures b[i].value.name != b[j].value.name {
      if b[i] == b[j] {
        var k, l := TwiceInReordering(b, a, i, j);
      } else {
        assert b[i] in a && b[j] in a;
      }
    }
  }

  lemma ResultsWithin(a: seq<Dict<Check>>, b: seq<Dict<Check>>, slot: Slot, i: Identity)
    requires (forall c :: c in a <==> c in b) && GoodCheckList(a, slot) && GoodCheckList(b, slot)
    ensures i in ResultsOf(a, slot) ==> i in ResultsOf(b, slot) && ResultsOf(b, slot)[i] == ResultsOf(a, slot)[i]
  {
    hide CheckIdentity, GoodCheckList, ResultsOf;
    ResultsKeys(a, slot, i);
    ResultsHold(a, slot);
    ResultsHold(b, slot);
    if i in ResultsOf(a, slot) {
      var k :| 0 <= k < |a| && CheckIdentity(a[k], slot).Some? && CheckIdentity(a[k], slot).value.0 == i;
      assert a[k] in a && a[k] in b;
    }
  }

  lemma ResultsOfReordered(a: seq<Dict<Check>>, b: seq<Dict<Check>>, slot: Slot)
    requires multiset(a) == multiset(b) && GoodCheckList(a, slot) && GoodCheckList(b, slot)
    ensures ResultsOf(a, slot) == ResultsOf(b, slot)
  {
    hide GoodCheckList, ResultsOf;
    SameElements(a, b);
    var p, q := ResultsOf(a, slot), ResultsOf(b, slot);
    forall i ensures (i in p) == (i in q) && (i in p ==> p[i] == q[i]) {
      ResultsWithin(a, b, slot, i);
      ResultsWithin(b, a, slot, i);
    }
  }

  lemma SucceedReordered(a: seq<Dict<Check>>, b: seq<Dict<Check>>, slot: Slot)
    requires multiset(a) == multiset(b)
    ensures AllSucceed(a, slot) <==> AllSucceed(b, slot)
  {
    hide CheckIdentity;
    SameElements(a, b);
  }

  /** Two cases for one slot, equally good, with the same results. */
  predicate SameCase(c: Dict<Case>, d: Dict<Case>, expected: set<Slot>) {
    && CaseSlot(c, expected) == CaseSlot(d, expected)
    && (GoodCase(c, expected) <==> GoodCase(d, expected))
    && (GoodCase(c, expected) ==> CaseResults(c, expected) == CaseResults(d, expected))
  }

  lemma CaseReordered(c: Dict<Case>, checks: seq<Dict<Check>>, expected: set<Slot>)
    requires c.Dict? && c.value.checks.List? && multiset(c.value.checks.items) == multiset(checks)
    ensures SameCase(c, Dict(c.value.(checks := List(checks))), expected)
  {
    hide GoodCheckList, AllSucceed, ResultsOf;
    var before := c.value.checks.items;
    assert before == [] <==> checks == [] by {
      assert |before| == |multiset(before)| && |checks| == |multiset(checks)|;
    }
    if CaseSlot(c, expected).Some? {
      var slot := CaseSlot(c, expected).value;
      SucceedReordered(before, checks, slot);
      if GoodCheckList(before, slot) { GoodListReordered(before, checks, slot); }
      if GoodCheckList(checks, slot) {
        GoodListReordered(checks, before, slot);
        ResultsOfReordered(before, checks, slot);
      }
    }
  }

  lemma {:induction false} SameCasesRead(a: seq<Dict<Case>>, b: seq<Dict<Case>>, expected: set<Slot>)
    requires |a| == |b| && forall k | 0 <= k < |a| :: SameCase(a[k], b[k], expected)
    ensures SameReading(a, b, expected)
    ensures SlotsOf(a, expected) == SlotsOf(b, expected)
  {
    hide GoodCase, CaseSlot, CaseResults, GoodCases, SlotsOf;
    if a == [] {
      NoCasesGood(expected);
    } else {
      assert SameCase(a[0], b[0], expected);
      forall k | 0 <= k < |a[1..]| ensures SameCase(a[1..][k], b[1..][k], expected) {
        assert a[1..][k] == a[k + 1] && b[1..][k] == b[k + 1];
      }
      SameCasesRead(a[1..], b[1..], expected);
      GoodCasesCons(a, expected);
      GoodCasesCons(b, expected);
      SlotsCons(a, expected);
      SlotsCons(b, expected);
    }
  }

  /** Reordering the checks of one case never changes how the report is read nor any verdict. */
  lemma CheckOrderIrrelevant(report: Report, k: nat, checks: seq<Dict<Check>>, expected: set<Slot>)
    requires report.baselineKind == Null && report.cases.List? && k < |report.cases.items|
    requires report.cases.items[k].Dict? && report.cases.items[k].value.checks.List?
    requires multiset(report.cases.items[k].value.checks.items) == multiset(checks)
    ensures var case' := Dict(report.cases.items[k].value.(checks := List(checks)));
            Interchangeable(report, report.(cases := List(report.cases.items[k := case'])), expected)
  {
    hide Interchangeable, GoodCase, CaseSlot, CaseResults, SameReading;
    var a := report.cases.items;
    var b := a[k := Dict(a[k].value.(checks := List(checks)))];
    CaseReordered(a[k], checks, expected);
    SameCasesRead(a, b, expected);
    SameReadingInterchangeable(report, b, expected);
  }
}
