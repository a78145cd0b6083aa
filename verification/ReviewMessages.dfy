/** What the review validator says about any report, message by message, and what it then knows. */
module ReviewMessages {
  import opened Wrappers
  import opened JsonShapes
  import opened ReviewBaseline
  import opened ReviewCompact

  lemma WhenIn(condition: bool, issue: Issue, i: Issue)
    ensures i in When(condition, issue) <==> condition && i == issue
  {
  }

  // ---- the checks of one case -------------------------------------------------

  ghost predicate Bears(check: Dict<Check>, slot: Slot, i: Identity, result: bool) {
    i.slot == slot && IsCheckId(Str(i.checkId)) && check == Dict(Check(Str(i.checkId), Bool(result)))
  }

  lemma CheckMeans(check: Dict<Check>, slot: Slot, i: Identity, result: bool)
    ensures CheckIdentity(check, slot) == Some((i, result)) <==> Bears(check, slot, i, result)
  {
    hide CHECK_PREFIX;
  }

  predicate Malformed(checks: seq<Dict<Check>>, slot: Slot) {
    exists k :: 0 <= k < |checks| && CheckIdentity(checks[k], slot).None?
  }

  predicate Identified(checks: seq<Dict<Check>>, slot: Slot, i: Identity, k: int) {
    0 <= k < |checks| && CheckIdentity(checks[k], slot).Some? && CheckIdentity(checks[k], slot).value.0 == i
  }

  predicate Repeats(checks: seq<Dict<Check>>, slot: Slot) {
    exists j, k :: 0 <= j < k < |checks| && CheckIdentity(checks[j], slot).Some? && CheckIdentity(checks[k], slot).Some?
                   && CheckIdentity(checks[j], slot).value.0 == CheckIdentity(checks[k], slot).value.0
  }

  /** The first check of an identity gives its result. */
  ghost predicate Results(checks: seq<Dict<Check>>, slot: Slot, i: Identity, result: bool) {
    exists k :: Identified(checks, slot, i, k) && CheckIdentity(checks[k], slot).value.1 == result
                && forall j | 0 <= j < k :: !Identified(checks, slot, i, j)
  }

  ghost predicate Named(checks: seq<Dict<Check>>, slot: Slot, i: Identity) {
    exists k :: Identified(checks, slot, i, k)
  }

  lemma ChecksSnoc(done: seq<Dict<Check>>, c: Dict<Check>, slot: Slot)
    ensures var all, found := done + [c], CheckIdentity(c, slot);
            && (Malformed(all, slot) <==> Malformed(done, slot) || found.None?)
            && (Repeats(all, slot) <==> Repeats(done, slot) || (found.Some? && Named(done, slot, found.value.0)))
  {
    hide CheckIdentity;
    var all, found := done + [c], CheckIdentity(c, slot);
    assert all[|done|] == c && forall k | 0 <= k < |done| :: all[k] == done[k];
    if found.Some? {
      if k :| Identified(done, slot, found.value.0, k) {
        assert CheckIdentity(all[k], slot).value.0 == CheckIdentity(all[|done|], slot).value.0;
      }
      if j :| 0 <= j < |done| && CheckIdentity(done[j], slot).Some? && CheckIdentity(done[j], slot).value.0 == found.value.0 {
        assert Identified(done, slot, found.value.0, j);
      }
    }
  }

  lemma ResultsSnoc(done: seq<Dict<Check>>, c: Dict<Check>, slot: Slot, i: Identity, result: bool)
    ensures var all, found := done + [c], CheckIdentity(c, slot);
            && (Named(all, slot, i) <==> Named(done, slot, i) || (found.Some? && found.value.0 == i))
            && (Results(all, slot, i, result) <==>
                  Results(done, slot, i, result) || (!Named(done, slot, i) && found == Some((i, result))))
  {
    hide CheckIdentity;
    var all, found := done + [c], CheckIdentity(c, slot);
    assert all[|done|] == c && forall k | 0 <= k < |done| :: all[k] == done[k];
    assert forall k | 0 <= k < |done| :: Identified(all, slot, i, k) <==> Identified(done, slot, i, k);
    assert Identified(all, slot, i, |done|) <==> found.Some? && found.value.0 == i;
  }

  ghost predicate CheckComplaint(checks: seq<Dict<Check>>, slot: Slot, issue: Issue) {
    (issue == MalformedCheck && Malformed(checks, slot)) || (issue == DuplicateCheck && Repeats(checks, slot))
  }

  /** The results recorded for a slot are those of the given checks, and the flag is their conjunction. */
  ghost predicate Holds(checks: seq<Dict<Check>>, slot: Slot, success: bool, r: Reading) {
    RecordsThem(checks, slot, r.checks) && NamesThem(checks, slot, r.checks) && success == NoneFails(checks, slot)
  }

  ghost predicate RecordsThem(checks: seq<Dict<Check>>, slot: Slot, known: Checks) {
    forall i: Identity, result | i.slot == slot :: Has(known, i, result) <==> Results(checks, slot, i, result)
  }

  ghost predicate NamesThem(checks: seq<Dict<Check>>, slot: Slot, known: Checks) {
    forall i: Identity | i.slot == slot :: i in known <==> Named(checks, slot, i)
  }

  ghost predicate NoneFails(checks: seq<Dict<Check>>, slot: Slot) {
    forall i :: !Results(checks, slot, i, false)
  }

  predicate OthersSame(slot: Slot, a: Checks, b: Checks) {
    (forall i | i in a && i.slot != slot :: i in b && b[i] == a[i]) && (forall i | i in b && i.slot != slot :: i in a)
  }

  lemma {:induction false} ChecksReported(
    done: seq<Dict<Check>>, rest: seq<Dict<Check>>, slot: Slot, success: bool, r: Reading, issue: Issue)
    requires Holds(done, slot, success, r) && (CheckComplaint(done, slot, issue) ==> issue in r.issues)
    ensures var out := ReadChecks(rest, slot, success, r);
            && Holds(done + rest, slot, out.1, out.0)
            && (issue in out.0.issues <==> issue in r.issues || CheckComplaint(done + rest, slot, issue))
            && out.0.observed == r.observed && OthersSame(slot, r.checks, out.0.checks)
    decreases |rest|
  {
    hide CheckIdentity, Holds, Malformed, Repeats, Named;
    if rest == [] {
      assert done + rest == done;
    } else {
      var c := rest[0];
      assert done + rest == done + [c] + rest[1..];
      ChecksSnoc(done, c, slot);
      HoldsSnoc(done, c, slot, success, r);
      ComplaintGrows(done + [c], rest[1..], slot, issue);
      match CheckIdentity(c, slot)
      case None =>
        ChecksReported(done + [c], rest[1..], slot, success, Note(r, [MalformedCheck]), issue);
      case Some(found) =>
        if found.0 in r.checks {
          ChecksReported(done + [c], rest[1..], slot, success, Note(r, [DuplicateCheck]), issue);
        } else {
          ChecksReported(done + [c], rest[1..], slot, success && found.1, r.(checks := r.checks[found.0 := found.1]), issue);
        }
    }
  }

  lemma {:induction false} ComplaintGrows(a: seq<Dict<Check>>, b: seq<Dict<Check>>, slot: Slot, issue: Issue)
    ensures CheckComplaint(a, slot, issue) ==> CheckComplaint(a + b, slot, issue)
    decreases |b|
  {
    hide CheckIdentity, Malformed, Repeats, Named;
    if b == [] {
      assert a + b == a;
    } else {
      var n := |b| - 1;
      assert a + b == a + b[..n] + [b[n]];
      ComplaintGrows(a, b[..n], slot, issue);
      ChecksSnoc(a + b[..n], b[n], slot);
    }
  }

  lemma HoldsSnoc(done: seq<Dict<Check>>, c: Dict<Check>, slot: Slot, success: bool, r: Reading)
    requires Holds(done, slot, success, r)
    ensures var found := CheckIdentity(c, slot);
            && (found.None? ==> Holds(done + [c], slot, success, Note(r, [MalformedCheck])))
            && (found.Some? ==>
                  && found.value.0.slot == slot
                  && (found.value.0 in r.checks <==> Named(done, slot, found.value.0))
                  && (found.value.0 in r.checks ==> Holds(done + [c], slot, success, Note(r, [DuplicateCheck])))
                  && (found.value.0 !in r.checks ==>
                        Holds(done + [c], slot, success && found.value.1,
                              r.(checks := r.checks[found.value.0 := found.value.1]))))
  {
    var found := CheckIdentity(c, slot);
    assert found.Some? ==> found.value.0.slot == slot;
    hide CheckIdentity, Named, RecordsThem, NoneFails;
    if found.Some? && found.value.0 !in r.checks {
      var (i, result) := found.value;
      RecordedNew(done, c, slot, r.checks);
      FailsNew(done, c, slot);
      NamedNew(done, c, slot, r.checks, r.checks[i := result]);
    } else {
      RecordedOld(done, c, slot, r.checks);
      NamedNew(done, c, slot, r.checks, r.checks);
    }
  }

  lemma RecordedOld(done: seq<Dict<Check>>, c: Dict<Check>, slot: Slot, known: Checks)
    requires RecordsThem(done, slot, known)
    requires CheckIdentity(c, slot).Some? ==> Named(done, slot, CheckIdentity(c, slot).value.0)
    ensures RecordsThem(done + [c], slot, known) && NoneFails(done + [c], slot) == NoneFails(done, slot)
  {
    hide CheckIdentity, Results, Named, Has;
    forall i, result ensures Results(done + [c], slot, i, result) <==> Results(done, slot, i, result) {
      ResultsSnoc(done, c, slot, i, result);
    }
  }

  lemma RecordedNew(done: seq<Dict<Check>>, c: Dict<Check>, slot: Slot, known: Checks)
    requires CheckIdentity(c, slot).Some? && RecordsThem(done, slot, known)
    requires CheckIdentity(c, slot).value.0 !in known && !Named(done, slot, CheckIdentity(c, slot).value.0)
    ensures var found := CheckIdentity(c, slot).value; RecordsThem(done + [c], slot, known[found.0 := found.1])
  {
    var found := CheckIdentity(c, slot).value;
    var next := known[found.0 := found.1];
    forall i, result ensures Has(next, i, result) <==> Has(known, i, result) || found == (i, result) { }
    hide CheckIdentity, Results, Named, Has;
    forall i: Identity, result | i.slot == slot ensures Has(next, i, result) <==> Results(done + [c], slot, i, result) {
      ResultsSnoc(done, c, slot, i, result);
    }
  }

  lemma FailsNew(done: seq<Dict<Check>>, c: Dict<Check>, slot: Slot)
    requires CheckIdentity(c, slot).Some? && !Named(done, slot, CheckIdentity(c, slot).value.0)
    ensures NoneFails(done + [c], slot) == (NoneFails(done, slot) && CheckIdentity(c, slot).value.1)
  {
    hide CheckIdentity, Results, Named;
    var found := CheckIdentity(c, slot).value;
    forall i ensures Results(done + [c], slot, i, false) <==> Results(done, slot, i, false) || found == (i, false) {
      ResultsSnoc(done, c, slot, i, false);
    }
    if !found.1 {
      assert Results(done + [c], slot, found.0, false);
    }
  }

  lemma NamedNew(done: seq<Dict<Check>>, c: Dict<Check>, slot: Slot, known: Checks, next: Checks)
    requires NamesThem(done, slot, known)
    requires forall i :: i in next <==> i in known || (CheckIdentity(c, slot).Some? && CheckIdentity(c, slot).value.0 == i)
    ensures NamesThem(done + [c], slot, next)
  {
    hide CheckIdentity, Results, Named;
    forall i: Identity | i.slot == slot ensures i in next <==> Named(done + [c], slot, i) {
      ResultsSnoc(done, c, slot, i, true);
    }
  }

  // ---- the cases --------------------------------------------------------------

  predicate Stands(c: Dict<Case>, slot: Slot) {
    c.Dict? && c.value.mode == Str(slot.mode) && c.value.transport == Str(slot.transport)
  }

  lemma SlotMeans(c: Dict<Case>, expected: set<Slot>, slot: Slot)
    ensures CaseSlot(c, expected) == Some(slot) <==> Stands(c, slot) && slot in expected
  {
    assert slot == Slot(slot.mode, slot.transport);
  }

  predicate FirstFor(cases: seq<Dict<Case>>, slot: Slot, k: int) {
    0 <= k < |cases| && Stands(cases[k], slot) && forall j | 0 <= j < k :: !Stands(cases[j], slot)
  }

  predicate Filled(cases: seq<Dict<Case>>, slot: Slot) {
    exists k :: 0 <= k < |cases| && Stands(cases[k], slot)
  }

  predicate HasChecks(c: Case) {
    c.checks.List? && c.checks.items != []
  }

  /** Its verdict is that no identity's first result is a failure. */
  ghost predicate Verdict(c: Case, slot: Slot)
    requires HasChecks(c)
  {
    c.success == Bool(NoneFails(c.checks.items, slot))
  }

  ghost predicate OwnComplaint(c: Dict<Case>, slot: Slot, issue: Issue) {
    && c.Dict?
    && if !HasChecks(c.value) then issue == NoChecks(slot)
       else
         CheckComplaint(c.value.checks.items, slot, issue) || (issue == WrongCaseSuccess(slot) && !Verdict(c.value, slot))
  }

  predicate Unexpected(c: Dict<Case>, expected: set<Slot>) {
    c.Dict? && CaseSlot(c, expected).None?
  }

  predicate HasNoCase(cases: seq<Dict<Case>>) {
    exists k :: 0 <= k < |cases| && cases[k].NotDict?
  }

  predicate HasUnexpected(cases: seq<Dict<Case>>, expected: set<Slot>) {
    exists k :: 0 <= k < |cases| && Unexpected(cases[k], expected)
  }

  predicate Doubled(cases: seq<Dict<Case>>, slot: Slot) {
    exists j, k :: 0 <= j < k < |cases| && Stands(cases[j], slot) && Stands(cases[k], slot)
  }

  ghost predicate FirstComplaint(cases: seq<Dict<Case>>, slot: Slot, issue: Issue) {
    exists k :: FirstFor(cases, slot, k) && OwnComplaint(cases[k], slot, issue)
  }

  ghost predicate CaseComplaint(cases: seq<Dict<Case>>, expected: set<Slot>, issue: Issue) {
    || (issue == MalformedCase && HasNoCase(cases))
    || (issue == UnexpectedCase && HasUnexpected(cases, expected))
    || (exists slot | slot in expected :: (issue == DuplicateCase && Doubled(cases, slot)) || FirstComplaint(cases, slot, issue))
  }

  ghost predicate LastComplaint(done: seq<Dict<Case>>, c: Dict<Case>, expected: set<Slot>, issue: Issue) {
    || (issue == MalformedCase && c.NotDict?)
    || (issue == UnexpectedCase && Unexpected(c, expected))
    || (exists slot | slot in expected ::
          Stands(c, slot) && if Filled(done, slot) then issue == DuplicateCase else OwnComplaint(c, slot, issue))
  }

  lemma CaseComplaintSnoc(done: seq<Dict<Case>>, c: Dict<Case>, expected: set<Slot>, issue: Issue)
    ensures CaseComplaint(done + [c], expected, issue) <==>
              CaseComplaint(done, expected, issue) || LastComplaint(done, c, expected, issue)
  {
    hide Stands, Unexpected, OwnComplaint, HasNoCase, HasUnexpected, Doubled, FirstComplaint, Filled;
    OddSnoc(done, c, expected);
    forall slot
      ensures Doubled(done + [c], slot) <==> Doubled(done, slot) || (Stands(c, slot) && Filled(done, slot))
      ensures FirstComplaint(done + [c], slot, issue) <==>
                FirstComplaint(done, slot, issue) || (Stands(c, slot) && !Filled(done, slot) && OwnComplaint(c, slot, issue))
    {
      DoubledSnoc(done, c, slot);
      FirstSnoc(done, c, slot, issue);
    }
  }

  lemma OddSnoc(done: seq<Dict<Case>>, c: Dict<Case>, expected: set<Slot>)
    ensures HasNoCase(done + [c]) <==> HasNoCase(done) || c.NotDict?
    ensures HasUnexpected(done + [c], expected) <==> HasUnexpected(done, expected) || Unexpected(c, expected)
  {
    hide Unexpected;
    var all := done + [c];
    assert all[|done|] == c && forall k | 0 <= k < |done| :: all[k] == done[k];
  }

  lemma DoubledSnoc(done: seq<Dict<Case>>, c: Dict<Case>, slot: Slot)
    ensures Doubled(done + [c], slot) <==> Doubled(done, slot) || (Stands(c, slot) && Filled(done, slot))
  {
    hide Stands;
    var all := done + [c];
    assert all[|done|] == c && forall k | 0 <= k < |done| :: all[k] == done[k];
    if j, k :| 0 <= j < k < |all| && Stands(all[j], slot) && Stands(all[k], slot) {
      assert Stands(done[j], slot);
      if k < |done| { assert Stands(done[k], slot); }
    }
    if j, k :| 0 <= j < k < |done| && Stands(done[j], slot) && Stands(done[k], slot) {
      assert Stands(all[j], slot) && Stands(all[k], slot);
    }
    if j :| 0 <= j < |done| && Stands(done[j], slot) {
      assert Stands(all[j], slot) && (Stands(c, slot) ==> Stands(all[|done|], slot));
    }
  }

  lemma FirstAt(done: seq<Dict<Case>>, c: Dict<Case>, slot: Slot, k: int)
    ensures FirstFor(done + [c], slot, k) <==> FirstFor(done, slot, k) || (k == |done| && Stands(c, slot) && !Filled(done, slot))
  {
    hide Stands;
    var all := done + [c];
    assert all[|done|] == c && forall j | 0 <= j < |done| :: all[j] == done[j];
  }

  lemma FirstSnoc(done: seq<Dict<Case>>, c: Dict<Case>, slot: Slot, issue: Issue)
    ensures FirstComplaint(done + [c], slot, issue) <==>
              FirstComplaint(done, slot, issue) || (Stands(c, slot) && !Filled(done, slot) && OwnComplaint(c, slot, issue))
  {
    hide Stands, OwnComplaint, Filled;
    var all := done + [c];
    assert all[|done|] == c && forall j | 0 <= j < |done| :: all[j] == done[j];
    forall k ensures FirstFor(all, slot, k) <==> FirstFor(done, slot, k) || (k == |done| && Stands(c, slot) && !Filled(done, slot)) {
      FirstAt(done, c, slot, k);
    }
  }

  /** The reading knows the required slots of the cases, and the results of the first case of each. */
  ghost predicate Knows(cases: seq<Dict<Case>>, expected: set<Slot>, r: Reading) {
    && (forall slot :: slot in r.observed <==> slot in expected && Filled(cases, slot))
    && (forall i, result :: Has(r.checks, i, result) <==> Reports(cases, expected, i, result))
    && (forall i | i in r.checks :: i.slot in r.observed)
  }

  ghost predicate Reports(cases: seq<Dict<Case>>, expected: set<Slot>, i: Identity, result: bool) {
    exists k :: i.slot in expected && FirstFor(cases, i.slot, k) && Gives(cases[k], i, result)
  }

  ghost predicate Gives(c: Dict<Case>, i: Identity, result: bool) {
    c.Dict? && HasChecks(c.value) && Results(c.value.checks.items, i.slot, i, result)
  }

  lemma KnowsSnoc(done: seq<Dict<Case>>, c: Dict<Case>, expected: set<Slot>, i: Identity, result: bool)
    ensures Filled(done + [c], i.slot) <==> Filled(done, i.slot) || Stands(c, i.slot)
    ensures Reports(done + [c], expected, i, result) <==>
              || Reports(done, expected, i, result)
              || (i.slot in expected && Stands(c, i.slot) && !Filled(done, i.slot) && Gives(c, i, result))
  {
    hide Stands, Gives;
    var all := done + [c];
    assert all[|done|] == c && forall k | 0 <= k < |done| :: all[k] == done[k];
    forall k ensures FirstFor(all, i.slot, k) <==> FirstFor(done, i.slot, k) || (k == |done| && Stands(c, i.slot) && !Filled(done, i.slot)) {
      FirstAt(done, c, i.slot, k);
    }
    if k :| i.slot in expected && FirstFor(done, i.slot, k) && Gives(done[k], i, result) {
      assert FirstFor(all, i.slot, k) && all[k] == done[k];
    }
    if i.slot in expected && Stands(c, i.slot) && !Filled(done, i.slot) && Gives(c, i, result) {
      assert FirstFor(all, i.slot, |done|);
    }
  }

  /** Reading a case of a new slot. */
  lemma NewCase(c: Dict<Case>, expected: set<Slot>, slot: Slot, r: Reading, issue: Issue)
    requires CaseSlot(c, expected) == Some(slot) && slot !in r.observed
    requires forall i | i in r.checks :: i.slot in r.observed
    ensures var out := ReadCase(c, expected, r);
            && out.observed == r.observed + {slot}
            && (issue in out.issues <==> issue in r.issues || OwnComplaint(c, slot, issue))
            && (forall i, result :: Has(out.checks, i, result) <==>
                  Has(r.checks, i, result) || (i.slot == slot && Gives(c, i, result)))
  {
    hide CaseSlot, ReadChecks, Results, CheckComplaint;
    var r' := r.(observed := r.observed + {slot});
    if HasChecks(c.value) {
      var checks := c.value.checks.items;
      NothingHeld(slot, r', issue);
      ChecksReported([], checks, slot, true, r', issue);
      assert [] + checks == checks;
      var out := ReadChecks(checks, slot, true, r');
      WhenIn(c.value.success != Bool(out.1), WrongCaseSuccess(slot), issue);
      SameElsewhere(checks, slot, r', out);
    }
  }

  lemma SameElsewhere(checks: seq<Dict<Check>>, slot: Slot, r: Reading, out: (Reading, bool))
    requires Holds(checks, slot, out.1, out.0) && OthersSame(slot, r.checks, out.0.checks)
    requires forall i | i in r.checks :: i.slot != slot
    ensures forall i, result :: Has(out.0.checks, i, result) <==>
              Has(r.checks, i, result) || (i.slot == slot && Results(checks, slot, i, result))
  {
    hide Results, Named;
  }

  lemma NothingHeld(slot: Slot, r: Reading, issue: Issue)
    requires forall i | i in r.checks :: i.slot != slot
    ensures Holds([], slot, true, r) && !CheckComplaint([], slot, issue)
  {
  }

  lemma CaseKnown(done: seq<Dict<Case>>, c: Dict<Case>, expected: set<Slot>, r: Reading)
    requires Knows(done, expected, r)
    ensures Knows(done + [c], expected, ReadCase(c, expected, r))
  {
    hide Filled, Reports, Gives, Stands, CaseSlot, OwnComplaint;
    forall i, result
      ensures Reports(done + [c], expected, i, result) <==>
                || Reports(done, expected, i, result)
                || (i.slot in expected && Stands(c, i.slot) && !Filled(done, i.slot) && Gives(c, i, result))
    {
      KnowsSnoc(done, c, expected, i, result);
    }
    forall slot ensures Filled(done + [c], slot) <==> Filled(done, slot) || Stands(c, slot) {
      KnowsSnoc(done, c, expected, Identity(slot, ""), true);
    }
    forall slot ensures CaseSlot(c, expected) == Some(slot) <==> Stands(c, slot) && slot in expected {
      SlotMeans(c, expected, slot);
    }
    var out := ReadCase(c, expected, r);
    if CaseSlot(c, expected).Some? && CaseSlot(c, expected).value !in r.observed {
      var slot := CaseSlot(c, expected).value;
      NewCase(c, expected, slot, r, NoCases);
      hide ReadCase;
      forall i | i in out.checks ensures i.slot in out.observed {
        assert Has(out.checks, i, out.checks[i]);
      }
    }
  }

  lemma CaseReported(done: seq<Dict<Case>>, c: Dict<Case>, expected: set<Slot>, r: Reading, issue: Issue)
    requires Knows(done, expected, r)
    ensures issue in ReadCase(c, expected, r).issues <==> issue in r.issues || LastComplaint(done, c, expected, issue)
  {
    hide Filled, Reports, Stands, OwnComplaint, CaseSlot, ReadChecks;
    forall slot ensures CaseSlot(c, expected) == Some(slot) <==> Stands(c, slot) && slot in expected {
      SlotMeans(c, expected, slot);
    }
    if CaseSlot(c, expected).Some? && CaseSlot(c, expected).value !in r.observed {
      NewCase(c, expected, CaseSlot(c, expected).value, r, issue);
    }
  }

  lemma {:induction false} CasesReported(
    done: seq<Dict<Case>>, rest: seq<Dict<Case>>, expected: set<Slot>, r: Reading, issue: Issue)
    requires Knows(done, expected, r) && (CaseComplaint(done, expected, issue) ==> issue in r.issues)
    ensures var out := ReadCases(rest, expected, r);
            && Knows(done + rest, expected, out)
            && (issue in out.issues <==> issue in r.issues || CaseComplaint(done + rest, expected, issue))
    decreases |rest|
  {
    hide Knows, CaseComplaint, LastComplaint, ReadCase;
    if rest == [] {
      assert done + rest == done;
    } else {
      var c := rest[0];
      assert done + rest == done + [c] + rest[1..];
      CaseKnown(done, c, expected, r);
      CaseReported(done, c, expected, r, issue);
      CaseComplaintSnoc(done, c, expected, issue);
      CasesReported(done + [c], rest[1..], expected, ReadCase(c, expected, r), issue);
      CaseComplaintGrows(done + [c], rest[1..], expected, issue);
    }
  }

  lemma {:induction false} CaseComplaintGrows(a: seq<Dict<Case>>, b: seq<Dict<Case>>, expected: set<Slot>, issue: Issue)
    ensures CaseComplaint(a, expected, issue) ==> CaseComplaint(a + b, expected, issue)
    decreases |b|
  {
    hide CaseComplaint, LastComplaint;
    if b == [] {
      assert a + b == a;
    } else {
      var n := |b| - 1;
      assert a + b == a + b[..n] + [b[n]];
      CaseComplaintGrows(a, b[..n], expected, issue);
      CaseComplaintSnoc(a + b[..n], b[n], expected, issue);
    }
  }

  // ---- opening and closing ----------------------------------------------------

  predicate OpeningComplaint(report: Report, issue: Issue) {
    || (issue == WrongSchema && !EqualsInt(report.schemaVersion, 1))
    || (issue == WrongReviewer && report.reviewer != Str("sofia-mcp-regression-suite"))
    || (issue == WrongModes
        && (if report.baselineKind == Null then report.modes else report.requiredModes)
           != List([Str("2025-06-18"), Str("2025-11-25"), Str("2026-07-28")]))
  }

  lemma OpeningMessages(report: Report, issue: Issue)
    ensures issue in OpeningIssues(report) <==> OpeningComplaint(report, issue)
  {
    hide When;
    assert Strs(REVIEW_MODES) == [Str("2025-06-18"), Str("2025-11-25"), Str("2026-07-28")];
    WhenIn(!EqualsInt(report.schemaVersion, REVIEW_SCHEMA_VERSION), WrongSchema, issue);
    WhenIn(report.reviewer != Str(REVIEWER), WrongReviewer, issue);
    WhenIn((if report.baselineKind != Null then report.requiredModes else report.modes) != List(Strs(REVIEW_MODES)),
           WrongModes, issue);
  }

  ghost predicate Collects(identities: set<Identity>, checks: Checks, result: bool) {
    forall i :: i in identities <==> Has(checks, i, result)
  }

  /** The observed slots with a passing check and no failing one. */
  ghost predicate Passed(slots: set<Slot>, observed: set<Slot>, checks: Checks) {
    forall slot :: slot in slots <==>
      && slot in observed && (exists i :: Has(checks, i, true) && i.slot == slot)
      && forall i | Has(checks, i, false) :: i.slot != slot
  }

  predicate TotalsAre(summary: Summary, passing: nat, failing: nat, passed: nat, observed: nat) {
    && EqualsInt(summary.passed, passing) && EqualsInt(summary.failed, failing)
    && EqualsInt(summary.total, passing + failing)
    && EqualsInt(summary.casesPassed, passed) && EqualsInt(summary.casesTotal, observed)
  }

  /** The five totals, by what they count. */
  ghost predicate Counted(summary: Summary, observed: set<Slot>, checks: Checks) {
    exists passing, failing, passed ::
      && Collects(passing, checks, true) && Collects(failing, checks, false) && Passed(passed, observed, checks)
      && TotalsAre(summary, |passing|, |failing|, |passed|, |observed|)
  }

  lemma Collected(checks: Checks, result: bool, identities: set<Identity>)
    ensures Collects(identities, checks, result) <==> identities == Holding(checks, result)
  {
    var held := Holding(checks, result);
    forall i ensures i in held <==> Has(checks, i, result) { }
    if Collects(identities, checks, result) {
      forall i ensures i in held <==> i in identities { }
    }
  }

  function PassedSlots(observed: set<Slot>, checks: Checks): set<Slot> {
    set s | s in observed && CasePassed(checks, s)
  }

  lemma TotalsAgree(summary: Dict<Summary>, observed: set<Slot>, checks: Checks)
    ensures TotalsMatch(summary, observed, checks) <==>
              summary.Dict? && TotalsAre(summary.value, |Holding(checks, true)|, |Holding(checks, false)|,
                                         |PassedSlots(observed, checks)|, |observed|)
  {
    AllHeld(checks);
    hide EqualsInt, CasePassed, Holding;
  }

  lemma PassedCollected(observed: set<Slot>, checks: Checks, slots: set<Slot>)
    ensures Passed(slots, observed, checks) <==> slots == PassedSlots(observed, checks)
  {
    hide CasePassed;
    var passed := PassedSlots(observed, checks);
    forall slot
      ensures slot in passed <==>
                && slot in observed && (exists i :: Has(checks, i, true) && i.slot == slot)
                && forall i | Has(checks, i, false) :: i.slot != slot
    {
      PassedMeans(checks, slot);
    }
    if Passed(slots, observed, checks) {
      forall slot ensures slot in passed <==> slot in slots { }
    }
  }

  lemma AllHeld(checks: Checks)
    ensures |Holding(checks, true)| + |Holding(checks, false)| == |checks|
  {
    var passing, failing := Holding(checks, true), Holding(checks, false);
    assert passing !! failing && passing + failing == checks.Keys;
    assert |checks.Keys| == |checks|;
  }

  lemma TotalsMean(summary: Dict<Summary>, observed: set<Slot>, checks: Checks)
    ensures TotalsMatch(summary, observed, checks) <==> summary.Dict? && Counted(summary.value, observed, checks)
  {
    hide Collects, Passed, PassedSlots, Holding, TotalsMatch, TotalsAre;
    var passing, failing, passed := Holding(checks, true), Holding(checks, false), PassedSlots(observed, checks);
    TotalsAgree(summary, observed, checks);
    Collected(checks, true, passing);
    Collected(checks, false, failing);
    PassedCollected(observed, checks, passed);
    if summary.Dict? && Counted(summary.value, observed, checks) {
      var p, f, s :| Collects(p, checks, true) && Collects(f, checks, false) && Passed(s, observed, checks)
                     && TotalsAre(summary.value, |p|, |f|, |s|, |observed|);
      Collected(checks, true, p);
      Collected(checks, false, f);
      PassedCollected(observed, checks, s);
    }
  }

  lemma PassedMeans(checks: Checks, slot: Slot)
    ensures CasePassed(checks, slot) <==>
              (exists i :: Has(checks, i, true) && i.slot == slot) && forall i | Has(checks, i, false) :: i.slot != slot
  {
    if CasePassed(checks, slot) {
      var i :| i in checks && i.slot == slot;
      assert Has(checks, i, true);
    }
    if (exists i :: Has(checks, i, true) && i.slot == slot) && forall i | Has(checks, i, false) :: i.slot != slot {
      forall i | i in checks && i.slot == slot ensures checks[i] {
        assert !Has(checks, i, false);
      }
    }
  }

  ghost predicate ClosingComplaint(report: Report, expected: set<Slot>, r: Reading, issue: Issue) {
    || (issue.MissingCase? && issue.slot in expected && issue.slot !in r.observed)
    || (issue.SurplusCase? && issue.slot in r.observed && issue.slot !in expected)
    || (issue == WrongTotals && !(report.summary.Dict? && Counted(report.summary.value, r.observed, r.checks)))
    || (issue == WrongSuccess && report.baselineKind == Null
        && report.success != Bool(r.observed != {} && forall i :: !Has(r.checks, i, false)))
  }

  lemma ClosingMessages(report: Report, expected: set<Slot>, r: Reading, issue: Issue)
    ensures issue in ClosingIssues(report, expected, r) <==> ClosingComplaint(report, expected, r, issue)
  {
    hide When, TotalsMatch, Counted, Slots;
    TotalsMean(report.summary, r.observed, r.checks);
    WhenIn(!TotalsMatch(report.summary, r.observed, r.checks), WrongTotals, issue);
    assert Holding(r.checks, false) == {} <==> forall i :: !Has(r.checks, i, false) by {
      forall i ensures i in Holding(r.checks, false) <==> Has(r.checks, i, false) { }
    }
    WhenIn(report.baselineKind == Null && report.success != Bool(r.observed != {} && Holding(r.checks, false) == {}),
           WrongSuccess, issue);
    MissingListed(Slots(expected - r.observed), issue);
    SurplusListed(Slots(r.observed - expected), issue);
  }

  lemma MissingListed(slots: seq<Slot>, issue: Issue)
    ensures issue in MissingIssues(slots) <==> issue.MissingCase? && issue.slot in slots
  {
    var issues := MissingIssues(slots);
    if issue.MissingCase? && issue.slot in slots {
      var k :| 0 <= k < |slots| && slots[k] == issue.slot;
      assert issues[k] == issue;
    }
  }

  lemma SurplusListed(slots: seq<Slot>, issue: Issue)
    ensures issue in SurplusIssues(slots) <==> issue.SurplusCase? && issue.slot in slots
  {
    var issues := SurplusIssues(slots);
    if issue.SurplusCase? && issue.slot in slots {
      var k :| 0 <= k < |slots| && slots[k] == issue.slot;
      assert issues[k] == issue;
    }
  }

  function CaseList(report: Report): seq<Dict<Case>> {
    if report.cases.List? then report.cases.items else []
  }

  /** A full report gets exactly the messages it deserves, and is known by the first case of each required slot. */
  lemma FullReported(report: Report, expected: set<Slot>, issue: Issue)
    requires report.baselineKind == Null
    ensures var r := Read(report, expected);
            && Knows(CaseList(report), expected, r)
            && (issue in r.issues <==>
                  || OpeningComplaint(report, issue)
                  || (issue == NoCases && report.cases.NotList?)
                  || CaseComplaint(CaseList(report), expected, issue)
                  || ClosingComplaint(report, expected, r, issue))
  {
    hide OpeningIssues, ClosingIssues, ReadCases, Knows, CaseComplaint, OpeningComplaint, When;
    var start := Reading(OpeningIssues(report), {}, map[]);
    var begun := Note(start, When(report.cases.NotList?, NoCases));
    var cases := CaseList(report);
    OpeningMessages(report, issue);
    WhenIn(report.cases.NotList?, NoCases, issue);
    NothingKnown(expected, begun, issue);
    CasesReported([], cases, expected, begun, issue);
    assert [] + cases == cases;
    var r := ReadCases(cases, expected, begun);
    ClosingMessages(report, expected, r, issue);
    SameKnowledge(cases, expected, r, Read(report, expected));
  }

  lemma SameKnowledge(cases: seq<Dict<Case>>, expected: set<Slot>, r: Reading, s: Reading)
    requires Knows(cases, expected, r) && r.observed == s.observed && r.checks == s.checks
    ensures Knows(cases, expected, s)
  {
    hide Filled, Reports;
  }

  lemma NothingKnown(expected: set<Slot>, r: Reading, issue: Issue)
    requires r.observed == {} && r.checks == map[]
    ensures Knows([], expected, r) && !CaseComplaint([], expected, issue)
  {
    hide OwnComplaint, Gives;
  }
}
