/** What the review validator says about any compact baseline, message by message, and what it then knows. */
module ReviewCompactMessages {
  import opened Wrappers
  import opened JsonShapes
  import opened ReviewBaseline
  import opened ReviewCompact
  import opened ReviewMessages

  // ---- required cases ---------------------------------------------------------

  predicate AnyBadRef(refs: seq<Dict<CaseRef>>) {
    exists k :: 0 <= k < |refs| && !GoodRef(refs[k])
  }

  /** Two refer to the same case, or one to a case observed before. */
  ghost predicate RefersAgain(refs: seq<Dict<CaseRef>>, observed: set<Slot>) {
    || (exists slot :: slot in observed && Referred(refs, slot))
    || (exists j, k :: 0 <= j < k < |refs| && refs[j] == refs[k] && GoodRef(refs[j]))
  }

  ghost predicate RefComplaint(refs: seq<Dict<CaseRef>>, observed: set<Slot>, issue: Issue) {
    (issue == MalformedCase && AnyBadRef(refs)) || (issue == DuplicateCase && RefersAgain(refs, observed))
  }

  lemma BadRefCons(refs: seq<Dict<CaseRef>>)
    requires refs != []
    ensures AnyBadRef(refs) <==> !GoodRef(refs[0]) || AnyBadRef(refs[1..])
  {
    hide GoodRef;
    var rest := refs[1..];
    assert forall k | 0 < k < |refs| :: refs[k] == rest[k - 1];
    assert forall k | 0 <= k < |rest| :: rest[k] == refs[k + 1];
  }

  lemma AgainCons(refs: seq<Dict<CaseRef>>, observed: set<Slot>)
    requires refs != [] && GoodRef(refs[0])
    ensures RefersAgain(refs, observed) <==> RefSlot(refs[0]) in observed || RefersAgain(refs[1..], observed + {RefSlot(refs[0])})
  {
    hide Referred;
    var rest, slot := refs[1..], RefSlot(refs[0]);
    forall s ensures Referred(refs, s) <==> s == slot || Referred(rest, s) { ReferredCons(refs, s); }
    ReferredAgain(refs);
    if j, k :| 0 <= j < k < |refs| && refs[j] == refs[k] && GoodRef(refs[j]) {
      if j == 0 {
        assert Referred(rest, slot);
      } else {
        assert rest[j - 1] == rest[k - 1] && GoodRef(rest[j - 1]);
      }
    }
    if j, k :| 0 <= j < k < |rest| && rest[j] == rest[k] && GoodRef(rest[j]) {
      assert refs[j + 1] == refs[k + 1] && GoodRef(refs[j + 1]);
    }
    assert Referred(rest, slot) ==> RefersAgain(refs, observed);
  }

  lemma ReferredAgain(refs: seq<Dict<CaseRef>>)
    requires refs != [] && GoodRef(refs[0])
    ensures Referred(refs[1..], RefSlot(refs[0])) <==> exists k :: 0 < k < |refs| && refs[0] == refs[k]
  {
    if k :| 0 <= k < |refs[1..]| && Refers(refs[1..][k], RefSlot(refs[0])) {
      assert refs[k + 1] == refs[1..][k];
    }
    if k :| 0 < k < |refs| && refs[0] == refs[k] {
      assert refs[1..][k - 1] == refs[k];
    }
  }

  lemma AgainSkip(refs: seq<Dict<CaseRef>>, observed: set<Slot>)
    requires refs != [] && !GoodRef(refs[0])
    ensures RefersAgain(refs, observed) <==> RefersAgain(refs[1..], observed)
  {
    hide Referred;
    var rest := refs[1..];
    forall s ensures Referred(refs, s) <==> Referred(rest, s) { ReferredCons(refs, s); }
    if j, k :| 0 <= j < k < |refs| && refs[j] == refs[k] && GoodRef(refs[j]) {
      assert rest[j - 1] == rest[k - 1] && GoodRef(rest[j - 1]);
    }
    if j, k :| 0 <= j < k < |rest| && rest[j] == rest[k] && GoodRef(rest[j]) {
      assert refs[j + 1] == refs[k + 1] && GoodRef(refs[j + 1]);
    }
  }

  lemma {:induction false} RefsReported(refs: seq<Dict<CaseRef>>, r: Reading, issue: Issue, slot: Slot)
    ensures var out := ReadCaseRefs(refs, r);
            && out.checks == r.checks
            && (issue in out.issues <==> issue in r.issues || RefComplaint(refs, r.observed, issue))
            && (slot in out.observed <==> slot in r.observed || Referred(refs, slot))
    decreases |refs|
  {
    hide AnyBadRef, RefersAgain, Referred;
    if refs == [] {
      NoRefs(r.observed, slot);
    } else {
      var rest := refs[1..];
      BadRefCons(refs);
      ReferredCons(refs, slot);
      if !GoodRef(refs[0]) {
        AgainSkip(refs, r.observed);
        RefsReported(rest, Note(r, [MalformedCase]), issue, slot);
      } else {
        var first := RefSlot(refs[0]);
        AgainCons(refs, r.observed);
        if first in r.observed {
          assert r.observed + {first} == r.observed;
          RefsReported(rest, Note(r, [DuplicateCase]), issue, slot);
        } else {
          RefsReported(rest, r.(observed := r.observed + {first}), issue, slot);
        }
      }
    }
  }

  lemma NoRefs(observed: set<Slot>, slot: Slot)
    ensures !AnyBadRef([]) && !RefersAgain([], observed) && !Referred([], slot)
  {
  }

  // ---- records ----------------------------------------------------------------

  ghost predicate AnyBadRecord(records: seq<Dict<Record>>, expected: set<Slot>) {
    exists k :: 0 <= k < |records| && !SpellsOne(records[k], expected)
  }

  /** Two spell the same identity, or one spells an identity recorded before. */
  ghost predicate SpellsAgain(records: seq<Dict<Record>>, expected: set<Slot>, known: set<Identity>) {
    || (exists i :: i in known && Spelled(records, expected, i))
    || (exists j, k :: 0 <= j < k < |records| && records[j] == records[k] && SpellsOne(records[j], expected))
  }

  ghost predicate RecordComplaint(
    records: seq<Dict<Record>>, success: bool, expected: set<Slot>, known: set<Identity>, issue: Issue)
  {
    || (issue == MalformedRecord(success) && AnyBadRecord(records, expected))
    || (issue == DuplicateCheck && SpellsAgain(records, expected, known))
  }

  lemma BadRecordCons(records: seq<Dict<Record>>, expected: set<Slot>)
    requires records != []
    ensures AnyBadRecord(records, expected) <==> !SpellsOne(records[0], expected) || AnyBadRecord(records[1..], expected)
  {
    hide SpellsOne;
    var rest := records[1..];
    assert forall k | 0 < k < |records| :: records[k] == rest[k - 1];
    assert forall k | 0 <= k < |rest| :: rest[k] == records[k + 1];
  }

  lemma OneIdentity(record: Dict<Record>, expected: set<Slot>, i: Identity)
    requires Spells(record, expected, i)
    ensures (forall x :: Spells(record, expected, x) <==> x == i) && SpellsOne(record, expected)
  {
    hide IsCheckId;
  }

  lemma SpelledAgain(records: seq<Dict<Record>>, expected: set<Slot>, i: Identity)
    requires records != [] && Spells(records[0], expected, i)
    ensures Spelled(records[1..], expected, i) <==> exists k :: 0 < k < |records| && records[0] == records[k]
  {
    hide IsCheckId;
    if k :| 0 <= k < |records[1..]| && Spells(records[1..][k], expected, i) {
      assert records[k + 1] == records[1..][k];
    }
    if k :| 0 < k < |records| && records[0] == records[k] {
      assert records[1..][k - 1] == records[k];
    }
  }

  lemma SpellsCons(records: seq<Dict<Record>>, expected: set<Slot>, known: set<Identity>, i: Identity)
    requires records != [] && Spells(records[0], expected, i)
    ensures SpellsAgain(records, expected, known) <==> i in known || SpellsAgain(records[1..], expected, known + {i})
  {
    OneIdentity(records[0], expected, i);
    SpelledAgain(records, expected, i);
    hide Spelled, Spells, SpellsOne;
    var rest := records[1..];
    forall x ensures Spelled(records, expected, x) <==> x == i || Spelled(rest, expected, x) {
      SpelledCons(records, expected, x);
    }
    if j, k :| 0 <= j < k < |records| && records[j] == records[k] && SpellsOne(records[j], expected) {
      if j == 0 {
        assert Spelled(rest, expected, i);
      } else {
        assert rest[j - 1] == rest[k - 1] && SpellsOne(rest[j - 1], expected);
      }
    }
    if j, k :| 0 <= j < k < |rest| && rest[j] == rest[k] && SpellsOne(rest[j], expected) {
      assert records[j + 1] == records[k + 1] && SpellsOne(records[j + 1], expected);
    }
    assert Spelled(rest, expected, i) ==> SpellsAgain(records, expected, known);
  }

  lemma SpellsSkip(records: seq<Dict<Record>>, expected: set<Slot>, known: set<Identity>)
    requires records != [] && !SpellsOne(records[0], expected)
    ensures SpellsAgain(records, expected, known) <==> SpellsAgain(records[1..], expected, known)
  {
    hide Spelled, Spells, SpellsOne;
    var rest := records[1..];
    forall x ensures Spelled(records, expected, x) <==> Spelled(rest, expected, x) {
      NotSpelled(records[0], expected, x);
      SpelledCons(records, expected, x);
    }
    if j, k :| 0 <= j < k < |records| && records[j] == records[k] && SpellsOne(records[j], expected) {
      assert rest[j - 1] == rest[k - 1] && SpellsOne(rest[j - 1], expected);
    }
    if j, k :| 0 <= j < k < |rest| && rest[j] == rest[k] && SpellsOne(rest[j], expected) {
      assert records[j + 1] == records[k + 1] && SpellsOne(records[j + 1], expected);
    }
  }

  lemma NotSpelled(record: Dict<Record>, expected: set<Slot>, i: Identity)
    requires !SpellsOne(record, expected)
    ensures !Spells(record, expected, i)
  {
  }

  lemma Unidentified(record: Dict<Record>, expected: set<Slot>)
    ensures RecordIdentity(record, expected).None? <==> !SpellsOne(record, expected)
  {
    hide RecordIdentity, Spells;
    forall i ensures RecordIdentity(record, expected) == Some(i) <==> Spells(record, expected, i) {
      RecordMeans(record, expected, i);
    }
    if RecordIdentity(record, expected).Some? {
      assert Spells(record, expected, RecordIdentity(record, expected).value);
    }
  }

  lemma FirstBad(records: seq<Dict<Record>>, success: bool, expected: set<Slot>, known: set<Identity>, issue: Issue)
    requires records != [] && !SpellsOne(records[0], expected)
    ensures RecordComplaint(records, success, expected, known, issue) <==>
              issue == MalformedRecord(success) || RecordComplaint(records[1..], success, expected, known, issue)
  {
    hide SpellsOne, AnyBadRecord, SpellsAgain;
    BadRecordCons(records, expected);
    SpellsSkip(records, expected, known);
  }

  lemma FirstGood(
    records: seq<Dict<Record>>, success: bool, expected: set<Slot>, known: set<Identity>, issue: Issue, x: Identity)
    requires records != [] && Spells(records[0], expected, x)
    ensures RecordComplaint(records, success, expected, known, issue) <==>
              || (issue == DuplicateCheck && x in known)
              || RecordComplaint(records[1..], success, expected, known + {x}, issue)
  {
    OneIdentity(records[0], expected, x);
    hide Spells, SpellsOne, AnyBadRecord, SpellsAgain;
    BadRecordCons(records, expected);
    SpellsCons(records, expected, known, x);
  }

  lemma {:induction false} RecordsReported(
    records: seq<Dict<Record>>, success: bool, expected: set<Slot>, r: Reading, issue: Issue, i: Identity, b: bool)
    ensures var out := ReadRecords(records, success, expected, r);
            && out.observed == r.observed
            && (issue in out.issues <==> issue in r.issues || RecordComplaint(records, success, expected, r.checks.Keys, issue))
            && (Has(out.checks, i, b) <==>
                  Has(r.checks, i, b) || (i !in r.checks && b == success && Spelled(records, expected, i)))
    decreases |records|
  {
    hide RecordIdentity, Spells, SpellsOne, RecordComplaint, Spelled;
    if records == [] {
      NoRecords(expected, r.checks.Keys, success, issue, i);
    } else {
      var rest := records[1..];
      Unidentified(records[0], expected);
      SpelledCons(records, expected, i);
      match RecordIdentity(records[0], expected)
      case None =>
        NotSpelled(records[0], expected, i);
        FirstBad(records, success, expected, r.checks.Keys, issue);
        RecordsReported(rest, success, expected, Note(r, [MalformedRecord(success)]), issue, i, b);
      case Some(x) =>
        RecordMeans(records[0], expected, x);
        OneIdentity(records[0], expected, x);
        FirstGood(records, success, expected, r.checks.Keys, issue, x);
        if x in r.checks {
          assert r.checks.Keys + {x} == r.checks.Keys;
          RecordsReported(rest, success, expected, Note(r, [DuplicateCheck]), issue, i, b);
        } else {
          var next := r.checks[x := success];
          assert next.Keys == r.checks.Keys + {x};
          RecordsReported(rest, success, expected, r.(checks := next), issue, i, b);
        }
    }
  }

  lemma NoRecords(expected: set<Slot>, known: set<Identity>, success: bool, issue: Issue, i: Identity)
    ensures !RecordComplaint([], success, expected, known, issue) && !Spelled([], expected, i)
  {
  }

  // ---- the whole baseline -----------------------------------------------------

  ghost predicate ListedIn(bucket: Listed<Dict<Record>>, expected: set<Slot>, i: Identity) {
    bucket.List? && Spelled(bucket.items, expected, i)
  }

  ghost predicate BucketComplaint(
    bucket: Listed<Dict<Record>>, success: bool, expected: set<Slot>, known: set<Identity>, issue: Issue)
  {
    if bucket.NotList? then issue == NoBucket(success) else RecordComplaint(bucket.items, success, expected, known, issue)
  }

  lemma BucketReported(
    bucket: Listed<Dict<Record>>, success: bool, expected: set<Slot>, r: Reading, issue: Issue, i: Identity, b: bool)
    ensures var out := ReadBucket(bucket, success, expected, r);
            && out.observed == r.observed
            && (issue in out.issues <==> issue in r.issues || BucketComplaint(bucket, success, expected, r.checks.Keys, issue))
            && (Has(out.checks, i, b) <==>
                  Has(r.checks, i, b) || (i !in r.checks && b == success && ListedIn(bucket, expected, i)))
  {
    hide ReadRecords, RecordComplaint, Spelled;
    if bucket.List? {
      RecordsReported(bucket.items, success, expected, r, issue, i, b);
    }
  }

  function Refs(report: Report): seq<Dict<CaseRef>> {
    if report.requiredCases.List? then report.requiredCases.items else []
  }

  function Bucket(report: Report, success: bool): Listed<Dict<Record>> {
    if report.checks.NotDict? then NotList
    else if success then report.checks.value.passing else report.checks.value.failing
  }

  /** The identities of a bucket, as a set. */
  ghost predicate Lists(bucket: Listed<Dict<Record>>, expected: set<Slot>, known: set<Identity>) {
    forall i :: i in known <==> ListedIn(bucket, expected, i)
  }

  /** An identity that passes may not be listed as failing too. */
  ghost predicate FailingComplaint(report: Report, expected: set<Slot>, issue: Issue) {
    exists passing :: Lists(Bucket(report, true), expected, passing)
                      && BucketComplaint(Bucket(report, false), false, expected, passing, issue)
  }

  ghost predicate CompactComplaint(report: Report, expected: set<Slot>, issue: Issue) {
    || (issue == WrongKind && report.baselineKind != Str("mcp-review-regression-baseline-v1"))
    || (issue == NoRequiredCases && report.requiredCases.NotList?)
    || RefComplaint(Refs(report), {}, issue)
    || (issue == NoCheckIdentities && report.checks.NotDict?)
    || BucketComplaint(Bucket(report, true), true, expected, {}, issue)
    || FailingComplaint(report, expected, issue)
  }

  /** The cases referred to, and the results of the buckets, where passing comes first. */
  ghost predicate Knows(report: Report, expected: set<Slot>, r: Reading) {
    && (forall slot :: slot in r.observed <==> Referred(Refs(report), slot))
    && (forall i :: Has(r.checks, i, true) <==> ListedIn(Bucket(report, true), expected, i))
    && (forall i :: Has(r.checks, i, false) <==>
          ListedIn(Bucket(report, false), expected, i) && !ListedIn(Bucket(report, true), expected, i))
  }

  lemma BucketsReported(report: Report, expected: set<Slot>, r: Reading, issue: Issue)
    requires r.checks == map[]
    ensures var passing := ReadBucket(Bucket(report, true), true, expected, r);
            var both := ReadBucket(Bucket(report, false), false, expected, passing);
            && both.observed == r.observed
            && (forall i :: Has(both.checks, i, true) <==> ListedIn(Bucket(report, true), expected, i))
            && (forall i :: Has(both.checks, i, false) <==>
                  ListedIn(Bucket(report, false), expected, i) && !ListedIn(Bucket(report, true), expected, i))
            && (issue in both.issues <==>
                  || issue in r.issues
                  || BucketComplaint(Bucket(report, true), true, expected, {}, issue)
                  || FailingComplaint(report, expected, issue))
  {
    hide ReadBucket, ListedIn, BucketComplaint, Bucket;
    var passing := ReadBucket(Bucket(report, true), true, expected, r);
    assert r.checks.Keys == {};
    forall i, b
      ensures Has(passing.checks, i, b) <==> b && ListedIn(Bucket(report, true), expected, i)
    {
      BucketReported(Bucket(report, true), true, expected, r, issue, i, b);
    }
    BucketReported(Bucket(report, true), true, expected, r, issue, Identity(Slot("", ""), ""), true);
    forall i, b
      ensures Has(ReadBucket(Bucket(report, false), false, expected, passing).checks, i, b) <==>
                Has(passing.checks, i, b) || (i !in passing.checks && !b && ListedIn(Bucket(report, false), expected, i))
    {
      BucketReported(Bucket(report, false), false, expected, passing, issue, i, b);
    }
    BucketReported(Bucket(report, false), false, expected, passing, issue, Identity(Slot("", ""), ""), true);
    KeysListed(Bucket(report, true), expected, passing.checks);
  }

  lemma KeysListed(bucket: Listed<Dict<Record>>, expected: set<Slot>, checks: Checks)
    requires forall i, b :: Has(checks, i, b) <==> b && ListedIn(bucket, expected, i)
    ensures forall i :: i in checks <==> ListedIn(bucket, expected, i)
    ensures forall known :: Lists(bucket, expected, known) <==> known == checks.Keys
  {
    hide ListedIn;
    forall i ensures i in checks <==> ListedIn(bucket, expected, i) {
      assert i in checks ==> Has(checks, i, checks[i]);
      assert Has(checks, i, true) <==> ListedIn(bucket, expected, i);
    }
    forall known ensures Lists(bucket, expected, known) <==> known == checks.Keys {
      if Lists(bucket, expected, known) {
        forall i ensures i in known <==> i in checks.Keys { }
      }
    }
  }

  /** A compact baseline gets exactly the messages it deserves, and is known by its buckets. */
  lemma CompactReported(report: Report, expected: set<Slot>, issue: Issue)
    requires report.baselineKind != Null
    ensures var r := Read(report, expected);
            && Knows(report, expected, r)
            && (issue in r.issues <==>
                  || OpeningComplaint(report, issue)
                  || CompactComplaint(report, expected, issue)
                  || ClosingComplaint(report, expected, r, issue))
  {
    hide OpeningIssues, ClosingIssues, ReadCaseRefs, ReadBucket, OpeningComplaint, Counted, RefComplaint,
         BucketComplaint, When, ListedIn, FailingComplaint, Referred;
    OpeningMessages(report, issue);
    WhenIn(report.baselineKind != Str(REVIEW_BASELINE_KIND), WrongKind, issue);
    WhenIn(report.requiredCases.NotList?, NoRequiredCases, issue);
    var start := Reading(OpeningIssues(report), {}, map[]);
    var begun := Note(Note(start, When(report.baselineKind != Str(REVIEW_BASELINE_KIND), WrongKind)),
                      When(report.requiredCases.NotList?, NoRequiredCases));
    var referred := ReadCaseRefs(Refs(report), begun);
    forall slot
      ensures slot in referred.observed <==> Referred(Refs(report), slot)
    {
      RefsReported(Refs(report), begun, issue, slot);
    }
    RefsReported(Refs(report), begun, issue, Slot("", ""));
    var r := ReadCompact(report, expected, start);
    CompactBuckets(report, expected, start, referred, issue);
    ClosingMessages(report, expected, r, issue);
  }

  lemma CompactBuckets(report: Report, expected: set<Slot>, start: Reading, referred: Reading, issue: Issue)
    requires start.checks == map[]
    requires referred == ReadCaseRefs(Refs(report), Note(Note(start, When(report.baselineKind != Str(REVIEW_BASELINE_KIND), WrongKind)),
                                                          When(report.requiredCases.NotList?, NoRequiredCases)))
    requires referred.checks == map[]
    ensures var r := ReadCompact(report, expected, start);
            && r.observed == referred.observed
            && (forall i :: Has(r.checks, i, true) <==> ListedIn(Bucket(report, true), expected, i))
            && (forall i :: Has(r.checks, i, false) <==>
                  ListedIn(Bucket(report, false), expected, i) && !ListedIn(Bucket(report, true), expected, i))
            && (issue in r.issues <==>
                  || issue in referred.issues
                  || (issue == NoCheckIdentities && report.checks.NotDict?)
                  || BucketComplaint(Bucket(report, true), true, expected, {}, issue)
                  || FailingComplaint(report, expected, issue))
  {
    hide ReadCaseRefs, BucketComplaint, ListedIn, FailingComplaint, When, ReadBucket, Bucket, ReadCompact;
    var next := if report.checks.NotDict? then Note(referred, [NoCheckIdentities]) else referred;
    assert issue in next.issues <==> issue in referred.issues || (issue == NoCheckIdentities && report.checks.NotDict?);
    BucketsReported(report, expected, next, issue);
    BucketsInOrder(report, expected, start, referred);
  }

  lemma BucketsInOrder(report: Report, expected: set<Slot>, start: Reading, referred: Reading)
    requires referred == ReadCaseRefs(Refs(report), Note(Note(start, When(report.baselineKind != Str(REVIEW_BASELINE_KIND), WrongKind)),
                                                          When(report.requiredCases.NotList?, NoRequiredCases)))
    ensures var next := if report.checks.NotDict? then Note(referred, [NoCheckIdentities]) else referred;
            ReadCompact(report, expected, start)
            == ReadBucket(Bucket(report, false), false, expected, ReadBucket(Bucket(report, true), true, expected, next))
  {
    hide ReadCaseRefs, When, ReadRecords;
    if report.checks.NotDict? {
      assert Note(Note(Note(referred, [NoCheckIdentities]), [NoBucket(true)]), [NoBucket(false)])
          == Note(referred, [NoCheckIdentities, NoBucket(true), NoBucket(false)]);
    }
  }
}
