/**
 * Which checks count as the same check, and what the gate lists, in terms of the fields a
 * report holds.
 */
module RegressionIdentity {
  import opened Ordering
  import opened JsonShapes
  import opened ErrorLog
  import opened RegressionReports
  import opened RegressionFacts
  import opened RegressionGate

  // ---- names ------------------------------------------------------------------

  ghost predicate IsNumbered(name: string) {
    exists stem, n :: stem != "" && AllDecimal(n) && name == NumberedName(stem, n)
  }

  /** The name without its number, if it has one behind a non-empty stem. */
  ghost predicate WithoutNumber(name: string, bare: string) {
    if IsNumbered(name) then bare != "" && exists n :: AllDecimal(n) && name == NumberedName(bare, n) else bare == name
  }

  lemma NumberFound(name: string)
    ensures IsNumbered(name) <==> LastHash(name) > 0 && AllDecimal(name[LastHash(name) + 1..])
    ensures IsNumbered(name) ==> name == NumberedName(name[..LastHash(name)], name[LastHash(name) + 1..])
  {
    hide IsDecimal, LastHash;
    var i := LastHash(name);
    if i > 0 && AllDecimal(name[i + 1..]) {
      assert name == NumberedName(name[..i], name[i + 1..]);
    }
    if stem, n :| stem != "" && AllDecimal(n) && name == NumberedName(stem, n) {
      HashBefore(stem, n);
    }
  }

  lemma HashBefore(stem: string, n: string)
    requires AllDecimal(n)
    ensures var name := NumberedName(stem, n);
            LastHash(name) == |stem| && name[..|stem|] == stem && name[|stem| + 1..] == n
  {
    hide IsDecimal, LastHash;
    HashIsNotDecimal();
    var name := NumberedName(stem, n);
    assert name[|stem|] == '#' && forall j | |stem| < j < |name| :: name[j] == n[j - |stem| - 1];
  }

  /** A name stays as it is exactly when it is not numbered. */
  lemma StableNameKept(name: string)
    ensures StableName(name) == name <==> !IsNumbered(name)
  {
    hide AllDecimal, LastHash;
    NumberFound(name);
  }

  /** The stable name is the name without its number, and nothing else is. */
  lemma StableNameMeans(name: string, bare: string)
    ensures WithoutNumber(name, bare) <==> bare == StableName(name)
  {
    hide AllDecimal, LastHash;
    NumberFound(name);
    if bare != "" {
      forall n | AllDecimal(n) && name == NumberedName(bare, n) ensures bare == name[..LastHash(name)] {
        HashBefore(bare, n);
      }
    }
    hide IsNumbered;
    if IsNumbered(name) {
      assert AllDecimal(name[LastHash(name) + 1..]);
    }
  }

  // ---- identities -------------------------------------------------------------

  predicate IsText(v: Scalar) {
    v.Str? && v.s != ""
  }

  /** A check that can be identified: a known source, a name, and a scenario and id that are texts if given. */
  predicate Identifiable(c: Check) {
    && c.source in [Str("official"), Str("harness"), Str("supplemental")]
    && IsText(c.name) && (c.scenario == Null || IsText(c.scenario)) && (c.checkId == Null || IsText(c.checkId))
  }

  /** What distinguishes a check within its case: its id, or else its name without the number. */
  ghost predicate Distinguishes(c: Check, mark: string) {
    if c.checkId.Str? then mark == c.checkId.s else c.name.Str? && WithoutNumber(c.name.s, mark)
  }

  lemma IdentityMeans(mode: string, transport: string, c: Check, i: Identity)
    ensures CheckIdentity(mode, transport, c) == Good(i) <==>
              && Identifiable(c) && i.mode == mode && i.transport == transport && c.source == Str(i.source)
              && c.scenario == (if i.scenario == "" then Null else Str(i.scenario)) && Distinguishes(c, i.checkId)
  {
    hide StableName, WithoutNumber;
    if c.name.Str? {
      StableNameMeans(c.name.s, i.checkId);
    }
  }

  /** TypeError is raised exactly for a source that is a list or a dictionary. */
  lemma IdentityRaises(mode: string, transport: string, c: Check)
    ensures CheckIdentity(mode, transport, c).Raises? <==> c.source.Container?
    ensures CheckIdentity(mode, transport, c).Good? <==> Identifiable(c)
  {
    hide StableName;
  }

  /**
   * Two checks are the same one exactly when mode, transport, source and scenario agree and
   * so does what distinguishes them.
   */
  lemma SameIdentityIff(mode: string, transport: string, c: Check, mode': string, transport': string, d: Check)
    requires Identifiable(c) && Identifiable(d)
    ensures CheckIdentity(mode, transport, c).Good? && CheckIdentity(mode', transport', d).Good?
    ensures CheckIdentity(mode, transport, c) == CheckIdentity(mode', transport', d) <==>
              && mode == mode' && transport == transport' && c.source == d.source && c.scenario == d.scenario
              && exists mark :: Distinguishes(c, mark) && Distinguishes(d, mark)
  {
    hide Identifiable, CheckIdentity, Distinguishes;
    IdentityRaises(mode, transport, c);
    IdentityRaises(mode', transport', d);
    var i, j := CheckIdentity(mode, transport, c).value, CheckIdentity(mode', transport', d).value;
    IdentityMeans(mode, transport, c, i);
    IdentityMeans(mode', transport', d, j);
    forall mark | Distinguishes(c, mark) ensures mark == i.checkId { OneMark(c, mark, i.checkId); }
    forall mark | Distinguishes(d, mark) ensures mark == j.checkId { OneMark(d, mark, j.checkId); }
  }

  lemma OneMark(c: Check, a: string, b: string)
    requires Distinguishes(c, a) && Distinguishes(c, b)
    ensures a == b
  {
    hide WithoutNumber, StableName;
    if !c.checkId.Str? {
      StableNameMeans(c.name.s, a);
      StableNameMeans(c.name.s, b);
    }
  }

  /** In particular checks without an id and without a number are told apart by their names. */
  lemma NamesTellApart(mode: string, transport: string, c: Check, d: Check)
    requires Identifiable(c) && Identifiable(d) && c.checkId == Null && d.checkId == Null
    requires !IsNumbered(c.name.s) && !IsNumbered(d.name.s) && c.name != d.name
    ensures CheckIdentity(mode, transport, c) != CheckIdentity(mode, transport, d)
  {
    hide IsNumbered, StableName, CheckIdentity, Identifiable;
    SameIdentityIff(mode, transport, c, mode, transport, d);
  }

  // ---- statuses ---------------------------------------------------------------

  function StatusText(s: Status): string {
    match s case Pass => "PASS" case Fail => "FAIL" case Skip => "SKIP"
  }

  /** A check is recorded under its identity with the status it names, if its flag agrees with that. */
  lemma FactMeans(mode: string, transport: string, check: Dict<Check>, f: Fact)
    ensures CheckFact(mode, transport, check) == Good(f) <==>
              && check.Dict? && CheckIdentity(mode, transport, check.value) == Good(f.identity)
              && check.value.status == Str(StatusText(f.status))
              && check.value.success == Bool(f.status != Fail)
  {
    hide CheckIdentity;
  }

  // ---- what a mode must cover -------------------------------------------------

  /** A fact for the scenario from the official runner or its harness, over HTTP. */
  predicate ObservedBy(f: Fact, mode: string, scenario: string) {
    && f.identity.mode == mode && f.identity.transport == "official-http"
    && f.identity.source in ["official", "harness"] && f.identity.scenario == scenario
  }

  /** The facts cover exactly the scenarios of the catalog. */
  lemma CoverageMeans(facts: set<Fact>, mode: string, catalog: Catalog)
    ensures CoveredScenarios(facts, mode) == SetOf(catalog(mode)) <==>
              forall scenario :: scenario in catalog(mode) <==> exists f | f in facts :: ObservedBy(f, mode, scenario)
  {
    forall scenario ensures scenario in CoveredScenarios(facts, mode) <==> exists f | f in facts :: ObservedBy(f, mode, scenario) {
      if f :| f in facts && ObservedBy(f, mode, scenario) {
        assert CountsAsObserved(f.identity, mode);
      }
      if scenario in CoveredScenarios(facts, mode) {
        var f :| f in facts && CountsAsObserved(f.identity, mode) && f.identity.scenario == scenario;
        assert ObservedBy(f, mode, scenario);
      }
    }
    assert forall scenario :: scenario in SetOf(catalog(mode)) <==> scenario in catalog(mode);
  }

  lemma CatalogMeans(selected: map<string, Listed<Scalar>>, mode: string, catalog: Catalog)
    ensures RunsCatalog(selected, mode, catalog) <==>
              && mode in selected && selected[mode].List? && |selected[mode].items| == |catalog(mode)|
              && forall k | 0 <= k < |catalog(mode)| :: selected[mode].items[k] == Str(catalog(mode)[k])
  {
  }

  // ---- what the gate lists ----------------------------------------------------

  ghost predicate Has(checks: Checks, i: Identity, s: Status) {
    i in checks && s in checks[i]
  }

  /** Each list of the gate's result, by the statuses of the identities in it. */
  lemma ListsMean(baseline: Reading, candidate: Reading, bAuth: Scalar, cAuth: Scalar, i: Identity)
    ensures var r, b, c := Evaluate(baseline, candidate, bAuth, cAuth), baseline.checks, candidate.checks;
            && (i in r.newFailures <==> Has(c, i, Fail) && !Has(b, i, Fail))
            && (i in r.knownFailures <==> Has(c, i, Fail) && Has(b, i, Fail))
            && (i in r.missingChecks <==>
                  || (Has(b, i, Pass) && !Has(c, i, Pass))
                  || (Has(b, i, Fail) && !Has(c, i, Fail) && !Has(c, i, Pass)))
            && (i in r.fixedChecks <==> Has(b, i, Fail) && !Has(c, i, Fail) && Has(c, i, Pass))
  {
    hide IdentityLess, Sorted, Tagged, ShippingIssues, BaselineShippingIssues, Shipping, AuthIssues;
  }

  lemma ListsSorted(baseline: Reading, candidate: Reading, bAuth: Scalar, cAuth: Scalar)
    ensures var r := Evaluate(baseline, candidate, bAuth, cAuth);
            && Sorted(r.newFailures, IdentityLess) && Sorted(r.knownFailures, IdentityLess)
            && Sorted(r.missingChecks, IdentityLess) && Sorted(r.fixedChecks, IdentityLess)
  {
    hide IdentityLess, Sorted, Tagged, ShippingIssues, BaselineShippingIssues, Shipping, AuthIssues;
  }

  lemma TaggedMembers(role: string, issues: seq<Issue>, role': string, issue: Issue)
    ensures About(role', issue) in Tagged(role, issues) <==> role' == role && issue in issues
    ensures General(issue) !in Tagged(role, issues)
  {
    if issue in issues {
      var k :| 0 <= k < |issues| && issues[k] == issue;
      assert Tagged(role, issues)[k] == About(role, issue);
    }
  }

  lemma ShippingMembers(checks: Checks, issue: Issue)
    ensures General(issue) in ShippingIssues(Listing(Shipping(Failing(checks)))) <==>
              exists i :: Has(checks, i, Fail) && i.mode == "2025-06-18" && issue == ShippingCheckFailed(i.checkId)
    ensures General(issue) in BaselineShippingIssues(Listing(Shipping(Failing(checks)))) <==>
              exists i :: Has(checks, i, Fail) && i.mode == "2025-06-18" && issue == BaselineShippingCheckFailed(i.checkId)
  {
    hide IdentityLess, Sorted;
    var listed := Listing(Shipping(Failing(checks)));
    forall i ensures i in listed <==> Has(checks, i, Fail) && i.mode == "2025-06-18" {
      assert i in listed <==> i in Shipping(Failing(checks));
    }
    hide Listing, Shipping, Failing, Has;
    forall i | i in listed
      ensures General(ShippingCheckFailed(i.checkId)) in ShippingIssues(listed)
      ensures General(BaselineShippingCheckFailed(i.checkId)) in BaselineShippingIssues(listed)
    {
      var k :| 0 <= k < |listed| && listed[k] == i;
      assert ShippingIssues(listed)[k] == General(ShippingCheckFailed(i.checkId));
      assert BaselineShippingIssues(listed)[k] == General(BaselineShippingCheckFailed(i.checkId));
    }
  }

  lemma NoneAbout(identities: seq<Identity>, role: string, issue: Issue)
    ensures About(role, issue) !in ShippingIssues(identities) && About(role, issue) !in BaselineShippingIssues(identities)
  {
  }

  /** The messages: those about each report in turn, then the policies, then failing shipping checks. */
  lemma MessagesMean(baseline: Reading, candidate: Reading, bAuth: Scalar, cAuth: Scalar, issue: Issue)
    ensures var issues := Evaluate(baseline, candidate, bAuth, cAuth).issues;
            && (About("baseline", issue) in issues <==> issue in baseline.issues)
            && (About("candidate", issue) in issues <==> issue in candidate.issues)
            && (General(issue) in issues <==>
                  || (issue == NoAuthPolicy && !(bAuth.Bool? && cAuth.Bool?))
                  || (issue == DifferentAuthPolicies && bAuth.Bool? && cAuth.Bool? && bAuth != cAuth)
                  || (exists i :: Has(candidate.checks, i, Fail) && i.mode == "2025-06-18" && issue == ShippingCheckFailed(i.checkId))
                  || (exists i :: Has(baseline.checks, i, Fail) && i.mode == "2025-06-18" && issue == BaselineShippingCheckFailed(i.checkId)))
  {
    hide Tagged, ShippingIssues, BaselineShippingIssues, Listing, Shipping, Failing, Passing, Missing, Has;
    var b, c := baseline.checks, candidate.checks;
    TaggedMembers("baseline", baseline.issues, "baseline", issue);
    TaggedMembers("baseline", baseline.issues, "candidate", issue);
    TaggedMembers("candidate", candidate.issues, "baseline", issue);
    TaggedMembers("candidate", candidate.issues, "candidate", issue);
    ShippingMembers(b, issue);
    ShippingMembers(c, issue);
    NoneAbout(Listing(Shipping(Failing(b))), "baseline", issue);
    NoneAbout(Listing(Shipping(Failing(b))), "candidate", issue);
    NoneAbout(Listing(Shipping(Failing(c))), "baseline", issue);
    NoneAbout(Listing(Shipping(Failing(c))), "candidate", issue);
  }
}
