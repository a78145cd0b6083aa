/**
 * The conformance regression validator `_required_regression_checks`: it turns a full
 * report, or a compact baseline, into a dictionary from check identity to the
 * statuses seen, and records every reason to reject the report.
 */
module RegressionReports {
  import opened Wrappers
  import opened Ordering
  import opened JsonShapes

  const SHIPPING := "2025-06-18"
  const LEGACY := "2025-11-25"
  const MODERN := "2026-07-28"
  const MODES := [SHIPPING, LEGACY, MODERN]
  const STDIO := "stdio"
  const HTTP := "official-http"
  const TRANSPORTS := [STDIO, HTTP]
  const OFFICIAL := "official"
  const HARNESS := "harness"
  const SUPPLEMENTAL := "supplemental"
  const SOURCES := [OFFICIAL, HARNESS, SUPPLEMENTAL]
  const SCHEMA_VERSION: int := 4
  const COMPACT_KIND := "mcp-conformance-regression-baseline-v1"
  const REPOSITORY := "modelcontextprotocol/conformance"
  const GIT_REF := "49103de6ed70804e940637bf3e9e29e4a3f54e64"

  /** The scenarios that `scenarios_for_mode` expects of each protocol version. */
  type Catalog = string -> seq<string>

  // ---- reports ----------------------------------------------------------------

  datatype Status = Pass | Fail | Skip

  datatype Check = Check(
    source: Scalar, scenario: Scalar, name: Scalar, checkId: Scalar, status: Scalar, success: Scalar)

  datatype Case = Case(mode: Scalar, transport: Scalar, checks: Listed<Dict<Check>>)

  datatype Record = Record(mode: Scalar, transport: Scalar, source: Scalar, scenario: Scalar, checkId: Scalar)

  datatype Buckets = Buckets(passing: Listed<Dict<Record>>, failing: Listed<Dict<Record>>)

  datatype Official = Official(
    repository: Scalar, gitRef: Scalar, authenticationIncluded: Scalar,
    scenarios: Dict<map<string, Listed<Scalar>>>)

  datatype Report = Report(
    schemaVersion: Scalar,
    versionSuccess: Dict<Scalar>,
    modernFeatureEnablement: Scalar,
    automaticAuthRequired: Scalar,
    official: Dict<Official>,
    baselineKind: Scalar,
    requiredModes: Listed<Scalar>,
    transports: Listed<Scalar>,
    checks: Dict<Buckets>,
    cases: Listed<Dict<Case>>)

  datatype Identity = Identity(mode: string, transport: string, source: string, scenario: string, checkId: string)

  function Key(i: Identity): seq<string> {
    [i.mode, i.transport, i.source, i.scenario, i.checkId]
  }

  predicate IdentityLess(a: Identity, b: Identity) { TupleLess(Key(a), Key(b)) }

  lemma IdentityOrder()
    ensures TotalOrder(IdentityLess)
  {
    TupleOrder();
    forall a: Identity, b: Identity | Key(a) == Key(b) ensures a == b {
      assert Key(a)[0] == Key(b)[0] && Key(a)[1] == Key(b)[1] && Key(a)[2] == Key(b)[2];
      assert Key(a)[3] == Key(b)[3] && Key(a)[4] == Key(b)[4];
    }
  }

  type Checks = map<Identity, set<Status>>

  /** The reasons the validator and the gate can record. */
  datatype Issue =
    | WrongSchema
    | NoVersionCheck
    | NoModernFeature
    | NoOfficialMetadata
    | WrongRepository
    | WrongRevision
    | NoAuthScenarios
    | NoCatalog
    | UnsupportedBaseline
    | WrongModes
    | WrongTransports
    | NoIdentities
    | NoBucket(status: Status)
    | MalformedIdentity(status: Status)
    | DuplicateIdentity(status: Status)
    | IncompleteCatalog(mode: string)
    | MissingCase(transport: string, mode: string)
    | ScenariosNotObserved(mode: string, scenarios: set<string>)
    | UnexpectedScenarios(mode: string, scenarios: set<string>)
    | NoCases
    | MalformedCase
    | MalformedRequiredCase
    | DuplicateCase(transport: string, mode: string)
    | NoChecks(transport: string, mode: string)
    | MalformedCheck(transport: string, mode: string)
    | NoAuthPolicy
    | DifferentAuthPolicies
    | ShippingRegression
    | ShippingCheckFailed(checkId: string)
    | BaselineShippingCheckFailed(checkId: string)

  /** What a validation has found so far. */
  datatype Reading = Reading(issues: seq<Issue>, checks: Checks)

  function Note(r: Reading, more: seq<Issue>): Reading {
    r.(issues := r.issues + more)
  }

  // ---- identities -------------------------------------------------------------

  /** Code points at which a run of ten decimal digits starts, as of Unicode 16. */
  const DECIMAL_ZEROS: seq<int> := [
    0x30, 0x660, 0x6f0, 0x7c0, 0x966, 0x9e6, 0xa66, 0xae6, 0xb66, 0xbe6, 0xc66, 0xce6, 0xd66, 0xde6, 0xe50,
    0xed0, 0xf20, 0x1040, 0x1090, 0x17e0, 0x1810, 0x1946, 0x19d0, 0x1a80, 0x1a90, 0x1b50, 0x1bb0, 0x1c40,
    0x1c50, 0xa620, 0xa8d0, 0xa900, 0xa9d0, 0xa9f0, 0xaa50, 0xabf0, 0xff10, 0x104a0, 0x10d30, 0x10d40,
    0x11066, 0x110f0, 0x11136, 0x111d0, 0x112f0, 0x11450, 0x114d0, 0x11650, 0x116c0, 0x116d0, 0x116da,
    0x11730, 0x118e0, 0x11950, 0x11bf0, 0x11c50, 0x11d50, 0x11da0, 0x11f50, 0x16130, 0x16a60, 0x16ac0,
    0x16b50, 0x16d70, 0x1ccf0, 0x1d7ce, 0x1d7d8, 0x1d7e2, 0x1d7ec, 0x1d7f6, 0x1e140, 0x1e2f0, 0x1e4f0,
    0x1e5f1, 0x1e950, 0x1fbf0
  ]

  predicate IsDecimal(c: char) {
    '0' <= c && exists z | z in DECIMAL_ZEROS :: z <= c as int < z + 10
  }

  predicate AllDecimal(s: string) {
    s != "" && forall i | 0 <= i < |s| :: IsDecimal(s[i])
  }

  /** The position of the last `#`, or -1. */
  function LastHash(name: string): (i: int)
    ensures -1 <= i < |name|
    ensures i >= 0 ==> name[i] == '#'
    ensures forall j | i < j < |name| :: name[j] != '#'
  {
    if name == "" then -1
    else if name[|name| - 1] == '#' then |name| - 1
    else LastHash(name[..|name| - 1])
  }

  /** A check name without its decimal `#n` suffix, unless nothing would remain. */
  function StableName(name: string): string {
    var i := LastHash(name);
    if i > 0 && AllDecimal(name[i + 1..]) then name[..i] else name
  }

  predicate NonEmptyStr(v: Scalar) { v.Str? && v.s != "" }

  /** Membership in a set of strings, or nothing when Python would raise TypeError. */
  function InSet(v: Scalar, names: seq<string>): Option<bool> {
    if v.Container? then None else Some(v.Str? && v.s in names)
  }

  datatype Parsed<T> = Raises | Malformed | Good(value: T)

  /** `_regression_check_identity`. */
  function CheckIdentity(mode: string, transport: string, c: Check): (r: Parsed<Identity>)
    ensures r.Good? ==>
              && r.value.mode == mode && r.value.transport == transport
              && c.source == Str(r.value.source) && r.value.source in SOURCES && r.value.checkId != ""
  {
    if c.source.Container? then Raises
    else if InSet(c.source, SOURCES) != Some(true) then Malformed
    else if !NonEmptyStr(c.name) then Malformed
    else if c.scenario != Null && !NonEmptyStr(c.scenario) then Malformed
    else if c.checkId != Null && !NonEmptyStr(c.checkId) then Malformed
    else
      Good(Identity(mode, transport, c.source.s,
                    if c.scenario.Str? then c.scenario.s else "",
                    if c.checkId.Str? then c.checkId.s else StableName(c.name.s)))
  }

  function StatusOf(v: Scalar): Option<Status> {
    if v == Str("PASS") then Some(Pass)
    else if v == Str("FAIL") then Some(Fail)
    else if v == Str("SKIP") then Some(Skip)
    else None
  }

  /** One observed status of one identity. */
  datatype Fact = Fact(identity: Identity, status: Status)

  function CheckFact(mode: string, transport: string, check: Dict<Check>): (r: Parsed<Fact>)
    ensures r.Good? ==>
              var i := r.value.identity;
              i.mode == mode && i.transport == transport && i.source in SOURCES && i.checkId != ""
  {
    if check.NotDict? then Malformed
    else
      match CheckIdentity(mode, transport, check.value)
      case Raises => Raises
      case Malformed => Malformed
      case Good(identity) =>
        if check.value.status.Container? then Raises
        else
          var status := StatusOf(check.value.status);
          if status.None? || !check.value.success.Bool? then Malformed
          else if check.value.success.b != (status.value != Fail) then Malformed
          else Good(Fact(identity, status.value))
  }

  function RecordIdentity(record: Dict<Record>): (r: Parsed<Identity>)
    ensures r.Good? ==> WellFormed(r.value)
  {
    if record.NotDict? then Malformed
    else
      var v := record.value;
      if !(v.mode.Str? && v.mode.s in MODES) then Malformed
      else if v.transport.Container? then Raises
      else if InSet(v.transport, TRANSPORTS) != Some(true) then Malformed
      else if v.source.Container? then Raises
      else if InSet(v.source, SOURCES) != Some(true) then Malformed
      else if !v.scenario.Str? || !NonEmptyStr(v.checkId) then Malformed
      else Good(Identity(v.mode.s, v.transport.s, v.source.s, v.scenario.s, v.checkId.s))
  }

  predicate WellFormed(i: Identity) {
    i.mode in MODES && i.transport in TRANSPORTS && i.source in SOURCES && i.checkId != ""
  }

  /** `identities.setdefault(identity, set()).add(status)`. */
  function AddFact(checks: Checks, f: Fact): Checks {
    checks[f.identity := (if f.identity in checks then checks[f.identity] else {}) + {f.status}]
  }

  // ---- header -----------------------------------------------------------------

  function When(condition: bool, issue: Issue): seq<Issue> {
    if condition then [issue] else []
  }

  function OfficialIssues(official: Dict<Official>): seq<Issue> {
    if official.NotDict? then [NoOfficialMetadata]
    else
      When(official.value.repository != Str(REPOSITORY), WrongRepository)
      + When(official.value.gitRef != Str(GIT_REF), WrongRevision)
      + When(official.value.authenticationIncluded != Bool(true), NoAuthScenarios)
      + When(official.value.scenarios.NotDict?, NoCatalog)
  }

  function HeaderIssues(report: Report): seq<Issue> {
    When(!EqualsInt(report.schemaVersion, SCHEMA_VERSION), WrongSchema)
    + When(report.versionSuccess != Dict(Bool(true)), NoVersionCheck)
    + When(report.modernFeatureEnablement != Bool(true), NoModernFeature)
    + OfficialIssues(report.official)
  }

  function Selected(report: Report): map<string, Listed<Scalar>> {
    if report.official.Dict? && report.official.value.scenarios.Dict?
    then report.official.value.scenarios.value else map[]
  }

  predicate RunsCatalog(selected: map<string, Listed<Scalar>>, mode: string, catalog: Catalog) {
    mode in selected && selected[mode] == List(Strs(catalog(mode)))
  }

  function SetOf(names: seq<string>): set<string> {
    set name | name in names
  }

  function ScenarioIssues(mode: string, expected: set<string>, observed: set<string>): seq<Issue> {
    When(expected - observed != {}, ScenariosNotObserved(mode, expected - observed))
    + When(observed - expected != {}, UnexpectedScenarios(mode, observed - expected))
  }

  // ---- the compact format -----------------------------------------------------

  /** One bucket of a compact baseline, record by record. */
  function ReadRecords(records: seq<Dict<Record>>, status: Status, seen: set<Identity>, r: Reading)
    : Option<Reading>
    decreases |records|
  {
    if records == [] then Some(r)
    else
      match RecordIdentity(records[0])
      case Raises => None
      case Malformed => ReadRecords(records[1..], status, seen, Note(r, [MalformedIdentity(status)]))
      case Good(i) =>
        if i in seen then ReadRecords(records[1..], status, seen, Note(r, [DuplicateIdentity(status)]))
        else ReadRecords(records[1..], status, seen + {i}, r.(checks := AddFact(r.checks, Fact(i, status))))
  }

  function ReadBucket(bucket: Listed<Dict<Record>>, status: Status, r: Reading): Option<Reading> {
    if bucket.NotList? then Some(Note(r, [NoBucket(status)]))
    else ReadRecords(bucket.items, status, {}, r)
  }

  predicate HasCase(checks: Checks, mode: string, transport: string) {
    exists i | i in checks :: i.mode == mode && i.transport == transport
  }

  predicate CountsAsObserved(i: Identity, mode: string) {
    i.mode == mode && i.transport == HTTP && (i.source == OFFICIAL || i.source == HARNESS)
  }

  function ObservedScenarios(checks: Checks, mode: string): set<string> {
    set i | i in checks && CountsAsObserved(i, mode) :: i.scenario
  }

  function CompactModeIssues(
    checks: Checks, selected: map<string, Listed<Scalar>>, mode: string, catalog: Catalog)
    : seq<Issue>
  {
    When(!RunsCatalog(selected, mode, catalog), IncompleteCatalog(mode))
    + When(!HasCase(checks, mode, STDIO), MissingCase(STDIO, mode))
    + When(!HasCase(checks, mode, HTTP), MissingCase(HTTP, mode))
    + ScenarioIssues(mode, SetOf(catalog(mode)), ObservedScenarios(checks, mode))
  }

  function CompactModesIssues(
    modes: seq<string>, checks: Checks, selected: map<string, Listed<Scalar>>, catalog: Catalog)
    : seq<Issue>
  {
    if modes == [] then []
    else CompactModeIssues(checks, selected, modes[0], catalog)
         + CompactModesIssues(modes[1..], checks, selected, catalog)
  }

  /** Whether the transports are the two required ones; nothing when `set()` would raise. */
  function TransportsRequired(transports: Listed<Scalar>): Option<bool> {
    if transports.NotList? || |transports.items| != 2 then Some(false)
    else if Container in transports.items then None
    else Some((set t | t in transports.items) == {Str(STDIO), Str(HTTP)})
  }

  function ReadCompact(report: Report, catalog: Catalog): Option<Reading> {
    var start := Reading(HeaderIssues(report), map[]);
    if report.baselineKind != Str(COMPACT_KIND) then Some(Note(start, [UnsupportedBaseline]))
    else
      var modesIssue := When(report.requiredModes != List(Strs(MODES)), WrongModes);
      var transports :- TransportsRequired(report.transports);
      var r := Note(start, modesIssue + When(!transports, WrongTransports));
      if report.checks.NotDict? then Some(Note(r, [NoIdentities]))
      else
        var passing :- ReadBucket(report.checks.value.passing, Pass, r);
        var both :- ReadBucket(report.checks.value.failing, Fail, passing);
        Some(Note(both, CompactModesIssues(MODES, both.checks, Selected(report), catalog)))
  }

  // ---- the full format --------------------------------------------------------

  type Slot = (string, string)

  datatype CaseTable = CaseTable(issues: seq<Issue>, cases: map<Slot, Case>)

  /** The first case for each required mode and transport. */
  function CollectCases(cases: seq<Dict<Case>>, t: CaseTable): CaseTable
    decreases |cases|
  {
    if cases == [] then t
    else if cases[0].NotDict? then CollectCases(cases[1..], t.(issues := t.issues + [MalformedCase]))
    else
      var c := cases[0].value;
      if !(c.mode.Str? && c.mode.s in MODES) then CollectCases(cases[1..], t)
      else if !c.transport.Str? then
        CollectCases(cases[1..], t.(issues := t.issues + [MalformedRequiredCase]))
      else
        var slot := (c.mode.s, c.transport.s);
        if slot in t.cases then
          CollectCases(cases[1..], t.(issues := t.issues + [DuplicateCase(c.transport.s, c.mode.s)]))
        else CollectCases(cases[1..], t.(cases := t.cases[slot := c]))
  }

  /** The checks of one case, and the scenarios they were observed for. */
  function ReadChecks(
    checks: seq<Dict<Check>>, mode: string, transport: string, r: Reading, observed: set<string>)
    : Option<(Reading, set<string>)>
    decreases |checks|
  {
    if checks == [] then Some((r, observed))
    else
      match CheckFact(mode, transport, checks[0])
      case Raises => None
      case Malformed =>
        ReadChecks(checks[1..], mode, transport, Note(r, [MalformedCheck(transport, mode)]), observed)
      case Good(f) =>
        var observed' := if CountsAsObserved(f.identity, mode) then observed + {f.identity.scenario} else observed;
        ReadChecks(checks[1..], mode, transport, r.(checks := AddFact(r.checks, f)), observed')
  }

  function ReadCase(
    cases: map<Slot, Case>, mode: string, transport: string, catalog: Catalog, r: Reading)
    : Option<Reading>
  {
    if (mode, transport) !in cases then Some(Note(r, [MissingCase(transport, mode)]))
    else
      var checks := cases[(mode, transport)].checks;
      if checks.NotList? || checks.items == [] then Some(Note(r, [NoChecks(transport, mode)]))
      else
        var (r', observed) :- ReadChecks(checks.items, mode, transport, r, {});
        Some(if transport == HTTP
             then Note(r', ScenarioIssues(mode, SetOf(catalog(mode)), observed)) else r')
  }

  function ReadModes(
    modes: seq<string>, cases: map<Slot, Case>, selected: map<string, Listed<Scalar>>,
    catalog: Catalog, r: Reading)
    : Option<Reading>
    decreases |modes|
  {
    if modes == [] then Some(r)
    else
      var r0 := Note(r, When(!RunsCatalog(selected, modes[0], catalog), IncompleteCatalog(modes[0])));
      var r1 :- ReadCase(cases, modes[0], STDIO, catalog, r0);
      var r2 :- ReadCase(cases, modes[0], HTTP, catalog, r1);
      ReadModes(modes[1..], cases, selected, catalog, r2)
  }

  function CaseList(report: Report): seq<Dict<Case>> {
    if report.cases.List? then report.cases.items else []
  }

  function ReadFull(report: Report, catalog: Catalog): Option<Reading> {
    var issues := HeaderIssues(report) + When(report.cases.NotList?, NoCases);
    var t := CollectCases(CaseList(report), CaseTable(issues, map[]));
    ReadModes(MODES, t.cases, Selected(report), catalog, Reading(t.issues, map[]))
  }

  /** The validator as a whole; nothing when Python would raise TypeError. */
  function Read(report: Report, catalog: Catalog): Option<Reading> {
    if report.baselineKind != Null then ReadCompact(report, catalog) else ReadFull(report, catalog)
  }
}
