/** Layered loading of agent roles: `load_agent_roles` and what it rejects, merges and warns about. */
module RoleLoader {

  import opened Wrappers
  import opened Ordering

  datatype Role = Role(description: Option<string>, configFile: Option<string>, nicknames: Option<seq<string>>)

  /** A role file that was read and parsed. */
  datatype RoleFile = RoleFile(name: string, description: Option<string>, nicknames: Option<seq<string>>)

  /** A declared role: its table, and the role file it names if it names one. Either may fail to read. */
  datatype Declaration = Declaration(config: Result<Role, string>, file: Result<RoleFile, string>)

  datatype Agents = NoAgents | MalformedAgents(error: string) | Agents(roles: map<string, Declaration>)

  datatype AgentFile = AgentFile(path: string, parsed: Result<RoleFile, string>)

  datatype Folder = NoFolder | Unlistable(error: string) | Listed(files: seq<AgentFile>)

  datatype Layer = Layer(agents: Agents, folder: Folder)

  datatype Named = Named(name: string, role: Role)

  datatype Warning =
    | Malformed(error: string)
    | Duplicate(name: string)
    | DuplicateFile(name: string)
    | NoDescription(name: string)

  /** A `BTreeMap` is walked in the order of its keys. */
  function Names<V>(m: map<string, V>): (names: seq<string>)
    ensures Sorted(names, StringLess) && forall name :: name in names <==> name in m
  {
    StringOrder();
    Sort(m.Keys, StringLess)
  }

  lemma NamesCount<V>(m: map<string, V>)
    ensures |Names(m)| == |m|
  {
    StringOrder();
    SortCount(m.Keys);
    assert |m.Keys| == |m|;
  }

  lemma {:induction false} SortCount(s: set<string>)
    requires TotalOrder(StringLess)
    ensures |Sort(s, StringLess)| == |s|
  {
    ListCount(Sort(s, StringLess), s);
  }

  lemma {:induction false} ListCount(xs: seq<string>, s: set<string>)
    requires TotalOrder(StringLess) && Sorted(xs, StringLess)
    requires forall x :: x in xs <==> x in s
    ensures |xs| == |s|
    decreases |xs|
  {
    if xs == [] {
      assert s == {};
    } else {
      assert xs[0] in s;
      SortedTail(xs, StringLess);
      forall x ensures x in xs[1..] <==> x in s - {xs[0]} {
        assert x in xs <==> x == xs[0] || x in xs[1..];
      }
      ListCount(xs[1..], s - {xs[0]});
    }
  }

  // ---- reading one declaration ------------------------------------------------

  function ReadDeclared(name: string, d: Declaration): Result<Named, string> {
    var role :- d.config;
    if role.configFile.None? then Ok(Named(name, role))
    else
      var file :- d.file;
      Ok(Named(file.name, role.(description := file.description.Or(role.description),
                                nicknames := file.nicknames.Or(role.nicknames))))
  }

  function FromFile(path: string, file: RoleFile): Named {
    Named(file.name, Role(file.description, Some(path), file.nicknames))
  }

  function MergeMissing(role: Role, fallback: Role): Role {
    Role(role.description.Or(fallback.description), role.configFile.Or(fallback.configFile),
         role.nicknames.Or(fallback.nicknames))
  }

  /** A declared role that names a file is that file's role, completed from its table. */
  lemma DeclaredIsFileOverTable(name: string, d: Declaration)
    requires ReadDeclared(name, d).Ok?
    ensures var named, table := ReadDeclared(name, d).value, d.config.value;
            if table.configFile.None? then named == Named(name, table)
            else
              var file := FromFile(table.configFile.value, d.file.value);
              named == Named(file.name, MergeMissing(file.role, table))
  {
  }

  /** A declaration fails with the error of its table, or with that of the file the table names. */
  lemma DeclarationFails(name: string, d: Declaration, error: string)
    ensures ReadDeclared(name, d) == Err(error) <==>
              d.config == Err(error) || (d.config.Ok? && d.config.value.configFile.Some? && d.file == Err(error))
  {
  }

  // ---- the passes of one layer ------------------------------------------------

  datatype Scan = Scan(roles: map<string, Role>, files: set<string>, warnings: seq<Warning>)

  function Declare(s: Scan, name: string, d: Declaration): Scan {
    match ReadDeclared(name, d)
    case Err(error) => s.(warnings := s.warnings + [Malformed(error)])
    case Ok(named) =>
      var t := if named.role.configFile.Some? then s.(files := s.files + {named.role.configFile.value}) else s;
      if named.name in s.roles then t.(warnings := t.warnings + [Duplicate(named.name)])
      else t.(roles := t.roles[named.name := named.role])
  }

  function DeclareFirst(names: seq<string>, roles: map<string, Declaration>, k: nat): Scan
    requires k <= |names| && forall name | name in names :: name in roles
  {
    if k == 0 then Scan(map[], {}, [])
    else Declare(DeclareFirst(names, roles, k - 1), names[k - 1], roles[names[k - 1]])
  }

  datatype Found = Found(roles: map<string, Role>, warnings: seq<Warning>)

  function Discover(s: Found, file: AgentFile, declared: set<string>): Found {
    if file.path in declared then s
    else
      match file.parsed
      case Err(error) => s.(warnings := s.warnings + [Malformed(error)])
      case Ok(parsed) =>
        if parsed.name in s.roles then s.(warnings := s.warnings + [DuplicateFile(parsed.name)])
        else s.(roles := s.roles[parsed.name := FromFile(file.path, parsed).role])
  }

  function DiscoverFirst(files: seq<AgentFile>, declared: set<string>, k: nat): Found
    requires k <= |files|
  {
    if k == 0 then Found(map[], [])
    else Discover(DiscoverFirst(files, declared, k - 1), files[k - 1], declared)
  }

  function Add(s: Found, name: string, role: Role): Found {
    if name in s.roles then s.(warnings := s.warnings + [Duplicate(name)])
    else s.(roles := s.roles[name := role])
  }

  function AddFirst(declared: map<string, Role>, names: seq<string>, found: map<string, Role>, k: nat): Found
    requires k <= |names| && forall name | name in names :: name in found
  {
    if k == 0 then Found(declared, [])
    else Add(AddFirst(declared, names, found, k - 1), names[k - 1], found[names[k - 1]])
  }

  function Merge(s: Found, name: string, role: Role): Found {
    var merged := if name in s.roles then MergeMissing(role, s.roles[name]) else role;
    if merged.description.None? then s.(warnings := s.warnings + [NoDescription(name)])
    else s.(roles := s.roles[name := merged])
  }

  function MergeFirst(roles: map<string, Role>, names: seq<string>, own: map<string, Role>, k: nat): Found
    requires k <= |names| && forall name | name in names :: name in own
  {
    if k == 0 then Found(roles, [])
    else Merge(MergeFirst(roles, names, own, k - 1), names[k - 1], own[names[k - 1]])
  }

  // ---- one layer, and all of them ---------------------------------------------

  function Declarations(layer: Layer): map<string, Declaration> {
    if layer.agents.Agents? then layer.agents.roles else map[]
  }

  function Files(layer: Layer): seq<AgentFile> {
    if layer.folder.Listed? then layer.folder.files else []
  }

  function TableWarnings(layer: Layer): seq<Warning> {
    if layer.agents.MalformedAgents? then [Malformed(layer.agents.error)] else []
  }

  function DeclaredIn(layer: Layer): Scan {
    var roles := Declarations(layer);
    var names := Names(roles);
    DeclareFirst(names, roles, |names|)
  }

  function FoundIn(layer: Layer): Found {
    DiscoverFirst(Files(layer), DeclaredIn(layer).files, |Files(layer)|)
  }

  function Combined(layer: Layer): Found {
    var found := FoundIn(layer).roles;
    var names := Names(found);
    AddFirst(DeclaredIn(layer).roles, names, found, |names|)
  }

  /** A layer's own definitions, before anything from lower layers. */
  function Own(layer: Layer): map<string, Role> {
    Combined(layer).roles
  }

  function OwnWarnings(layer: Layer): seq<Warning> {
    TableWarnings(layer) + DeclaredIn(layer).warnings + FoundIn(layer).warnings + Combined(layer).warnings
  }

  function MergeOwn(roles: map<string, Role>, own: map<string, Role>): Found {
    var names := Names(own);
    MergeFirst(roles, names, own, |names|)
  }

  function Loaded(layers: seq<Layer>): Found {
    if layers == [] then Found(map[], [])
    else
      var n := |layers| - 1;
      var below := Loaded(layers[..n]);
      var merged := MergeOwn(below.roles, Own(layers[n]));
      Found(merged.roles, below.warnings + OwnWarnings(layers[n]) + merged.warnings)
  }

  // ---- a layer's own definitions: the first candidate wins --------------------

  function FirstWins(candidates: seq<Named>): map<string, Role> {
    if candidates == [] then map[]
    else
      var n := |candidates| - 1;
      var earlier, last := FirstWins(candidates[..n]), candidates[n];
      if last.name in earlier then earlier else earlier[last.name := last.role]
  }

  lemma FirstWinsSnoc(candidates: seq<Named>, last: Named)
    ensures var earlier := FirstWins(candidates);
            FirstWins(candidates + [last])
            == if last.name in earlier then earlier else earlier[last.name := last.role]
  {
    assert (candidates + [last])[..|candidates|] == candidates;
  }

  lemma {:induction false} FirstWinsAppend(a: seq<Named>, b: seq<Named>)
    ensures FirstWins(a + b) == FirstWins(b) + FirstWins(a)
    decreases |b|
  {
    if b == [] {
      assert a + b == a;
    } else {
      var n := |b| - 1;
      assert a + b == (a + b[..n]) + [b[n]];
      FirstWinsSnoc(a + b[..n], b[n]);
      FirstWinsAppend(a, b[..n]);
    }
  }

  /** The role of the first candidate that bears the name. */
  function FirstNamed(candidates: seq<Named>, name: string): Option<Role> {
    if candidates == [] then None
    else if candidates[0].name == name then Some(candidates[0].role)
    else FirstNamed(candidates[1..], name)
  }

  lemma {:induction false} FirstWinsMeans(candidates: seq<Named>, name: string)
    ensures FirstNamed(candidates, name)
         == if name in FirstWins(candidates) then Some(FirstWins(candidates)[name]) else None
  {
    hide FirstWins;
    FirstOfNone();
    if candidates != [] {
      var first, rest := candidates[0], candidates[1..];
      FirstWinsMeans(rest, name);
      FirstWinsAppend([first], rest);
      FirstWinsSnoc([], first);
      assert [] + [first] == [first] && candidates == [first] + rest;
    }
  }

  /** The declarations that read, in the order of their declared names. */
  function Readable(names: seq<string>, roles: map<string, Declaration>, k: nat): seq<Named>
    requires k <= |names| && forall name | name in names :: name in roles
  {
    if k == 0 then []
    else
      var named := ReadDeclared(names[k - 1], roles[names[k - 1]]);
      Readable(names, roles, k - 1) + if named.Ok? then [named.value] else []
  }

  /** The undeclared files that read, in listing order. */
  function ReadableFiles(files: seq<AgentFile>, declared: set<string>, k: nat): seq<Named>
    requires k <= |files|
  {
    if k == 0 then []
    else
      var file := files[k - 1];
      ReadableFiles(files, declared, k - 1)
      + if file.path !in declared && file.parsed.Ok? then [FromFile(file.path, file.parsed.value)] else []
  }

  function UndeclaredFiles(files: seq<AgentFile>, declared: set<string>, k: nat): nat
    requires k <= |files|
  {
    if k == 0 then 0
    else UndeclaredFiles(files, declared, k - 1) + if files[k - 1].path in declared then 0 else 1
  }

  /** The role files that the declarations name, as far as they read. */
  function NamedFiles(roles: map<string, Declaration>): set<string> {
    set name | name in roles && ReadDeclared(name, roles[name]).Ok? && ReadDeclared(name, roles[name]).value.role.configFile.Some?
      :: ReadDeclared(name, roles[name]).value.role.configFile.value
  }

  /** All definitions a layer offers that can be read: declared ones first, then undeclared files. */
  function Candidates(layer: Layer): seq<Named> {
    var roles := Declarations(layer);
    var names := Names(roles);
    Readable(names, roles, |names|)
    + ReadableFiles(Files(layer), NamedFiles(roles), |Files(layer)|)
  }

  lemma {:induction false} DeclareFirstFiles(names: seq<string>, roles: map<string, Declaration>, k: nat, path: string)
    requires k <= |names| && forall name | name in names :: name in roles
    ensures path in DeclareFirst(names, roles, k).files <==>
              exists i :: 0 <= i < k && NamesFile(names[i], roles[names[i]], path)
  {
    hide ReadDeclared;
    if k > 0 {
      DeclareFirstFiles(names, roles, k - 1, path);
      assert path in DeclareFirst(names, roles, k).files <==>
               path in DeclareFirst(names, roles, k - 1).files || NamesFile(names[k - 1], roles[names[k - 1]], path);
    }
  }

  predicate NamesFile(name: string, d: Declaration, path: string) {
    ReadDeclared(name, d).Ok? && ReadDeclared(name, d).value.role.configFile == Some(path)
  }

  /** The files that count as declared are exactly those that some readable declaration names. */
  lemma DeclaredFilesMean(layer: Layer)
    ensures DeclaredIn(layer).files == NamedFiles(Declarations(layer))
    ensures forall path :: path in DeclaredIn(layer).files <==>
              exists name :: name in Declarations(layer) && NamesFile(name, Declarations(layer)[name], path)
  {
    hide ReadDeclared, DeclareFirst, Sorted, StringLess;
    var roles := Declarations(layer);
    var names := Names(roles);
    forall path
      ensures path in DeclaredIn(layer).files <==> exists name :: name in roles && NamesFile(name, roles[name], path)
    {
      DeclareFirstFiles(names, roles, |names|, path);
      if name :| name in roles && NamesFile(name, roles[name], path) {
        var i :| 0 <= i < |names| && names[i] == name;
      }
      if i :| 0 <= i < |names| && NamesFile(names[i], roles[names[i]], path) {
        assert names[i] in names;
      }
    }
  }

  lemma {:induction false} DeclareFirstWins(names: seq<string>, roles: map<string, Declaration>, k: nat)
    requires k <= |names| && forall name | name in names :: name in roles
    ensures DeclareFirst(names, roles, k).roles == FirstWins(Readable(names, roles, k))
    ensures |DeclareFirst(names, roles, k).warnings| + |DeclareFirst(names, roles, k).roles| == k
  {
    hide ReadDeclared, FirstWins;
    if k == 0 {
      assert FirstWins([]) == map[] by { FirstOfNone(); }
    } else {
      DeclareFirstWins(names, roles, k - 1);
      var named := ReadDeclared(names[k - 1], roles[names[k - 1]]);
      var earlier := Readable(names, roles, k - 1);
      assert earlier + [] == earlier;
      if named.Ok? {
        FirstWinsSnoc(Readable(names, roles, k - 1), named.value);
      }
    }
  }

  lemma FirstOfNone()
    ensures FirstWins([]) == map[]
  {
  }

  lemma {:induction false} DiscoverFirstWins(files: seq<AgentFile>, declared: set<string>, k: nat)
    requires k <= |files|
    ensures DiscoverFirst(files, declared, k).roles == FirstWins(ReadableFiles(files, declared, k))
    ensures |DiscoverFirst(files, declared, k).warnings| + |DiscoverFirst(files, declared, k).roles|
         == UndeclaredFiles(files, declared, k)
  {
    hide FirstWins;
    if k == 0 {
      FirstOfNone();
    } else {
      DiscoverFirstWins(files, declared, k - 1);
      var file := files[k - 1];
      var earlier := ReadableFiles(files, declared, k - 1);
      assert earlier + [] == earlier;
      if file.path !in declared && file.parsed.Ok? {
        FirstWinsSnoc(ReadableFiles(files, declared, k - 1), FromFile(file.path, file.parsed.value));
      }
    }
  }

  function Restrict(roles: map<string, Role>, names: seq<string>): map<string, Role> {
    map name | name in roles && name in names :: roles[name]
  }

  lemma {:induction false} AddFirstMeans(declared: map<string, Role>, names: seq<string>, found: map<string, Role>, k: nat)
    requires k <= |names| && forall name | name in names :: name in found
    requires TotalOrder(StringLess) && Sorted(names, StringLess)
    ensures AddFirst(declared, names, found, k).roles == Restrict(found, names[..k]) + declared
    ensures |AddFirst(declared, names, found, k).warnings| + |AddFirst(declared, names, found, k).roles|
         == k + |declared|
  {
    hide TotalOrder, StringLess, Sorted, Restrict;
    if k == 0 {
      RestrictNone(declared, found);
      assert names[..k] == [];
    } else {
      AddFirstMeans(declared, names, found, k - 1);
      NotEarlier(names, k - 1);
      AddStep(declared, names, found, k - 1);
    }
  }

  lemma RestrictAll(roles: map<string, Role>, names: seq<string>)
    requires forall name | name in roles :: name in names
    ensures Restrict(roles, names) == roles
  {
  }

  lemma RestrictNone(declared: map<string, Role>, found: map<string, Role>)
    ensures Restrict(found, []) + declared == declared
  {
  }

  lemma AddStep(declared: map<string, Role>, names: seq<string>, found: map<string, Role>, k: nat)
    requires k < |names| && names[k] in found && names[k] !in names[..k]
    ensures var name, before := names[k], Restrict(found, names[..k]) + declared;
            Restrict(found, names[..k + 1]) + declared
            == if name in before then before else before[name := found[name]]
  {
    assert names[..k + 1] == names[..k] + [names[k]];
  }

  lemma NotEarlier(names: seq<string>, k: nat)
    requires TotalOrder(StringLess) && Sorted(names, StringLess) && k < |names|
    ensures names[k] !in names[..k]
  {
  }

  lemma DeclaredMeans(layer: Layer)
    ensures var roles := Declarations(layer);
            var names := Names(roles);
            && DeclaredIn(layer).roles == FirstWins(Readable(names, roles, |names|))
            && |DeclaredIn(layer).warnings| + |DeclaredIn(layer).roles| == |roles|
  {
    hide FirstWins, Readable, DeclareFirst;
    var roles := Declarations(layer);
    DeclareFirstWins(Names(roles), roles, |Names(roles)|);
    NamesCount(roles);
  }

  lemma FoundMeans(layer: Layer)
    ensures var files, declared := Files(layer), DeclaredIn(layer).files;
            && FoundIn(layer).roles == FirstWins(ReadableFiles(files, declared, |files|))
            && |FoundIn(layer).warnings| + |FoundIn(layer).roles| == UndeclaredFiles(files, declared, |files|)
  {
    hide FirstWins, ReadableFiles, DiscoverFirst, DeclaredIn;
    DiscoverFirstWins(Files(layer), DeclaredIn(layer).files, |Files(layer)|);
  }

  lemma CombinedMeans(layer: Layer)
    ensures Own(layer) == FoundIn(layer).roles + DeclaredIn(layer).roles
    ensures |Combined(layer).warnings| + |Own(layer)| == |FoundIn(layer).roles| + |DeclaredIn(layer).roles|
  {
    hide AddFirst, FoundIn, DeclaredIn, TotalOrder, StringLess, Sorted;
    var found := FoundIn(layer).roles;
    var order := Names(found);
    StringOrder();
    AddFirstMeans(DeclaredIn(layer).roles, order, found, |order|);
    NamesCount(found);
    assert order[..|order|] == order;
    RestrictAll(found, order);
  }

  /** A layer's own definition of a name is the first candidate of that name; declarations come first. */
  lemma OwnIsFirstCandidate(layer: Layer)
    ensures Own(layer) == FirstWins(Candidates(layer))
  {
    hide FirstWins, Readable, ReadableFiles, Own, FoundIn, DeclaredIn;
    DeclaredMeans(layer);
    FoundMeans(layer);
    CombinedMeans(layer);
    var roles := Declarations(layer);
    var names := Names(roles);
    DeclaredFilesMean(layer);
    FirstWinsAppend(Readable(names, roles, |names|),
                    ReadableFiles(Files(layer), NamedFiles(roles), |Files(layer)|));
  }

  // ---- merging layers ---------------------------------------------------------

  /** The names whose definition in a layer is accepted over the roles below. */
  function Accepted(roles: map<string, Role>, own: map<string, Role>): set<string> {
    set name | name in own && (own[name].description.Some? || name in roles)
  }

  function MergedRole(roles: map<string, Role>, own: map<string, Role>, name: string): Role
    requires name in Accepted(roles, own)
  {
    if name in roles then MergeMissing(own[name], roles[name]) else own[name]
  }

  ghost predicate AllDescribed(roles: map<string, Role>) {
    forall name | name in roles :: roles[name].description.Some?
  }

  /** What a layer's definitions do to the roles below them, name by name. */
  function Overlay(roles: map<string, Role>, own: map<string, Role>): map<string, Role> {
    map name | name in roles.Keys + Accepted(roles, own) ::
      if name in Accepted(roles, own) then MergedRole(roles, own, name) else roles[name]
  }

  lemma OverlayAt(roles: map<string, Role>, own: map<string, Role>, name: string)
    ensures name in Overlay(roles, own) <==> name in roles || name in Accepted(roles, own)
    ensures name in Overlay(roles, own) ==>
              Overlay(roles, own)[name]
              == if name in Accepted(roles, own) then MergedRole(roles, own, name) else roles[name]
  {
    hide Accepted;
  }

  lemma {:induction false} MergeFirstMeans(roles: map<string, Role>, names: seq<string>, own: map<string, Role>, k: nat)
    requires k <= |names| && forall name | name in names :: name in own
    requires TotalOrder(StringLess) && Sorted(names, StringLess) && AllDescribed(roles)
    ensures MergeFirst(roles, names, own, k).roles == Overlay(roles, Restrict(own, names[..k]))
    ensures |MergeFirst(roles, names, own, k).warnings| + |Accepted(roles, Restrict(own, names[..k]))| == k
  {
    hide TotalOrder, StringLess, Sorted, Restrict, Overlay, Accepted, AllDescribed;
    if k == 0 {
      OverlayNone(roles, own);
      assert names[..k] == [];
    } else {
      MergeFirstMeans(roles, names, own, k - 1);
      NotEarlier(names, k - 1);
      OverlayStep(roles, names, own, k - 1);
    }
  }

  lemma OverlayNone(roles: map<string, Role>, own: map<string, Role>)
    ensures Overlay(roles, Restrict(own, [])) == roles && Accepted(roles, Restrict(own, [])) == {}
  {
  }

  lemma OverlayStep(roles: map<string, Role>, names: seq<string>, own: map<string, Role>, k: nat)
    requires k < |names| && names[k] in own && names[k] !in names[..k] && AllDescribed(roles)
    ensures var name, before := names[k], Restrict(own, names[..k]);
            var after := Restrict(own, names[..k + 1]);
            var s := Found(Overlay(roles, before), []);
            && Overlay(roles, after) == Merge(s, name, own[name]).roles
            && |Accepted(roles, after)| + |Merge(s, name, own[name]).warnings| == |Accepted(roles, before)| + 1
  {
    var name, before := names[k], Restrict(own, names[..k]);
    assert names[..k + 1] == names[..k] + [name];
    assert Restrict(own, names[..k + 1]) == before[name := own[name]];
    hide Restrict, Merge, Overlay, Accepted;
    OverlayInsert(roles, before, name, own[name]);
  }

  lemma AcceptedInsert(roles: map<string, Role>, own: map<string, Role>, name: string, role: Role)
    requires name !in own
    ensures name !in Accepted(roles, own)
    ensures Accepted(roles, own[name := role])
         == Accepted(roles, own) + if role.description.Some? || name in roles then {name} else {}
  {
  }

  lemma OverlayInsertAt(roles: map<string, Role>, own: map<string, Role>, name: string, role: Role, x: string)
    requires name !in own && AllDescribed(roles)
    ensures var after, target := Overlay(roles, own[name := role]), Merge(Found(Overlay(roles, own), []), name, role).roles;
            (x in after) == (x in target) && (x in after ==> after[x] == target[x])
  {
    AcceptedInsert(roles, own, name, role);
    OverlayAt(roles, own, name);
    OverlayAt(roles, own, x);
    OverlayAt(roles, own[name := role], x);
    assert name in roles ==> roles[name].description.Some?;
    hide Accepted, Overlay, AllDescribed;
    if x != name && x in Accepted(roles, own) {
      SameMergedRole(roles, own, name, role, x);
    }
  }

  lemma SameMergedRole(roles: map<string, Role>, own: map<string, Role>, name: string, role: Role, x: string)
    requires x != name && x in Accepted(roles, own)
    ensures x in Accepted(roles, own[name := role])
    ensures MergedRole(roles, own[name := role], x) == MergedRole(roles, own, x)
  {
  }

  lemma OverlayInsert(roles: map<string, Role>, own: map<string, Role>, name: string, role: Role)
    requires name !in own && AllDescribed(roles)
    ensures var s := Found(Overlay(roles, own), []);
            && Overlay(roles, own[name := role]) == Merge(s, name, role).roles
            && |Accepted(roles, own[name := role])| + |Merge(s, name, role).warnings| == |Accepted(roles, own)| + 1
  {
    hide Accepted, Overlay, AllDescribed, Merge;
    MergeWarns(roles, own, name, role);
    var after, target := Overlay(roles, own[name := role]), Merge(Found(Overlay(roles, own), []), name, role).roles;
    forall x ensures (x in after) == (x in target) && (x in after ==> after[x] == target[x]) {
      OverlayInsertAt(roles, own, name, role, x);
    }
  }

  /** A definition is accepted, or it causes a warning. */
  lemma MergeWarns(roles: map<string, Role>, own: map<string, Role>, name: string, role: Role)
    requires name !in own && AllDescribed(roles)
    ensures |Accepted(roles, own[name := role])| + |Merge(Found(Overlay(roles, own), []), name, role).warnings|
         == |Accepted(roles, own)| + 1
  {
    AcceptedInsert(roles, own, name, role);
    OverlayAt(roles, own, name);
    assert name in roles ==> roles[name].description.Some?;
    hide Accepted, Overlay, AllDescribed;
  }

  lemma OverlayDescribed(roles: map<string, Role>, own: map<string, Role>)
    requires AllDescribed(roles)
    ensures AllDescribed(Overlay(roles, own))
  {
  }

  /** Merging one layer overlays its accepted definitions, and warns once for each of the others. */
  lemma MergeMeans(roles: map<string, Role>, own: map<string, Role>)
    requires AllDescribed(roles)
    ensures MergeOwn(roles, own).roles == Overlay(roles, own)
    ensures |MergeOwn(roles, own).warnings| + |Accepted(roles, own)| == |own|
    ensures AllDescribed(Overlay(roles, own))
  {
    var names := Names(own);
    StringOrder();
    OverlayDescribed(roles, own);
    hide TotalOrder, StringLess, Sorted, MergeFirst, Overlay, Accepted, AllDescribed, Restrict;
    MergeFirstMeans(roles, names, own, |names|);
    NamesCount(own);
    assert names[..|names|] == names;
    RestrictAll(own, names);
  }

  // ---- all layers -------------------------------------------------------------

  function Owns(layers: seq<Layer>): (r: seq<map<string, Role>>)
    ensures |r| == |layers| && forall i | 0 <= i < |r| :: r[i] == Own(layers[i])
  {
    seq(|layers|, i requires 0 <= i < |layers| => Own(layers[i]))
  }

  function Merged(owns: seq<map<string, Role>>): map<string, Role> {
    if owns == [] then map[] else Overlay(Merged(owns[..|owns| - 1]), owns[|owns| - 1])
  }

  lemma {:induction false} LoadedIsMerged(layers: seq<Layer>)
    ensures Loaded(layers).roles == Merged(Owns(layers)) && AllDescribed(Loaded(layers).roles)
  {
    hide Own, Overlay, OwnWarnings, MergeOwn;
    if layers != [] {
      var n := |layers| - 1;
      LoadedIsMerged(layers[..n]);
      MergeMeans(Loaded(layers[..n]).roles, Own(layers[n]));
      assert Owns(layers)[..n] == Owns(layers[..n]);
    }
  }

  predicate Described(owns: seq<map<string, Role>>, i: nat, name: string)
    requires i < |owns|
  {
    name in owns[i] && owns[i][name].description.Some?
  }

  /** A role is loaded exactly when some layer's own definition gives it a description. */
  lemma {:induction false} LoadedIffDescribed(owns: seq<map<string, Role>>, name: string)
    ensures name in Merged(owns) <==> exists i :: 0 <= i < |owns| && Described(owns, i, name)
  {
    if owns != [] {
      var n := |owns| - 1;
      LoadedIffDescribed(owns[..n], name);
      forall i | 0 <= i < n ensures Described(owns[..n], i, name) == Described(owns, i, name) { }
      if exists i :: 0 <= i < |owns| && Described(owns, i, name) {
        var i :| 0 <= i < |owns| && Described(owns, i, name);
        if i < n { assert Described(owns[..n], i, name); }
      }
      if name in Merged(owns[..n]) {
        var i :| 0 <= i < n && Described(owns[..n], i, name);
        assert Described(owns, i, name);
      }
      if Described(owns, n, name) { assert name in Accepted(Merged(owns[..n]), owns[n]); }
    }
  }

  /** The value the highest of layers `lo` up to `hi` sets. */
  function Highest<T>(owns: seq<map<string, Role>>, name: string, field: Role -> Option<T>, lo: nat, hi: nat): Option<T>
    requires lo <= hi <= |owns|
  {
    if lo == hi then None
    else if name in owns[hi - 1] && field(owns[hi - 1][name]).Some? then field(owns[hi - 1][name])
    else Highest(owns, name, field, lo, hi - 1)
  }

  predicate FirstDescribed(owns: seq<map<string, Role>>, first: nat, name: string) {
    && first < |owns| && Described(owns, first, name)
    && forall i | 0 <= i < first :: !Described(owns, i, name)
  }

  /**
   * Each field of a loaded role is the one set by the highest layer that sets it, counted
   * from the first layer whose own definition has a description; what lower layers said
   * about the role before that is forgotten.
   */
  lemma {:induction false} FieldsFromHighest(owns: seq<map<string, Role>>, first: nat, name: string)
    requires FirstDescribed(owns, first, name)
    ensures name in Merged(owns)
    ensures var role := Merged(owns)[name];
            && role.description == Highest(owns, name, (r: Role) => r.description, first, |owns|)
            && role.configFile == Highest(owns, name, (r: Role) => r.configFile, first, |owns|)
            && role.nicknames == Highest(owns, name, (r: Role) => r.nicknames, first, |owns|)
    decreases |owns|
  {
    var n := |owns| - 1;
    var below := owns[..n];
    assert forall i | 0 <= i < n :: Described(below, i, name) == Described(owns, i, name);
    if first < n {
      assert FirstDescribed(below, first, name);
      FieldsFromHighest(below, first, name);
      HighestBelow(owns, name, (r: Role) => r.description, first, n);
      HighestBelow(owns, name, (r: Role) => r.configFile, first, n);
      HighestBelow(owns, name, (r: Role) => r.nicknames, first, n);
    } else {
      LoadedIffDescribed(below, name);
    }
  }

  lemma {:induction false} HighestBelow<T>(owns: seq<map<string, Role>>, name: string, field: Role -> Option<T>, lo: nat, hi: nat)
    requires lo <= hi < |owns|
    ensures Highest(owns[..|owns| - 1], name, field, lo, hi) == Highest(owns, name, field, lo, hi)
  {
    if lo < hi {
      HighestBelow(owns, name, field, lo, hi - 1);
    }
  }

  // ---- accounting for what was dropped ----------------------------------------

  /** Definitions a layer offers: declared roles, and files no readable declaration names. */
  function Offered(layer: Layer): nat {
    |Declarations(layer)| + UndeclaredFiles(Files(layer), NamedFiles(Declarations(layer)), |Files(layer)|)
  }

  function MalformedTables(layers: seq<Layer>): nat {
    if layers == [] then 0
    else MalformedTables(layers[..|layers| - 1]) + if layers[|layers| - 1].agents.MalformedAgents? then 1 else 0
  }

  function OfferedBy(layers: seq<Layer>): nat {
    if layers == [] then 0 else OfferedBy(layers[..|layers| - 1]) + Offered(layers[|layers| - 1])
  }

  /** Definitions accepted into the merged roles, over all layers. */
  function AcceptedFrom(layers: seq<Layer>): nat {
    if layers == [] then 0
    else
      var n := |layers| - 1;
      AcceptedFrom(layers[..n]) + |Accepted(Loaded(layers[..n]).roles, Own(layers[n]))|
  }

  lemma OwnWarningsCount(layer: Layer)
    ensures |OwnWarnings(layer)| + |Own(layer)| == |TableWarnings(layer)| + Offered(layer)
  {
    hide Own, FoundIn, DeclaredIn, Combined, FirstWins, Readable, ReadableFiles;
    DeclaredMeans(layer);
    DeclaredFilesMean(layer);
    FoundMeans(layer);
    CombinedMeans(layer);
  }

  /** Nothing is dropped in silence: warnings are malformed tables plus offers minus acceptances. */
  lemma {:induction false} WarningsAccount(layers: seq<Layer>)
    ensures |Loaded(layers).warnings| + AcceptedFrom(layers) == MalformedTables(layers) + OfferedBy(layers)
  {
    hide Own, OwnWarnings, MergeOwn, Offered, Accepted;
    if layers != [] {
      var n := |layers| - 1;
      WarningsAccount(layers[..n]);
      LoadedIsMerged(layers[..n]);
      OwnWarningsCount(layers[n]);
      MergeMeans(Loaded(layers[..n]).roles, Own(layers[n]));
    }
  }
}
