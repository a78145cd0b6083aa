/** Which warning each definition that is dropped gets, and in which order the warnings come. */
module RoleWarnings {
  import opened Wrappers
  import opened Ordering
  import opened RoleLoader
  import opened RoleLoading

  function Warned(warning: Option<Warning>): seq<Warning> {
    if warning.Some? then [warning.value] else []
  }

  // ---- declarations -----------------------------------------------------------

  predicate DeclaredEarlier(names: seq<string>, roles: map<string, Declaration>, k: nat, name: string)
    requires k <= |names| && forall name | name in names :: name in roles
  {
    exists i | 0 <= i < k :: var read := ReadDeclared(names[i], roles[names[i]]); read.Ok? && read.value.name == name
  }

  /** A declaration that does not read is malformed, and one whose role an earlier one defines is a duplicate. */
  function DeclarationWarning(names: seq<string>, roles: map<string, Declaration>, k: nat): Option<Warning>
    requires k < |names| && forall name | name in names :: name in roles
  {
    match ReadDeclared(names[k], roles[names[k]])
    case Err(error) => Some(Malformed(error))
    case Ok(named) => if DeclaredEarlier(names, roles, k, named.name) then Some(Duplicate(named.name)) else None
  }

  function DeclarationWarnings(names: seq<string>, roles: map<string, Declaration>, k: nat): seq<Warning>
    requires k <= |names| && forall name | name in names :: name in roles
  {
    if k == 0 then [] else DeclarationWarnings(names, roles, k - 1) + Warned(DeclarationWarning(names, roles, k - 1))
  }

  lemma {:induction false} DeclaredNames(names: seq<string>, roles: map<string, Declaration>, k: nat, name: string)
    requires k <= |names| && forall name | name in names :: name in roles
    ensures name in DeclareFirst(names, roles, k).roles <==> DeclaredEarlier(names, roles, k, name)
  {
    hide ReadDeclared;
    if k > 0 {
      DeclaredNames(names, roles, k - 1, name);
      var read := ReadDeclared(names[k - 1], roles[names[k - 1]]);
      assert DeclaredEarlier(names, roles, k, name) <==>
               DeclaredEarlier(names, roles, k - 1, name) || (read.Ok? && read.value.name == name);
    }
  }

  lemma {:induction false} DeclarationsWarned(names: seq<string>, roles: map<string, Declaration>, k: nat)
    requires k <= |names| && forall name | name in names :: name in roles
    ensures DeclareFirst(names, roles, k).warnings == DeclarationWarnings(names, roles, k)
  {
    hide ReadDeclared, DeclaredEarlier;
    if k > 0 {
      DeclarationsWarned(names, roles, k - 1);
      var read := ReadDeclared(names[k - 1], roles[names[k - 1]]);
      if read.Ok? {
        DeclaredNames(names, roles, k - 1, read.value.name);
      }
    }
  }

  // ---- role files -------------------------------------------------------------

  predicate FoundEarlier(files: seq<AgentFile>, declared: set<string>, k: nat, name: string)
    requires k <= |files|
  {
    exists i | 0 <= i < k :: files[i].path !in declared && files[i].parsed.Ok? && files[i].parsed.value.name == name
  }

  /** A declared file is passed over; another one is malformed, or a duplicate of an earlier file, or fine. */
  function FileWarning(files: seq<AgentFile>, declared: set<string>, k: nat): Option<Warning>
    requires k < |files|
  {
    if files[k].path in declared then None
    else
      match files[k].parsed
      case Err(error) => Some(Malformed(error))
      case Ok(file) => if FoundEarlier(files, declared, k, file.name) then Some(DuplicateFile(file.name)) else None
  }

  function FileWarnings(files: seq<AgentFile>, declared: set<string>, k: nat): seq<Warning>
    requires k <= |files|
  {
    if k == 0 then [] else FileWarnings(files, declared, k - 1) + Warned(FileWarning(files, declared, k - 1))
  }

  lemma {:induction false} FoundNames(files: seq<AgentFile>, declared: set<string>, k: nat, name: string)
    requires k <= |files|
    ensures name in DiscoverFirst(files, declared, k).roles <==> FoundEarlier(files, declared, k, name)
  {
    if k > 0 {
      FoundNames(files, declared, k - 1, name);
      var file := files[k - 1];
      assert FoundEarlier(files, declared, k, name) <==>
               FoundEarlier(files, declared, k - 1, name) || (file.path !in declared && file.parsed.Ok? && file.parsed.value.name == name);
    }
  }

  lemma {:induction false} FilesWarned(files: seq<AgentFile>, declared: set<string>, k: nat)
    requires k <= |files|
    ensures DiscoverFirst(files, declared, k).warnings == FileWarnings(files, declared, k)
  {
    hide FoundEarlier;
    if k > 0 {
      FilesWarned(files, declared, k - 1);
      if files[k - 1].parsed.Ok? {
        FoundNames(files, declared, k - 1, files[k - 1].parsed.value.name);
      }
    }
  }

  // ---- adding and merging -----------------------------------------------------

  /** A duplicate for each of the names that is declared, in order. */
  function DuplicateWarnings(names: seq<string>, declared: set<string>): seq<Warning> {
    if names == [] then []
    else
      var n := |names| - 1;
      DuplicateWarnings(names[..n], declared) + if names[n] in declared then [Duplicate(names[n])] else []
  }

  /** A missing description for each of the names that is not accepted, in order. */
  function RejectionWarnings(names: seq<string>, accepted: set<string>): seq<Warning> {
    if names == [] then []
    else
      var n := |names| - 1;
      RejectionWarnings(names[..n], accepted) + if names[n] in accepted then [] else [NoDescription(names[n])]
  }

  lemma OneMore(names: seq<string>, k: nat, chosen: set<string>)
    requires 0 < k <= |names|
    ensures DuplicateWarnings(names[..k], chosen)
         == DuplicateWarnings(names[..k - 1], chosen) + if names[k - 1] in chosen then [Duplicate(names[k - 1])] else []
    ensures RejectionWarnings(names[..k], chosen)
         == RejectionWarnings(names[..k - 1], chosen) + if names[k - 1] in chosen then [] else [NoDescription(names[k - 1])]
  {
    assert names[..k][..k - 1] == names[..k - 1] && names[..k][k - 1] == names[k - 1];
  }

  lemma NotRestricted(roles: map<string, Role>, names: seq<string>, name: string)
    requires name !in names
    ensures name !in Restrict(roles, names)
  {
  }

  lemma {:induction false} AddedWarned(declared: map<string, Role>, names: seq<string>, found: map<string, Role>, k: nat)
    requires k <= |names| && forall name | name in names :: name in found
    requires TotalOrder(StringLess) && Sorted(names, StringLess)
    ensures AddFirst(declared, names, found, k).warnings == DuplicateWarnings(names[..k], declared.Keys)
  {
    hide TotalOrder, StringLess, Sorted, AddFirst, DuplicateWarnings;
    if k == 0 {
      AddNone(declared, names, found);
      assert names[..k] == [];
      assert DuplicateWarnings([], declared.Keys) == [] by { NoNames(declared.Keys); }
    } else {
      AddedWarned(declared, names, found, k - 1);
      AddNext(declared, names, found, k - 1);
      OneMore(names, k, declared.Keys);
      AddedSoFar(declared, names, found, k - 1);
    }
  }

  lemma NoNames(chosen: set<string>)
    ensures DuplicateWarnings([], chosen) == []
  {
  }

  /** The next name is there already only if it is declared. */
  lemma AddedSoFar(declared: map<string, Role>, names: seq<string>, found: map<string, Role>, k: nat)
    requires k < |names| && forall name | name in names :: name in found
    requires TotalOrder(StringLess) && Sorted(names, StringLess)
    ensures names[k] in AddFirst(declared, names, found, k).roles <==> names[k] in declared
  {
    hide TotalOrder, StringLess, Sorted, Restrict, AddFirst;
    AddFirstMeans(declared, names, found, k);
    NotEarlier(names, k);
    NotRestricted(found, names[..k], names[k]);
  }

  lemma {:induction false} MergedWarned(roles: map<string, Role>, names: seq<string>, own: map<string, Role>, k: nat)
    requires k <= |names| && (forall name | name in names :: name in own) && AllDescribed(roles)
    requires TotalOrder(StringLess) && Sorted(names, StringLess)
    ensures MergeFirst(roles, names, own, k).warnings == RejectionWarnings(names[..k], Accepted(roles, own))
  {
    hide TotalOrder, StringLess, Sorted, Accepted, Overlay, AllDescribed, Restrict;
    if k > 0 {
      MergedWarned(roles, names, own, k - 1);
      MergeFirstMeans(roles, names, own, k - 1);
      NotEarlier(names, k - 1);
      MergeWarning(roles, names, own, k - 1);
      OneMore(names, k, Accepted(roles, own));
    }
  }

  lemma MergeWarning(roles: map<string, Role>, names: seq<string>, own: map<string, Role>, k: nat)
    requires k < |names| && names[k] in own && names[k] !in names[..k] && AllDescribed(roles)
    ensures var s := Overlay(roles, Restrict(own, names[..k]));
            forall warnings :: Merge(Found(s, warnings), names[k], own[names[k]]).warnings
              == warnings + if names[k] in Accepted(roles, own) then [] else [NoDescription(names[k])]
  {
    var name, below := names[k], Restrict(own, names[..k]);
    assert name !in below;
    OverlayAt(roles, below, name);
    assert name !in Accepted(roles, below);
    assert name in roles ==> roles[name].description.Some?;
    assert name in Accepted(roles, own) <==> own[name].description.Some? || name in roles;
    hide Overlay, Accepted, Restrict, AllDescribed;
  }

  // ---- the whole load ---------------------------------------------------------

  /** The warnings one layer's own definitions cause. */
  function LayerWarnings(layer: Layer): seq<Warning> {
    var roles, files := Declarations(layer), Files(layer);
    var names := Names(roles);
    var found := FirstWins(ReadableFiles(files, NamedFiles(roles), |files|));
    var declared := FirstWins(Readable(names, roles, |names|));
    (if layer.agents.MalformedAgents? then [Malformed(layer.agents.error)] else [])
    + DeclarationWarnings(names, roles, |names|)
    + FileWarnings(files, NamedFiles(roles), |files|)
    + DuplicateWarnings(Names(found), declared.Keys)
  }

  /** Layer by layer: what its own definitions cause, then one warning for each that is not accepted over the roles below. */
  function AllWarnings(layers: seq<Layer>): seq<Warning> {
    if layers == [] then []
    else
      var n := |layers| - 1;
      var below, own := Merged(Owns(layers[..n])), FirstWins(Candidates(layers[n]));
      AllWarnings(layers[..n]) + LayerWarnings(layers[n])
      + RejectionWarnings(Names(own), Accepted(below, own))
  }

  lemma LayerWarned(layer: Layer)
    ensures OwnWarnings(layer) == LayerWarnings(layer)
  {
    hide DeclareFirst, DiscoverFirst, AddFirst, FirstWins, Readable, ReadableFiles, NamedFiles, DuplicateWarnings,
         DeclarationWarnings, FileWarnings, TotalOrder, StringLess, Sorted;
    var roles, files := Declarations(layer), Files(layer);
    var names := Names(roles);
    StringOrder();
    DeclarationsWarned(names, roles, |names|);
    DeclaredMeans(layer);
    DeclaredFilesMean(layer);
    FilesWarned(files, NamedFiles(roles), |files|);
    FoundMeans(layer);
    var found := FoundIn(layer).roles;
    var order := Names(found);
    AddedWarned(DeclaredIn(layer).roles, order, found, |order|);
    assert order[..|order|] == order;
  }

  /** The load pushes exactly these warnings, in this order. */
  lemma {:induction false} WarningsMean(layers: seq<Layer>)
    ensures Loaded(layers).warnings == AllWarnings(layers)
  {
    hide Own, OwnWarnings, MergeFirst, FirstWins, Candidates, RejectionWarnings, Accepted, LayerWarnings, Merged, AllDescribed,
         TotalOrder, StringLess, Sorted;
    if layers != [] {
      var n := |layers| - 1;
      WarningsMean(layers[..n]);
      LayerWarned(layers[n]);
      OwnIsFirstCandidate(layers[n]);
      LoadedIsMerged(layers[..n]);
      StringOrder();
      var below, own := Loaded(layers[..n]).roles, Own(layers[n]);
      var names := Names(own);
      MergedWarned(below, names, own, |names|);
      assert names[..|names|] == names;
    }
  }

  // ---- a load without layers --------------------------------------------------

  /** What is wrong with a declaration when there are no layers: it does not read, lacks a description, or repeats a role. */
  function DeclarationError(names: seq<string>, roles: map<string, Declaration>, k: nat): Option<LoadError>
    requires k < |names| && forall name | name in names :: name in roles
  {
    match ReadDeclared(names[k], roles[names[k]])
    case Err(error) => Some(ReadError(error))
    case Ok(named) =>
      if named.role.description.None? then Some(MissingDescription(named.name))
      else if DeclaredEarlier(names, roles, k, named.name) then Some(DuplicateName(named.name))
      else None
  }

  /** The load ends with the error of the first declaration that has one. */
  lemma {:induction false} FirstErrorEnds(names: seq<string>, roles: map<string, Declaration>, k: nat, i: nat)
    requires i < k <= |names| && forall name | name in names :: name in roles
    requires DeclarationError(names, roles, i).Some? && forall j | 0 <= j < i :: DeclarationError(names, roles, j).None?
    ensures AloneFirst(names, roles, k) == Err(DeclarationError(names, roles, i).value)
  {
    hide ReadDeclared, DeclaredEarlier;
    NoErrorLoads(names, roles, i);
    AloneNext(names, roles, i);
    var read := ReadDeclared(names[i], roles[names[i]]);
    if read.Ok? {
      LoadedNames(names, roles, i, read.value.name);
    }
    AloneStops(names, roles, i + 1, k);
  }

  /** Without any error the load succeeds. */
  lemma {:induction false} NoErrorLoads(names: seq<string>, roles: map<string, Declaration>, k: nat)
    requires k <= |names| && forall name | name in names :: name in roles
    requires forall j | 0 <= j < k :: DeclarationError(names, roles, j).None?
    ensures AloneFirst(names, roles, k).Ok?
  {
    hide ReadDeclared, DeclaredEarlier;
    if k > 0 {
      NoErrorLoads(names, roles, k - 1);
      assert DeclarationError(names, roles, k - 1).None?;
      LoadedNames(names, roles, k - 1, ReadDeclared(names[k - 1], roles[names[k - 1]]).value.name);
    }
  }

  lemma {:induction false} LoadedNames(names: seq<string>, roles: map<string, Declaration>, k: nat, name: string)
    requires k <= |names| && (forall name | name in names :: name in roles) && AloneFirst(names, roles, k).Ok?
    ensures name in AloneFirst(names, roles, k).value <==> DeclaredEarlier(names, roles, k, name)
  {
    hide ReadDeclared;
    if k > 0 {
      LoadedNames(names, roles, k - 1, name);
      var read := ReadDeclared(names[k - 1], roles[names[k - 1]]);
      assert DeclaredEarlier(names, roles, k, name) <==>
               DeclaredEarlier(names, roles, k - 1, name) || (read.Ok? && read.value.name == name);
    }
  }
}
