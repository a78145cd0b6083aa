/** The loops of the role loader, which fill maps and push warnings, against their specification. */
module RoleLoading {

  import opened Wrappers
  import opened RoleLoader

  class StartupWarnings {
    var items: seq<Warning>

    constructor ()
      ensures items == []
    {
      items := [];
    }

    method Push(warning: Warning)
      modifies this
      ensures items == old(items) + [warning]
    {
      items := items + [warning];
    }
  }

  /** The declared roles of one layer, and the role files they name. */
  method ReadDeclaredRoles(roles: map<string, Declaration>, warnings: StartupWarnings)
    returns (layerRoles: map<string, Role>, declaredFiles: set<string>)
    modifies warnings
    ensures var names := Names(roles);
            var scan := DeclareFirst(names, roles, |names|);
            layerRoles == scan.roles && declaredFiles == scan.files && warnings.items == old(warnings.items) + scan.warnings
  {
    hide Names, ReadDeclared;
    layerRoles, declaredFiles := map[], {};
    var names := Names(roles);
    for k := 0 to |names|
      invariant var scan := DeclareFirst(names, roles, k);
                && layerRoles == scan.roles && declaredFiles == scan.files
                && warnings.items == old(warnings.items) + scan.warnings
    {
      var read := ReadDeclared(names[k], roles[names[k]]);
      if read.Err? {
        warnings.Push(Malformed(read.error));
        continue;
      }
      var named := read.value;
      if named.role.configFile.Some? {
        declaredFiles := declaredFiles + {named.role.configFile.value};
      }
      if named.name in layerRoles {
        warnings.Push(Duplicate(named.name));
        continue;
      }
      layerRoles := layerRoles[named.name := named.role];
    }
  }

  method DiscoverAgentRolesInDir(files: seq<AgentFile>, declaredFiles: set<string>, warnings: StartupWarnings)
    returns (roles: map<string, Role>)
    modifies warnings
    ensures var found := DiscoverFirst(files, declaredFiles, |files|);
            roles == found.roles && warnings.items == old(warnings.items) + found.warnings
  {
    roles := map[];
    for k := 0 to |files|
      invariant var found := DiscoverFirst(files, declaredFiles, k);
                roles == found.roles && warnings.items == old(warnings.items) + found.warnings
    {
      var file := files[k];
      if file.path in declaredFiles {
        continue;
      }
      if file.parsed.Err? {
        warnings.Push(Malformed(file.parsed.error));
        continue;
      }
      var parsed := file.parsed.value;
      if parsed.name in roles {
        warnings.Push(DuplicateFile(parsed.name));
        continue;
      }
      roles := roles[parsed.name := Role(parsed.description, Some(file.path), parsed.nicknames)];
    }
  }

  method AddDiscovered(declared: map<string, Role>, found: map<string, Role>, warnings: StartupWarnings)
    returns (layerRoles: map<string, Role>)
    modifies warnings
    ensures var names := Names(found);
            var added := AddFirst(declared, names, found, |names|);
            layerRoles == added.roles && warnings.items == old(warnings.items) + added.warnings
  {
    hide Names, AddFirst;
    layerRoles := declared;
    var names := Names(found);
    AddNone(declared, names, found);
    for k := 0 to |names|
      invariant var added := AddFirst(declared, names, found, k);
                layerRoles == added.roles && warnings.items == old(warnings.items) + added.warnings
    {
      var name := names[k];
      AddNext(declared, names, found, k);
      if name in layerRoles {
        warnings.Push(Duplicate(name));
        continue;
      }
      layerRoles := layerRoles[name := found[name]];
    }
  }

  lemma AddNone(declared: map<string, Role>, names: seq<string>, found: map<string, Role>)
    requires forall name | name in names :: name in found
    ensures AddFirst(declared, names, found, 0) == Found(declared, [])
  {
  }

  lemma AddNext(declared: map<string, Role>, names: seq<string>, found: map<string, Role>, k: nat)
    requires k < |names| && forall name | name in names :: name in found
    ensures AddFirst(declared, names, found, k + 1) == Add(AddFirst(declared, names, found, k), names[k], found[names[k]])
  {
  }

  method MergeLayer(below: map<string, Role>, own: map<string, Role>, warnings: StartupWarnings)
    returns (roles: map<string, Role>)
    modifies warnings
    ensures roles == MergeOwn(below, own).roles
    ensures warnings.items == old(warnings.items) + MergeOwn(below, own).warnings
  {
    hide Names, MergeMissing, MergeFirst;
    roles := below;
    MergeNone(below, Names(own), own);
    var names := Names(own);
    for k := 0 to |names|
      invariant var merged := MergeFirst(below, names, own, k);
                roles == merged.roles && warnings.items == old(warnings.items) + merged.warnings
    {
      var name := names[k];
      MergeNext(below, names, own, k);
      var merged := own[name];
      if name in roles {
        merged := MergeMissing(merged, roles[name]);
      }
      if merged.description.None? {
        warnings.Push(NoDescription(name));
        continue;
      }
      roles := roles[name := merged];
    }
  }

  lemma MergeNone(below: map<string, Role>, names: seq<string>, own: map<string, Role>)
    requires forall name | name in names :: name in own
    ensures MergeFirst(below, names, own, 0) == Found(below, [])
  {
  }

  lemma MergeNext(below: map<string, Role>, names: seq<string>, own: map<string, Role>, k: nat)
    requires k < |names| && forall name | name in names :: name in own
    ensures MergeFirst(below, names, own, k + 1) == Merge(MergeFirst(below, names, own, k), names[k], own[names[k]])
  {
  }

  // ---- without layers ---------------------------------------------------------

  datatype LoadError =
    | ReadError(error: string)
    | MissingDescription(name: string)
    | DuplicateName(name: string)
    | ListError(error: string)

  /** Without layers the first thing wrong ends the load. */
  function AloneFirst(names: seq<string>, roles: map<string, Declaration>, k: nat): Result<map<string, Role>, LoadError>
    requires k <= |names| && forall name | name in names :: name in roles
  {
    if k == 0 then Ok(map[])
    else
      var earlier :- AloneFirst(names, roles, k - 1);
      match ReadDeclared(names[k - 1], roles[names[k - 1]])
      case Err(error) => Err(ReadError(error))
      case Ok(named) =>
        if named.role.description.None? then Err(MissingDescription(named.name))
        else if named.name in earlier then Err(DuplicateName(named.name))
        else Ok(earlier[named.name := named.role])
  }

  lemma {:induction false} AloneStops(names: seq<string>, roles: map<string, Declaration>, k: nat, n: nat)
    requires k <= n <= |names| && forall name | name in names :: name in roles
    requires AloneFirst(names, roles, k).Err?
    ensures AloneFirst(names, roles, n) == AloneFirst(names, roles, k)
    decreases n
  {
    hide ReadDeclared;
    if k < n {
      AloneStops(names, roles, k, n - 1);
    }
  }

  lemma AloneNone(names: seq<string>, roles: map<string, Declaration>)
    requires forall name | name in names :: name in roles
    ensures AloneFirst(names, roles, 0) == Ok(map[])
  {
  }

  lemma AloneNext(names: seq<string>, roles: map<string, Declaration>, k: nat)
    requires k < |names| && (forall name | name in names :: name in roles) && AloneFirst(names, roles, k).Ok?
    ensures AloneFirst(names, roles, k + 1)
         == match ReadDeclared(names[k], roles[names[k]])
            case Err(error) => Err(ReadError(error))
            case Ok(named) =>
              if named.role.description.None? then Err(MissingDescription(named.name))
              else if named.name in AloneFirst(names, roles, k).value then Err(DuplicateName(named.name))
              else Ok(AloneFirst(names, roles, k).value[named.name := named.role])
  {
    hide ReadDeclared;
  }

  /** Every candidate has a description, and no two have the same name. */
  predicate Sound(candidates: seq<Named>) {
    && (forall i | 0 <= i < |candidates| :: candidates[i].role.description.Some?)
    && (forall i, j | 0 <= i < j < |candidates| :: candidates[i].name != candidates[j].name)
  }

  lemma {:induction false} FirstWinsKeys(candidates: seq<Named>, name: string)
    ensures name in FirstWins(candidates) <==> exists i :: 0 <= i < |candidates| && candidates[i].name == name
  {
    if candidates != [] {
      var n := |candidates| - 1;
      FirstWinsKeys(candidates[..n], name);
      if exists i :: 0 <= i < |candidates| && candidates[i].name == name {
        var i :| 0 <= i < |candidates| && candidates[i].name == name;
        if i < n { assert candidates[..n][i].name == name; }
      }
      if name in FirstWins(candidates[..n]) {
        var i :| 0 <= i < n && candidates[..n][i].name == name;
        assert candidates[i].name == name;
      }
    }
  }

  lemma SoundSnoc(candidates: seq<Named>, last: Named)
    ensures Sound(candidates + [last])
       <==> Sound(candidates) && last.role.description.Some? && last.name !in FirstWins(candidates)
  {
    hide FirstWins;
    FirstWinsKeys(candidates, last.name);
    var all := candidates + [last];
    assert all[|candidates|] == last;
    assert forall i | 0 <= i < |candidates| :: candidates[i] == all[i];
  }

  /** Every one of the first declarations reads. */
  predicate AllRead(names: seq<string>, roles: map<string, Declaration>, k: nat)
    requires k <= |names| && forall name | name in names :: name in roles
  {
    forall i | 0 <= i < k :: ReadDeclared(names[i], roles[names[i]]).Ok?
  }

  /**
   * A load without layers succeeds exactly when every declaration reads, has a
   * description and a name of its own; and then it has every one of them.
   */
  lemma {:induction false} AloneIffSound(names: seq<string>, roles: map<string, Declaration>, k: nat)
    requires k <= |names| && forall name | name in names :: name in roles
    ensures AloneFirst(names, roles, k).Ok? <==> AllRead(names, roles, k) && Sound(Readable(names, roles, k))
    ensures AloneFirst(names, roles, k).Ok? ==> AloneFirst(names, roles, k).value == FirstWins(Readable(names, roles, k))
  {
    hide ReadDeclared, FirstWins, Sound;
    if k == 0 {
      NoneSound();
    } else {
      AloneIffSound(names, roles, k - 1);
      var earlier, read := Readable(names, roles, k - 1), ReadDeclared(names[k - 1], roles[names[k - 1]]);
      if read.Ok? {
        SoundSnoc(earlier, read.value);
        FirstWinsSnoc(earlier, read.value);
      }
    }
  }

  lemma NoneSound()
    ensures Sound([]) && FirstWins([]) == map[]
  {
  }

  method LoadWithoutLayers(agents: Option<map<string, Declaration>>)
    returns (result: Result<map<string, Role>, LoadError>)
    ensures agents.None? ==> result == Ok(map[])
    ensures agents.Some? ==> var names := Names(agents.value); result == AloneFirst(names, agents.value, |names|)
  {
    hide Names, ReadDeclared, AloneFirst;
    var roles: map<string, Role> := map[];
    if agents.None? {
      return Ok(roles);
    }
    var names := Names(agents.value);
    AloneNone(names, agents.value);
    for k := 0 to |names|
      invariant AloneFirst(names, agents.value, k) == Ok(roles)
    {
      AloneNext(names, agents.value, k);
      var read := ReadDeclared(names[k], agents.value[names[k]]);
      if read.Err? {
        AloneStops(names, agents.value, k + 1, |names|);
        return Err(ReadError(read.error));
      }
      var named := read.value;
      if named.role.description.None? {
        AloneStops(names, agents.value, k + 1, |names|);
        return Err(MissingDescription(named.name));
      }
      if named.name in roles {
        AloneStops(names, agents.value, k + 1, |names|);
        return Err(DuplicateName(named.name));
      }
      roles := roles[named.name := named.role];
    }
    result := Ok(roles);
  }

  // ---- the whole load ---------------------------------------------------------

  predicate Listable(layers: seq<Layer>, k: nat)
    requires k <= |layers|
  {
    forall i | 0 <= i < k :: !layers[i].folder.Unlistable?
  }

  lemma LoadedSnoc(layers: seq<Layer>, layer: Layer)
    ensures var below := Loaded(layers);
            var merged := MergeOwn(below.roles, Own(layer));
            Loaded(layers + [layer])
            == Found(merged.roles, below.warnings + OwnWarnings(layer) + merged.warnings)
  {
    hide Own, OwnWarnings, MergeOwn;
    assert (layers + [layer])[..|layers|] == layers;
  }

  /** The warnings of a layer that come before its folder is listed. */
  function EarlyWarnings(layer: Layer): seq<Warning> {
    TableWarnings(layer) + DeclaredIn(layer).warnings
  }

  /** One layer's own definitions, with the warnings they cause. */
  method ReadLayer(layer: Layer, warnings: StartupWarnings) returns (own: Result<map<string, Role>, LoadError>)
    modifies warnings
    ensures layer.folder.Unlistable? ==>
              own == Err(ListError(layer.folder.error)) && warnings.items == old(warnings.items) + EarlyWarnings(layer)
    ensures !layer.folder.Unlistable? ==>
              own == Ok(Own(layer)) && warnings.items == old(warnings.items) + OwnWarnings(layer)
  {
    hide Names, DeclareFirst, DiscoverFirst, AddFirst;
    var agents: map<string, Declaration> := map[];
    match layer.agents {
      case MalformedAgents(error) => warnings.Push(Malformed(error));
      case Agents(roles) => agents := roles;
      case NoAgents =>
    }
    var declared, declaredFiles := ReadDeclaredRoles(agents, warnings);
    match layer.folder {
      case Unlistable(error) =>
        return Err(ListError(error));
      case Listed(files) =>
        var found := DiscoverAgentRolesInDir(files, declaredFiles, warnings);
        var layerRoles := AddDiscovered(declared, found, warnings);
        own := Ok(layerRoles);
      case NoFolder =>
        NothingFound(layer);
        own := Ok(declared);
    }
  }

  lemma NothingFound(layer: Layer)
    requires layer.folder.NoFolder?
    ensures FoundIn(layer) == Found(map[], []) && Combined(layer) == Found(DeclaredIn(layer).roles, [])
  {
    hide DeclaredIn;
    NamesCount(FoundIn(layer).roles);
  }

  /** `load_agent_roles`: every layer from low to high, or the plain configuration if there is none. */
  method LoadAgentRoles(agents: Option<map<string, Declaration>>, layers: seq<Layer>, warnings: StartupWarnings)
    returns (result: Result<map<string, Role>, LoadError>)
    modifies warnings
    ensures layers == [] && agents.None? ==> result == Ok(map[])
    ensures layers == [] && agents.Some? ==>
              var names := Names(agents.value); result == AloneFirst(names, agents.value, |names|)
    ensures layers == [] ==> warnings.items == old(warnings.items)
    ensures layers != [] && Listable(layers, |layers|) ==>
              && result == Ok(Merged(Owns(layers)))
              && warnings.items == old(warnings.items) + Loaded(layers).warnings
    ensures forall i | 0 <= i < |layers| && Listable(layers, i) && layers[i].folder.Unlistable? ::
              && result == Err(ListError(layers[i].folder.error))
              && warnings.items == old(warnings.items) + Loaded(layers[..i]).warnings + EarlyWarnings(layers[i])
  {
    hide Names, Own, OwnWarnings, EarlyWarnings, MergeOwn, Loaded, Merged, AloneFirst;
    if layers == [] {
      result := LoadWithoutLayers(agents);
      return;
    }
    var roles: map<string, Role> := map[];
    LoadedNone();
    assert layers[..0] == [];
    for k := 0 to |layers|
      invariant Listable(layers, k) && roles == Loaded(layers[..k]).roles
      invariant warnings.items == old(warnings.items) + Loaded(layers[..k]).warnings
    {
      assert layers[..k + 1] == layers[..k] + [layers[k]];
      LoadedSnoc(layers[..k], layers[k]);
      var own := ReadLayer(layers[k], warnings);
      if own.Err? {
        return Err(own.error);
      }
      roles := MergeLayer(roles, own.value, warnings);
    }
    assert layers[..|layers|] == layers;
    LoadedIsMerged(layers);
    result := Ok(roles);
  }

  lemma LoadedNone()
    ensures Loaded([]) == Found(map[], [])
  {
  }
}
