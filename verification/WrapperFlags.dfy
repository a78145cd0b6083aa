/** Which arguments of the lint wrapper raise which flag, and what is filled in when none of them is given. */
module WrapperFlags {
  import opened Text
  import opened Wrappers
  import opened WrapperArgs

  /** Options whose value is the next argument. */
  const VALUED: map<string, Flag> := map[
    "--manifest-path" := ManifestPath, "-p" := PackageSelection, "--package" := PackageSelection,
    "--lib" := LibrarySelection, "--lib-path" := LibrarySelection]

  /** Options that carry their value behind an equals sign. */
  const ASSIGNED: map<string, Flag> := map[
    "--manifest-path=" := ManifestPath, "--package=" := PackageSelection,
    "--lib=" := LibrarySelection, "--lib-path=" := LibrarySelection]

  const PLAIN: map<string, Flag> := map["--fix" := Fix, "--workspace" := PackageSelection, "--no-deps" := NoDeps]

  ghost predicate Says(arg: string, flag: Flag) {
    || (arg in PLAIN && PLAIN[arg] == flag)
    || (exists option :: option in ASSIGNED && StartsWith(arg, option) && ASSIGNED[option] == flag)
  }

  lemma Missing(arg: string, option: string, c: char)
    requires c in option && c !in arg
    ensures !StartsWith(arg, option)
  {
    var i :| 0 <= i < |option| && option[i] == c;
    assert |option| <= |arg| ==> arg[..|option|][i] == arg[i];
  }

  /** An option without an equals sign starts with none of those that have one. */
  lemma NoAssignment(arg: string)
    requires arg in VALUED || arg in PLAIN
    ensures forall option | option in ASSIGNED :: !StartsWith(arg, option)
  {
    assert '=' !in arg;
    forall option | option in ASSIGNED ensures !StartsWith(arg, option) {
      assert '=' in option;
      Missing(arg, option, '=');
    }
  }

  lemma MeansAwaits(arg: string, flag: Flag)
    ensures Means(arg) == Awaits(flag) <==> arg in VALUED && VALUED[arg] == flag
  {
    hide StartsWith;
    if arg in VALUED {
      NoAssignment(arg);
    }
  }

  lemma MeansRaises(arg: string, flag: Flag)
    ensures Means(arg) == Raises(flag) <==> Says(arg, flag)
  {
    hide StartsWith;
    if arg in VALUED || arg in PLAIN {
      NoAssignment(arg);
    } else {
      OneAssignment(arg);
    }
  }

  /** Options with different flags do not start alike. */
  lemma OneAssignment(arg: string)
    ensures forall a, b | a in ASSIGNED && b in ASSIGNED && StartsWith(arg, a) && StartsWith(arg, b) :: ASSIGNED[a] == ASSIGNED[b]
  {
    forall a, b | a in ASSIGNED && b in ASSIGNED && StartsWith(arg, a) && StartsWith(arg, b) ensures ASSIGNED[a] == ASSIGNED[b] {
      assert a[2] == arg[..|a|][2] == arg[2];
      assert b[2] == arg[..|b|][2] == arg[2];
    }
  }

  // ---- a list of arguments ----------------------------------------------------

  /** The argument is the value of the option before it, whatever it looks like. */
  predicate IsValue(args: seq<string>, i: nat)
    requires i < |args|
  {
    i > 0 && args[i - 1] in VALUED && !IsValue(args, i - 1)
  }

  ghost predicate RaisedAt(args: seq<string>, i: nat, flag: Flag)
    requires i < |args|
  {
    if IsValue(args, i) then VALUED[args[i - 1]] == flag else Says(args[i], flag)
  }

  lemma {:induction false} ValueKept(args: seq<string>, last: string, i: nat)
    requires i < |args|
    ensures IsValue(args + [last], i) == IsValue(args, i)
  {
    hide VALUED;
    if i > 0 {
      ValueKept(args, last, i - 1);
      assert (args + [last])[i - 1] == args[i - 1];
    }
  }

  lemma RaisedKept(args: seq<string>, last: string, i: nat, flag: Flag)
    requires i < |args|
    ensures RaisedAt(args + [last], i, flag) <==> RaisedAt(args, i, flag)
  {
    hide IsValue, Says, VALUED;
    ValueKept(args, last, i);
    assert (args + [last])[i] == args[i];
    if IsValue(args, i) {
      ValueHasOption(args, i);
      assert (args + [last])[i - 1] == args[i - 1];
    }
  }

  lemma ValueHasOption(args: seq<string>, i: nat)
    requires i < |args| && IsValue(args, i)
    ensures i > 0 && args[i - 1] in VALUED
  {
  }

  /** What is still awaited after a list: the value of its last option, if that is no value itself. */
  ghost predicate Awaited(args: seq<string>, flag: Flag) {
    args != [] && !IsValue(args, |args| - 1) && args[|args| - 1] in VALUED && VALUED[args[|args| - 1]] == flag
  }

  /** A flag is raised exactly when some argument says so, or is the value of an option that stands for it. */
  lemma {:induction false} RaisedIff(args: seq<string>, flag: Flag)
    ensures flag in Scan(args, None).has <==> exists i :: 0 <= i < |args| && RaisedAt(args, i, flag)
    ensures forall f :: Scan(args, None).awaited == Some(f) <==> Awaited(args, f)
    decreases |args|
  {
    hide Scan, RaisedAt, Awaited;
    if args == [] {
      NothingParsed();
      forall f ensures !Awaited([], f) { NothingAwaited(f); }
    } else {
      var n := |args| - 1;
      var front, last := args[..n], args[n];
      assert args == front + [last];
      RaisedIff(front, flag);
      ScanSnoc(front, last);
      forall f
        ensures f in Take(last, Scan(front, None).awaited).has <==> RaisedAt(args, n, f)
        ensures Scan(args, None).awaited == Some(f) <==> Awaited(args, f)
      {
        LastArgument(front, last, f, Scan(front, None).awaited);
      }
      if i :| 0 <= i < |args| && RaisedAt(args, i, flag) {
        if i < n { RaisedKept(front, last, i, flag); }
      }
      if i :| 0 <= i < n && RaisedAt(front, i, flag) {
        RaisedKept(front, last, i, flag);
      }
    }
  }

  lemma NothingAwaited(flag: Flag)
    ensures !Awaited([], flag)
  {
  }

  lemma LastArgument(front: seq<string>, last: string, flag: Flag, awaited: Option<Flag>)
    requires awaited.Some? ==> Awaited(front, awaited.value)
    requires forall f :: Awaited(front, f) ==> awaited == Some(f)
    ensures flag in Take(last, awaited).has <==> RaisedAt(front + [last], |front|, flag)
    ensures Take(last, awaited).awaited == Some(flag) <==> Awaited(front + [last], flag)
  {
    hide Means, Says, VALUED;
    var args := front + [last];
    MeansAwaits(last, flag);
    MeansRaises(last, flag);
    if front != [] {
      ValueKept(front, last, |front| - 1);
      assert args[|front| - 1] == front[|front| - 1];
    }
    assert args[|front|] == last;
    if front != [] && front[|front| - 1] in VALUED && !IsValue(front, |front| - 1) {
      assert Awaited(front, VALUED[front[|front| - 1]]);
    }
  }

  // ---- the other side ---------------------------------------------------------

  const TARGETS := ["--all-targets", "--lib", "--bins", "--tests", "--examples", "--benches", "--doc"]
  const NAMED_TARGETS := ["--bin", "--test", "--example", "--bench"]

  /** A cargo argument selects a target when it is one of these options, alone or with a name. */
  lemma TargetMeans(arg: string)
    ensures SelectsTarget(arg) <==>
              arg in TARGETS || arg in NAMED_TARGETS || exists option | option in NAMED_TARGETS :: StartsWith(arg, option + "=")
  {
    assert "--bin" + "=" == "--bin=" && "--test" + "=" == "--test=";
    assert "--example" + "=" == "--example=" && "--bench" + "=" == "--bench=";
    hide StartsWith;
    assert forall option | option in NAMED_TARGETS ::
             option == "--bin" || option == "--test" || option == "--example" || option == "--bench";
    assert "--bin" in NAMED_TARGETS && "--test" in NAMED_TARGETS && "--example" in NAMED_TARGETS && "--bench" in NAMED_TARGETS;
  }

  /** Without arguments everything is filled in. */
  lemma AllDefaults(manifestPath: string)
    ensures Build(Parse([]), manifestPath)
         == ["--manifest-path", manifestPath, "--workspace", "--no-deps", "--", "--all-targets"]
  {
    assert CargoFlags([]) == {} && Scan([], None) == Scanned({}, None);
    assert Parse([]) == Parsed([], [], {});
  }
}
