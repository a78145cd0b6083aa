/** The argument wrapper of the comment lint: `parse_wrapper_args` and `build_final_args`. */
module WrapperArgs {

  import opened Text
  import opened Wrappers

  const SEPARATOR := "--"

  /** The `has_*` fields of the parsed arguments; the ones that are true are kept in a set. */
  datatype Flag = ManifestPath | PackageSelection | NoDeps | LibrarySelection | CargoTargetSelection | Fix

  datatype Parsed = Parsed(lintArgs: seq<string>, cargoArgs: seq<string>, has: set<Flag>)

  // ---- what one argument says -------------------------------------------------

  predicate SelectsTarget(arg: string) {
    || arg in {"--all-targets", "--lib", "--bins", "--tests", "--examples", "--benches", "--doc"}
    || arg in {"--bin", "--test", "--example", "--bench"}
    || StartsWith(arg, "--bin=") || StartsWith(arg, "--test=")
    || StartsWith(arg, "--example=") || StartsWith(arg, "--bench=")
  }

  /** The flag an argument raises by itself, or the one the argument after it will raise, whatever it is. */
  datatype Meaning = Nothing | Raises(flag: Flag) | Awaits(flag: Flag)

  function Means(arg: string): Meaning {
    if arg == "--manifest-path" then Awaits(ManifestPath)
    else if StartsWith(arg, "--manifest-path=") then Raises(ManifestPath)
    else if arg == "-p" || arg == "--package" then Awaits(PackageSelection)
    else if StartsWith(arg, "--package=") then Raises(PackageSelection)
    else if arg == "--fix" then Raises(Fix)
    else if arg == "--workspace" then Raises(PackageSelection)
    else if arg == "--no-deps" then Raises(NoDeps)
    else if arg == "--lib" || arg == "--lib-path" then Awaits(LibrarySelection)
    else if StartsWith(arg, "--lib=") || StartsWith(arg, "--lib-path=") then Raises(LibrarySelection)
    else Nothing
  }

  datatype Scanned = Scanned(has: set<Flag>, awaited: Option<Flag>)

  /** One lint argument: what was awaited is raised, or else what the argument itself means. */
  function Take(arg: string, awaited: Option<Flag>): Scanned {
    if awaited.Some? then Scanned({awaited.value}, None)
    else
      match Means(arg)
      case Nothing => Scanned({}, None)
      case Raises(flag) => Scanned({flag}, None)
      case Awaits(flag) => Scanned({}, Some(flag))
  }

  // ---- what a list of lint arguments says -------------------------------------

  function Scan(args: seq<string>, awaited: Option<Flag>): Scanned {
    if args == [] then Scanned({}, awaited)
    else
      var first := Take(args[0], awaited);
      var rest := Scan(args[1..], first.awaited);
      Scanned(first.has + rest.has, rest.awaited)
  }

  lemma {:induction false} ScanAppend(a: seq<string>, b: seq<string>, awaited: Option<Flag>)
    ensures var first := Scan(a, awaited);
            var second := Scan(b, first.awaited);
            Scan(a + b, awaited) == Scanned(first.has + second.has, second.awaited)
    decreases |a|
  {
    hide Take;
    if a == [] {
      assert a + b == b;
    } else {
      assert (a + b)[1..] == a[1..] + b;
      ScanAppend(a[1..], b, Take(a[0], awaited).awaited);
    }
  }

  predicate AnySelectsTarget(args: seq<string>) {
    exists i :: 0 <= i < |args| && SelectsTarget(args[i])
  }

  function CargoFlags(args: seq<string>): set<Flag> {
    if AnySelectsTarget(args) then {CargoTargetSelection} else {}
  }

  // ---- parsing ----------------------------------------------------------------

  /** The number of arguments ahead of the first separator. */
  function LintLength(args: seq<string>): (n: nat)
    ensures n <= |args| && SEPARATOR !in args[..n]
    ensures n < |args| ==> args[n] == SEPARATOR
  {
    if args == [] || args[0] == SEPARATOR then 0 else 1 + LintLength(args[1..])
  }

  function Parse(args: seq<string>): Parsed {
    var n := LintLength(args);
    var cargo := if n < |args| then args[n + 1..] else [];
    Parsed(args[..n], cargo, Scan(args[..n], None).has + CargoFlags(cargo))
  }

  lemma {:induction false} LintLengthIs(args: seq<string>, n: nat)
    requires n <= |args| && SEPARATOR !in args[..n] && (n < |args| ==> args[n] == SEPARATOR)
    ensures LintLength(args) == n
  {
    if n > 0 {
      assert args[0] == args[..n][0];
      assert args[1..][..n - 1] == args[..n][1..];
      LintLengthIs(args[1..], n - 1);
    }
  }

  /** Parsing arguments put together from a list without separator and, perhaps, a separated rest. */
  lemma ParsePieces(lint: seq<string>, cargo: seq<string>)
    requires SEPARATOR !in lint
    ensures Parse(lint + if cargo == [] then [] else [SEPARATOR] + cargo)
         == Parsed(lint, cargo, Scan(lint, None).has + CargoFlags(cargo))
  {
    var args := lint + if cargo == [] then [] else [SEPARATOR] + cargo;
    assert args[..|lint|] == lint;
    LintLengthIs(args, |lint|);
    if cargo != [] {
      assert args[|lint| + 1..] == cargo;
    }
  }

  lemma CargoSnoc(cargo: seq<string>, arg: string)
    ensures CargoFlags(cargo + [arg]) == CargoFlags(cargo) + if SelectsTarget(arg) then {CargoTargetSelection} else {}
  {
    hide SelectsTarget;
    var all := cargo + [arg];
    assert all[|cargo|] == arg;
    if AnySelectsTarget(cargo) {
      var i :| 0 <= i < |cargo| && SelectsTarget(cargo[i]);
      assert SelectsTarget(all[i]);
    }
    if AnySelectsTarget(all) {
      var i :| 0 <= i < |all| && SelectsTarget(all[i]);
      assert i < |cargo| ==> SelectsTarget(cargo[i]);
    }
  }

  lemma ScanSnoc(lint: seq<string>, arg: string)
    ensures var before := Scan(lint, None);
            var last := Take(arg, before.awaited);
            Scan(lint + [arg], None) == Scanned(before.has + last.has, last.awaited)
  {
    hide Take;
    ScanAppend(lint, [arg], None);
    assert [arg][1..] == [];
  }

  /** The single loop of the source. */
  method ParseWrapperArgs(argv: seq<string>) returns (parsed: Parsed)
    ensures parsed == Parse(argv)
  {
    hide Scan, SelectsTarget, StartsWith, CargoFlags, LintLength;
    var lintArgs: seq<string>, cargoArgs: seq<string>, has: set<Flag> := [], [], {};
    var afterSeparator, expectValue: Option<Flag> := false, None;
    NothingParsed();
    for k := 0 to |argv|
      invariant !afterSeparator ==>
                  && argv[..k] == lintArgs && SEPARATOR !in lintArgs && cargoArgs == []
                  && Scan(lintArgs, None) == Scanned(has, expectValue)
      invariant afterSeparator ==>
                  && argv[..k] == lintArgs + [SEPARATOR] + cargoArgs && SEPARATOR !in lintArgs
                  && has == Scan(lintArgs, None).has + CargoFlags(cargoArgs)
    {
      var arg := argv[k];
      assert argv[..k + 1] == argv[..k] + [arg];
      if afterSeparator {
        CargoSnoc(cargoArgs, arg);
        cargoArgs := cargoArgs + [arg];
        if SelectsTarget(arg) {
          has := has + {CargoTargetSelection};
        }
        continue;
      }
      if arg == SEPARATOR {
        afterSeparator := true;
        continue;
      }
      ScanSnoc(lintArgs, arg);
      lintArgs := lintArgs + [arg];
      if expectValue.Some? {
        has := has + {expectValue.value};
        expectValue := None;
        continue;
      }
      if arg == "--manifest-path" {
        expectValue := Some(ManifestPath);
      } else if StartsWith(arg, "--manifest-path=") {
        has := has + {ManifestPath};
      } else if arg == "-p" || arg == "--package" {
        expectValue := Some(PackageSelection);
      } else if StartsWith(arg, "--package=") {
        has := has + {PackageSelection};
      } else if arg == "--fix" {
        has := has + {Fix};
      } else if arg == "--workspace" {
        has := has + {PackageSelection};
      } else if arg == "--no-deps" {
        has := has + {NoDeps};
      } else if arg == "--lib" || arg == "--lib-path" {
        expectValue := Some(LibrarySelection);
      } else if StartsWith(arg, "--lib=") || StartsWith(arg, "--lib-path=") {
        has := has + {LibrarySelection};
      }
    }
    assert argv[..|argv|] == argv;
    parsed := Parsed(lintArgs, cargoArgs, has);
    ParsedAll(argv, lintArgs, cargoArgs, afterSeparator);
  }

  lemma NothingParsed()
    ensures Scan([], None) == Scanned({}, None) && CargoFlags([]) == {}
  {
  }

  lemma ParsedAll(argv: seq<string>, lint: seq<string>, cargo: seq<string>, separated: bool)
    requires SEPARATOR !in lint && (!separated ==> cargo == [])
    requires argv == if separated then lint + [SEPARATOR] + cargo else lint
    ensures Parse(argv) == Parsed(lint, cargo, Scan(lint, None).has + CargoFlags(cargo))
  {
    hide Scan, CargoFlags;
    assert argv[..|lint|] == lint;
    LintLengthIs(argv, |lint|);
    if separated {
      assert argv[|lint| + 1..] == cargo;
    }
  }

  // ---- building ---------------------------------------------------------------

  /** The arguments put in front of the lint arguments. */
  function Front(p: Parsed, manifestPath: string): seq<string> {
    (if ManifestPath in p.has then [] else ["--manifest-path", manifestPath])
    + (if PackageSelection in p.has || ManifestPath in p.has then [] else ["--workspace"])
    + (if NoDeps in p.has then [] else ["--no-deps"])
  }

  function Cargo(p: Parsed): seq<string> {
    p.cargoArgs + if Fix in p.has || CargoTargetSelection in p.has then [] else ["--all-targets"]
  }

  function Build(p: Parsed, manifestPath: string): seq<string> {
    Front(p, manifestPath) + p.lintArgs + if Cargo(p) == [] then [] else [SEPARATOR] + Cargo(p)
  }

  method BuildFinalArgs(parsed: Parsed, manifestPath: string) returns (finalArgs: seq<string>)
    ensures finalArgs == Build(parsed, manifestPath)
  {
    finalArgs := [];
    var cargoArgs := parsed.cargoArgs;
    if ManifestPath !in parsed.has {
      finalArgs := finalArgs + ["--manifest-path", manifestPath];
    }
    if PackageSelection !in parsed.has && ManifestPath !in parsed.has {
      finalArgs := finalArgs + ["--workspace"];
    }
    if NoDeps !in parsed.has {
      finalArgs := finalArgs + ["--no-deps"];
    }
    if Fix !in parsed.has && CargoTargetSelection !in parsed.has {
      cargoArgs := cargoArgs + ["--all-targets"];
    }
    finalArgs := finalArgs + parsed.lintArgs;
    if cargoArgs != [] {
      finalArgs := finalArgs + ([SEPARATOR] + cargoArgs);
    }
  }

  // ---- the fixed point --------------------------------------------------------

  /** What the arguments in front say, read before any others. */
  lemma FrontScanned(p: Parsed, manifestPath: string)
    ensures Scan(Front(p, manifestPath), None)
         == Scanned((if ManifestPath in p.has then {} else {ManifestPath})
                    + (if PackageSelection in p.has || ManifestPath in p.has then {} else {PackageSelection})
                    + (if NoDeps in p.has then {} else {NoDeps}), None)
  {
    ScanOne("--workspace", PackageSelection);
    ScanOne("--no-deps", NoDeps);
    ManifestScanned(manifestPath);
    hide Scan;
    NothingParsed();
    var manifest := if ManifestPath in p.has then [] else ["--manifest-path", manifestPath];
    var workspace := if PackageSelection in p.has || ManifestPath in p.has then [] else ["--workspace"];
    var noDeps := if NoDeps in p.has then [] else ["--no-deps"];
    ScanAppend(manifest, workspace, None);
    ScanAppend(manifest + workspace, noDeps, None);
  }

  lemma ScanOne(arg: string, flag: Flag)
    requires Means(arg) == Raises(flag)
    ensures Scan([arg], None) == Scanned({flag}, None)
  {
    hide Means;
    assert [arg][1..] == [];
  }

  lemma ManifestScanned(manifestPath: string)
    ensures Scan(["--manifest-path", manifestPath], None) == Scanned({ManifestPath}, None)
  {
    hide Means;
    assert Means("--manifest-path") == Awaits(ManifestPath) by { ManifestAwaits(); }
    var args := ["--manifest-path", manifestPath];
    assert args[1..] == [manifestPath] && [manifestPath][1..] == [];
    assert Scan([manifestPath], Some(ManifestPath)) == Scanned({ManifestPath}, None);
    assert Take(args[0], None) == Scanned({}, Some(ManifestPath));
  }

  /** What every parse result satisfies. */
  ghost predicate Coherent(p: Parsed) {
    SEPARATOR !in p.lintArgs && p.has == Scan(p.lintArgs, None).has + CargoFlags(p.cargoArgs)
  }

  lemma ParseCoherent(args: seq<string>)
    ensures Coherent(Parse(args))
  {
    hide Scan, CargoFlags;
  }

  lemma FrontClean(p: Parsed, manifestPath: string)
    requires ManifestPath in p.has || manifestPath != SEPARATOR
    ensures SEPARATOR !in Front(p, manifestPath)
  {
  }

  /** Parsing what was built: all that was there before, and the defaults that were filled in. */
  lemma BuiltParses(p: Parsed, manifestPath: string)
    requires Coherent(p) && (ManifestPath in p.has || manifestPath != SEPARATOR)
    ensures var q := Parse(Build(p, manifestPath));
            && q.lintArgs == Front(p, manifestPath) + p.lintArgs
            && q.cargoArgs == Cargo(p)
            && q.has == p.has + {ManifestPath, NoDeps}
                        + (if ManifestPath in p.has then {} else {PackageSelection})
                        + (if Fix in p.has then {} else {CargoTargetSelection})
  {
    hide Scan, Parse, CargoFlags, Cargo, Front, SEPARATOR;
    var front := Front(p, manifestPath);
    FrontClean(p, manifestPath);
    ParsePieces(front + p.lintArgs, Cargo(p));
    FrontScanned(p, manifestPath);
    ScanAppend(front, p.lintArgs, None);
    CargoFilled(p);
    var q := Parse(Build(p, manifestPath));
    assert q.has == Scan(front, None).has + (p.has + if Fix in p.has then {} else {CargoTargetSelection});
  }

  /** Without a fix, the cargo side always ends up with a target selection. */
  lemma CargoFilled(p: Parsed)
    requires p.has == Scan(p.lintArgs, None).has + CargoFlags(p.cargoArgs)
    ensures Scan(p.lintArgs, None).has + CargoFlags(Cargo(p)) == p.has + if Fix in p.has then {} else {CargoTargetSelection}
  {
    LintFlagsOnly(p.lintArgs, None);
    AllTargetsSelects();
    CargoSnoc(p.cargoArgs, "--all-targets");
    hide Scan, SelectsTarget, CargoFlags;
    assert p.cargoArgs + [] == p.cargoArgs;
  }

  lemma AllTargetsSelects()
    ensures SelectsTarget("--all-targets")
  {
  }

  /** Lint arguments never count as a target selection. */
  lemma {:induction false} LintFlagsOnly(args: seq<string>, awaited: Option<Flag>)
    requires awaited != Some(CargoTargetSelection)
    ensures CargoTargetSelection !in Scan(args, awaited).has
    decreases |args|
  {
    if args != [] {
      LintFlagsOnly(args[1..], Take(args[0], awaited).awaited);
    }
  }

  /**
   * Building is a fixed point: parsing the built arguments and building again changes
   * nothing. It holds exactly when the user named a manifest or the path given is not
   * the separator itself.
   */
  lemma RebuildIsStable(args: seq<string>, manifestPath: string)
    ensures var out := Build(Parse(args), manifestPath);
            Build(Parse(out), manifestPath) == out
            <==> ManifestPath in Parse(args).has || manifestPath != SEPARATOR
  {
    hide Parse, Scan, CargoFlags, Build, SEPARATOR;
    var p := Parse(args);
    if ManifestPath in p.has || manifestPath != SEPARATOR {
      ParseCoherent(args);
      BuiltParses(p, manifestPath);
      BuiltAgain(p, Parse(Build(p, manifestPath)), manifestPath);
    } else {
      SeparatorGrows(p);
    }
  }

  lemma BuiltAgain(p: Parsed, q: Parsed, manifestPath: string)
    requires q.lintArgs == Front(p, manifestPath) + p.lintArgs && q.cargoArgs == Cargo(p)
    requires ManifestPath in q.has && NoDeps in q.has && (Fix in q.has || CargoTargetSelection in q.has)
    ensures Build(q, manifestPath) == Build(p, manifestPath)
  {
    assert Front(q, manifestPath) == [];
    assert Cargo(q) == Cargo(p);
    hide Front, Cargo;
    assert [] + q.lintArgs == q.lintArgs;
  }

  /** A path that is the separator cuts its own flag off, so every round puts more in front. */
  lemma SeparatorGrows(p: Parsed)
    requires ManifestPath !in p.has
    ensures var out := Build(p, SEPARATOR); |Build(Parse(out), SEPARATOR)| > |out|
  {
    var out := Build(p, SEPARATOR);
    var rest := out[2..];
    assert out == ["--manifest-path"] + [SEPARATOR] + rest;
    ParsedAll(out, ["--manifest-path"], rest, true);
    var q := Parse(out);
    assert q.has <= {CargoTargetSelection} by { DanglingScanned(); }
    assert |Front(q, SEPARATOR)| == 4;
  }

  lemma DanglingScanned()
    ensures Scan(["--manifest-path"], None).has == {}
  {
    assert ["--manifest-path"][1..] == [];
  }

  lemma ManifestAwaits()
    ensures Means("--manifest-path") == Awaits(ManifestPath)
  {
  }

  /** Parsing splits at the first separator and loses nothing. */
  lemma ArgumentsSplit(args: seq<string>)
    ensures var p := Parse(args);
            && SEPARATOR !in p.lintArgs
            && (args == p.lintArgs + [SEPARATOR] + p.cargoArgs || (args == p.lintArgs && p.cargoArgs == []))
  {
    hide Scan, CargoFlags;
    var n := LintLength(args);
    if n < |args| {
      assert args == args[..n] + [args[n]] + args[n + 1..];
    } else {
      assert args[..n] == args;
    }
  }

  /** The user's own arguments survive the build in order, on their own side of the separator. */
  lemma ArgumentsKept(p: Parsed, manifestPath: string)
    ensures Front(p, manifestPath) + p.lintArgs + (if p.cargoArgs == [] then [] else [SEPARATOR] + p.cargoArgs)
         <= Build(p, manifestPath)
  {
    hide Front;
    assert p.cargoArgs <= Cargo(p);
  }
}
