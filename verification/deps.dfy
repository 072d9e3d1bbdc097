/** Package discovery for an app (shinylive/_deps.py): the modules its
    Python files import and the names its requirements.txt lists become the
    seeds of the dependency closure, whose lock records are returned. */
module Deps {
  import opened Strings
  import opened Outcomes
  import opened Sorting
  import opened Lock
  import opened Closure
  import opened Requirements
  import opened Files

  // ---------------------------------------------------------------------
  // Imports of one Python source
  // ---------------------------------------------------------------------

  /** The nodes of a parsed module that `_find_imports` looks at:
      `import a.b, c` and `from m import x` (whose module is absent for
      `from . import x`). */
  datatype ImportNode = Import(names: seq<string>) | ImportFrom(source: Option<string>)

  /** Dedenting, `ast.parse` and `ast.walk` together: the import nodes of a
      source in walk order, or None on a syntax error. */
  type Parser = string -> Option<seq<ImportNode>>

  /** `name.split(".")[0]`: the top-level package of a dotted module name. */
  function FirstSegment(name: string): (r: string)
    ensures '.' !in r && StartsWith(name, r)
    ensures |r| < |name| ==> name[|r|] == '.'
  {
    var r := Split(name, '.')[0];
    assert r == name[..IndexOf(name, '.')];
    r
  }

  function NodeModules(node: ImportNode): seq<string> {
    match node
    case Import(names) => seq(|names|, i requires 0 <= i < |names| => FirstSegment(names[i]))
    case ImportFrom(source) => if source.Some? then [FirstSegment(source.value)] else []
  }

  /** The first segments collected while walking the nodes, in walk order. */
  function WalkModules(nodes: seq<ImportNode>): seq<string> {
    if |nodes| == 0 then [] else NodeModules(nodes[0]) + WalkModules(nodes[1..])
  }

  /** Node `node` names top-level module `m`. */
  predicate Names(node: ImportNode, m: string) {
    match node
    case Import(names) => exists i :: 0 <= i < |names| && FirstSegment(names[i]) == m
    case ImportFrom(source) => source.Some? && FirstSegment(source.value) == m
  }

  /** The walk collects exactly the modules some node names. */
  lemma {:induction false} WalkModulesNamed(nodes: seq<ImportNode>, m: string)
    ensures m in WalkModules(nodes) <==> exists j :: 0 <= j < |nodes| && Names(nodes[j], m)
    decreases |nodes|
  {
    if |nodes| > 0 {
      WalkModulesNamed(nodes[1..], m);
      var node := nodes[0];
      assert m in NodeModules(node) <==> Names(node, m) by {
        if node.Import? {
          var ms := NodeModules(node);
          if m in ms {
            var i :| 0 <= i < |ms| && ms[i] == m;
            assert FirstSegment(node.names[i]) == m;
          }
          if Names(node, m) {
            var i :| 0 <= i < |node.names| && FirstSegment(node.names[i]) == m;
            assert ms[i] == m;
          }
        }
      }
      if exists j :: 0 <= j < |nodes| && Names(nodes[j], m) {
        var j :| 0 <= j < |nodes| && Names(nodes[j], m);
        if j > 0 {
          assert nodes[1..][j - 1] == nodes[j];
        }
      }
      if exists j :: 0 <= j < |nodes[1..]| && Names(nodes[1..][j], m) {
        var j :| 0 <= j < |nodes[1..]| && Names(nodes[1..][j], m);
        assert nodes[j + 1] == nodes[1..][j];
      }
    }
  }

  /** `_find_imports(source)` after parsing: the sorted, duplicate-free top-level
      modules the source imports; nothing for a source that does not parse. */
  function FindImports(parse: Parser, source: string): (r: seq<string>)
    ensures StrictlySorted(r)
    ensures parse(source).None? ==> r == []
    ensures parse(source).Some? ==> forall m :: m in r <==> m in WalkModules(parse(source).value)
  {
    match parse(source)
    case None => []
    case Some(nodes) => SortedSet(WalkModules(nodes))
  }

  /** A source whose only nodes are `from . import x` imports nothing. */
  lemma RelativeImportOnly(parse: Parser, source: string, n: nat)
    requires parse(source) == Some(seq(n, _ => ImportFrom(None)))
    ensures FindImports(parse, source) == []
  {
    WalkRelativeOnly(seq(n, _ => ImportFrom(None)));
    assert Sort([]) == [];
  }

  lemma {:induction false} WalkRelativeOnly(nodes: seq<ImportNode>)
    requires forall i :: 0 <= i < |nodes| ==> nodes[i] == ImportFrom(None)
    ensures WalkModules(nodes) == []
    decreases |nodes|
  {
    if |nodes| > 0 {
      WalkRelativeOnly(nodes[1..]);
    }
  }

  // ---------------------------------------------------------------------
  // Seeds from the app's files
  // ---------------------------------------------------------------------

  /** Modules imported by the files whose name ends in ".py". */
  function PyModules(parse: Parser, files: seq<FileContent>): (r: set<string>)
    ensures forall m :: m in r <==> exists j :: 0 <= j < |files| && EndsWith(files[j].name, ".py")
                                        && m in FindImports(parse, files[j].content)
  {
    if |files| == 0 then {}
    else
      var rest := PyModules(parse, files[1..]);
      var here: set<string> := if EndsWith(files[0].name, ".py") then set m | m in FindImports(parse, files[0].content) else {};
      assert forall j :: 0 < j < |files| ==> files[1..][j - 1] == files[j];
      here + rest
  }

  /** `_find_import_app_contents(app_contents)`: the lock keys of the modules
      imported by ".py" files; modules no entry provides are dropped. */
  function FindImportAppContents(lock: LockFile, parse: Parser, files: seq<FileContent>): (r: set<string>)
    ensures forall k :: k in r <==> exists m :: m in PyModules(parse, files) && ModuleToPackageKey(lock, m) == Some(k)
    ensures forall k :: k in r ==> k in lock.packages
  {
    var mods := PyModules(parse, files);
    set m | m in mods && ModuleToPackageKey(lock, m).Some? :: ModuleToPackageKey(lock, m).value
  }

  /** `_find_requirements_app_contents(app_contents)`: the names listed by the
      files named exactly "requirements.txt". */
  function FindRequirementsAppContents(files: seq<FileContent>): (r: set<string>)
    ensures forall x :: x in r <==> exists j :: 0 <= j < |files| && files[j].name == "requirements.txt"
                                        && x in FindPackagesInRequirements(files[j].content)
  {
    if |files| == 0 then {}
    else
      var rest := FindRequirementsAppContents(files[1..]);
      var here: set<string> := if files[0].name == "requirements.txt" then set x | x in FindPackagesInRequirements(files[0].content) else {};
      assert forall j :: 0 < j < |files| ==> files[1..][j - 1] == files[j];
      here + rest
  }

  // ---------------------------------------------------------------------
  // Lock records of a closure
  // ---------------------------------------------------------------------

  /** `_dep_names_to_pyodide_pkg_infos(dep_names)`: the lock record of each
      name, in order. Names that map to no key are skipped; a name that maps
      to a key missing from the lock (a base name the lock lacks) raises
      KeyError. */
  function DepNamesToPkgInfos(lock: LockFile, names: seq<string>): (r: Result<seq<PackageInfo>>)
    ensures r.Ok? <==> forall j :: 0 <= j < |names| && DepNameToDepKey(lock, names[j]).Some?
                          ==> DepNameToDepKey(lock, names[j]).value in lock.packages
    ensures r.Err? ==> r.error.KeyError? && r.error.key !in lock.packages
    ensures r.Ok? ==> |r.value| <= |names|
  {
    if |names| == 0 then Ok([])
    else
      var key := DepNameToDepKey(lock, names[0]);
      assert forall j :: 0 < j < |names| ==> names[1..][j - 1] == names[j];
      if key.None? then DepNamesToPkgInfos(lock, names[1..])
      else if key.value !in lock.packages then Err(KeyError(key.value))
      else
        var rest :- DepNamesToPkgInfos(lock, names[1..]);
        Ok([lock.packages[key.value]] + rest)
  }

  /** On names that all resolve, the conversion never fails and returns one
      record per name: the record its key selects. */
  lemma {:induction false} PkgInfosOfResolved(lock: LockFile, names: seq<string>)
    requires forall n :: n in names ==> Resolves(lock, n)
    ensures DepNamesToPkgInfos(lock, names).Ok?
    ensures |DepNamesToPkgInfos(lock, names).value| == |names|
    ensures forall j :: 0 <= j < |names| ==> DepNamesToPkgInfos(lock, names).value[j] == PackageOf(lock, names[j])
    decreases |names|
  {
    if |names| > 0 {
      assert names[0] in names;
      assert forall n :: n in names[1..] ==> n in names;
      PkgInfosOfResolved(lock, names[1..]);
      var r := DepNamesToPkgInfos(lock, names).value;
      forall j | 0 < j < |names| ensures r[j] == PackageOf(lock, names[j]) {
        assert names[1..][j - 1] == names[j];
      }
    }
  }

  /** A base package name is kept exactly when the lock has an entry under
      that very key. */
  lemma BaseNameResolves(lock: LockFile, name: string)
    requires name in BasePackageNames
    ensures Resolves(lock, name) <==> name in lock.packages
  {
  }

  /** Python's `list(s)` of a set: every member once, in an unspecified
      order. */
  method SetToSeq(s: set<string>) returns (xs: seq<string>)
    ensures Distinct(xs)
    ensures forall x :: x in xs <==> x in s
  {
    xs := [];
    var rest := s;
    while rest != {}
      invariant forall x :: x in s <==> x in rest || x in xs
      invariant forall x :: x in rest ==> x !in xs
      invariant Distinct(xs)
      decreases |rest|
    {
      var x :| x in rest;
      xs := xs + [x];
      rest := rest - {x};
    }
  }

  /** The closure of a seed set and its lock records, in closure order. */
  method PkgInfosOfSeeds(lock: LockFile, seeds: set<string>) returns (infos: seq<PackageInfo>, ghost names: seq<string>)
    ensures IsLeastClosure(LockGraph(lock), seeds, set x | x in names)
    ensures Distinct(names)
    ensures |infos| == |names|
    ensures forall j :: 0 <= j < |names| ==> Resolves(lock, names[j]) && infos[j] == PackageOf(lock, names[j])
    ensures forall j :: 0 <= j < |infos| ==> infos[j] in lock.packages.Values
  {
    var seedList := SetToSeq(seeds);
    assert (set x | x in seedList) == seeds;
    var closure := FindRecursiveDeps(lock, seedList);
    names := closure;
    assert forall n :: n in names ==> Resolves(lock, n) by {
      forall n | n in names ensures Resolves(lock, n) {
        assert LockGraph(lock).resolves(n);
      }
    }
    PkgInfosOfResolved(lock, closure);
    infos := DepNamesToPkgInfos(lock, closure).value;
  }

  /** `find_package_deps(app_contents)`: the lock records of the least
      dependency-closed set over the packages the app imports and the names
      its requirements.txt lists, once each, in closure order. */
  method FindPackageDeps(lock: LockFile, parse: Parser, files: seq<FileContent>)
    returns (infos: seq<PackageInfo>, ghost names: seq<string>)
    ensures IsLeastClosure(LockGraph(lock), FindImportAppContents(lock, parse, files) + FindRequirementsAppContents(files),
                           set x | x in names)
    ensures Distinct(names)
    ensures |infos| == |names|
    ensures forall j :: 0 <= j < |names| ==> Resolves(lock, names[j]) && infos[j] == PackageOf(lock, names[j])
    ensures forall j :: 0 <= j < |infos| ==> infos[j] in lock.packages.Values
  {
    var imports := FindImportAppContents(lock, parse, files);
    imports := imports + FindRequirementsAppContents(files);
    infos, names := PkgInfosOfSeeds(lock, imports);
  }

  /** `base_package_deps()`: the lock records of the closure of the base
      package names. */
  method BasePackageDeps(lock: LockFile) returns (infos: seq<PackageInfo>, ghost names: seq<string>)
    ensures IsLeastClosure(LockGraph(lock), BasePackageNames, set x | x in names)
    ensures Distinct(names)
    ensures |infos| == |names|
    ensures forall j :: 0 <= j < |names| ==> Resolves(lock, names[j]) && infos[j] == PackageOf(lock, names[j])
    ensures forall j :: 0 <= j < |infos| ==> infos[j] in lock.packages.Values
  {
    infos, names := PkgInfosOfSeeds(lock, BasePackageNames);
  }
}
