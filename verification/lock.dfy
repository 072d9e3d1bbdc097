/** The Pyodide lock file and the two indices derived from it
    (shinylive/_deps.py): lower-cased package name -> lock key, and module
    name -> lock key, plus the name resolution built on them. The lock is an
    immutable value; `order` is the iteration order of its `packages`
    object, which decides which entry wins when two entries map the same
    name or module. */
module Lock {
  import opened Strings
  import opened Outcomes

  /** One entry of `packages` in pyodide-lock.json. `depends` lists package
      names (not keys); `imports` lists the modules the package provides. */
  datatype PackageInfo = PackageInfo(
    name: string,
    version: string,
    fileName: string,
    installDir: string,
    sha256: string,
    depends: seq<string>,
    imports: seq<string>)

  datatype LockFile = LockFile(order: seq<string>, packages: map<string, PackageInfo>)

  /** `order` enumerates the keys of `packages`, each once, as a JSON object's
      keys are. */
  ghost predicate Valid(lock: LockFile) {
    && (forall i, j :: 0 <= i < j < |lock.order| ==> lock.order[i] != lock.order[j])
    && (forall k :: k in lock.packages <==> k in lock.order)
  }

  /** Packages included in every deployment (`BASE_PYODIDE_PACKAGE_NAMES`). */
  const BasePackageNames: set<string> := {"distutils", "micropip", "ssl", "pyodide-http"}

  /** Pyodide files always copied (`BASE_PYODIDE_FILES`). */
  const BasePyodideFiles: set<string> := {"pyodide.asm.js", "pyodide.asm.wasm", "python_stdlib.zip", "pyodide-lock.json"}

  // ---------------------------------------------------------------------
  // name -> key
  // ---------------------------------------------------------------------

  /** Key `k` at index `j` of `order` is the last entry whose lower-cased
      package name is `n`. */
  ghost predicate LastWithName(order: seq<string>, packages: map<string, PackageInfo>, n: string, k: string) {
    exists j :: 0 <= j < |order| && order[j] == k &&
      forall j' :: j < j' < |order| && order[j'] in packages ==> Lower(packages[order[j']].name) != n
  }

  /** `_dep_name_to_dep_key_mappings` over the first entries of the lock: each
      entry maps its lower-cased name to its key, later entries overwriting. */
  function NameIndex(order: seq<string>, packages: map<string, PackageInfo>): (m: map<string, string>)
    ensures forall n :: n in m ==> m[n] in packages && Lower(packages[m[n]].name) == n
    decreases |order|
  {
    if |order| == 0 then map[]
    else
      var m := NameIndex(order[..|order| - 1], packages);
      var k := order[|order| - 1];
      if k in packages then m[Lower(packages[k].name) := k] else m
  }

  /** The key an indexed name maps to is the last entry carrying that name. */
  lemma {:induction false} NameIndexLast(order: seq<string>, packages: map<string, PackageInfo>, n: string)
    requires n in NameIndex(order, packages)
    ensures LastWithName(order, packages, n, NameIndex(order, packages)[n])
    decreases |order|
  {
    var init := order[..|order| - 1];
    var k := order[|order| - 1];
    var r := NameIndex(order, packages);
    if k in packages && n == Lower(packages[k].name) {
      assert order[|order| - 1] == r[n];
    } else {
      NameIndexLast(init, packages, n);
      var m := NameIndex(init, packages);
      var j :| 0 <= j < |init| && init[j] == m[n] &&
        forall j' :: j < j' < |init| && init[j'] in packages ==> Lower(packages[init[j']].name) != n;
      assert order[j] == r[n];
      forall j' | j < j' < |order| && order[j'] in packages
        ensures Lower(packages[order[j']].name) != n
      {
        if j' < |init| {
          assert init[j'] == order[j'];
        }
      }
    }
  }

  /** Every entry's lower-cased name is indexed. */
  lemma {:induction false} NameIndexComplete(order: seq<string>, packages: map<string, PackageInfo>, j: nat)
    requires j < |order| && order[j] in packages
    ensures Lower(packages[order[j]].name) in NameIndex(order, packages)
    decreases |order|
  {
    if j < |order| - 1 {
      var init := order[..|order| - 1];
      assert init[j] == order[j];
      NameIndexComplete(init, packages, j);
    }
  }

  function NameToKey(lock: LockFile): map<string, string> {
    NameIndex(lock.order, lock.packages)
  }

  /** `dep_name_to_dep_key(name)` (shinylive/_deps.py). */
  function DepNameToDepKey(lock: LockFile, name: string): (r: Option<string>)
    ensures name in BasePackageNames ==> r == Some(name)
    ensures name !in BasePackageNames && r.Some? ==>
              r.value in lock.packages && Lower(lock.packages[r.value].name) == Lower(name)
              && LastWithName(lock.order, lock.packages, Lower(name), r.value)
    ensures name !in BasePackageNames && Valid(lock) ==>
              (r.Some? <==> exists k :: k in lock.packages && Lower(lock.packages[k].name) == Lower(name))
  {
    if name in BasePackageNames then Some(name)
    else
      var n := Lower(name);
      var m := NameToKey(lock);
      NameIndexCovers(lock);
      if n in m then
        NameIndexLast(lock.order, lock.packages, n);
        Some(m[n])
      else None
  }

  lemma NameIndexCovers(lock: LockFile)
    ensures Valid(lock) ==> forall k :: k in lock.packages ==> Lower(lock.packages[k].name) in NameToKey(lock)
  {
    if Valid(lock) {
      forall k | k in lock.packages ensures Lower(lock.packages[k].name) in NameToKey(lock) {
        var j :| 0 <= j < |lock.order| && lock.order[j] == k;
        NameIndexComplete(lock.order, lock.packages, j);
      }
    }
  }

  /** Name lookup ignores ASCII case (outside the base names, which are
      matched exactly). */
  lemma DepNameCaseInsensitive(lock: LockFile, a: string, b: string)
    requires a !in BasePackageNames && b !in BasePackageNames
    requires Lower(a) == Lower(b)
    ensures DepNameToDepKey(lock, a) == DepNameToDepKey(lock, b)
  {
  }

  /** A name is resolvable when `_find_recursive_deps` keeps it: it maps to a
      key present in the lock. */
  predicate Resolves(lock: LockFile, name: string) {
    var k := DepNameToDepKey(lock, name);
    k.Some? && k.value in lock.packages
  }

  function PackageOf(lock: LockFile, name: string): PackageInfo
    requires Resolves(lock, name)
  {
    lock.packages[DepNameToDepKey(lock, name).value]
  }

  /** The declared dependencies of a name, empty for an unresolvable one. */
  function Depends(lock: LockFile, name: string): seq<string> {
    if Resolves(lock, name) then PackageOf(lock, name).depends else []
  }

  /** Every name any lock entry depends on. */
  function AllDepends(lock: LockFile): (s: set<string>)
    ensures forall n, d :: d in Depends(lock, n) ==> d in s
  {
    var s := set k, d | k in lock.packages && d in lock.packages[k].depends :: d;
    assert forall n, d :: d in Depends(lock, n) ==> d in s by {
      forall n, d | d in Depends(lock, n) ensures d in s {
        var k := DepNameToDepKey(lock, n).value;
        assert d in lock.packages[k].depends;
      }
    }
    s
  }

  // ---------------------------------------------------------------------
  // module -> key
  // ---------------------------------------------------------------------

  ghost predicate LastWithImport(order: seq<string>, packages: map<string, PackageInfo>, mod: string, k: string) {
    exists j :: 0 <= j < |order| && order[j] == k &&
      forall j' :: j < j' < |order| && order[j'] in packages ==> mod !in packages[order[j']].imports
  }

  /** `_module_to_package_key_mappings` over the first entries of the lock:
      every module an entry provides maps to that entry's key, later entries
      overwriting. */
  function ModuleIndex(order: seq<string>, packages: map<string, PackageInfo>): (m: map<string, string>)
    ensures forall mod :: mod in m ==> m[mod] in packages && mod in packages[m[mod]].imports
    decreases |order|
  {
    if |order| == 0 then map[]
    else
      var init := order[..|order| - 1];
      var k := order[|order| - 1];
      var m := ModuleIndex(init, packages);
      if k in packages then
        var mods := packages[k].imports;
        var keys := m.Keys + (set x | x in mods);
        map mod | mod in keys :: if mod in mods then k else m[mod]
      else m
  }

  /** The key a module maps to is the last entry providing that module. */
  lemma {:induction false} ModuleIndexLast(order: seq<string>, packages: map<string, PackageInfo>, mod: string)
    requires mod in ModuleIndex(order, packages)
    ensures LastWithImport(order, packages, mod, ModuleIndex(order, packages)[mod])
    decreases |order|
  {
    var init := order[..|order| - 1];
    var k := order[|order| - 1];
    var r := ModuleIndex(order, packages);
    if k in packages && mod in packages[k].imports {
      assert order[|order| - 1] == r[mod];
    } else {
      NameOrModuleStep(order, packages, mod);
      ModuleIndexLast(init, packages, mod);
      LastWithImportExtend(order, packages, mod, ModuleIndex(init, packages)[mod]);
    }
  }

  /** An entry that does not provide the module leaves its last provider as
      it was. */
  lemma LastWithImportExtend(order: seq<string>, packages: map<string, PackageInfo>, mod: string, key: string)
    requires |order| > 0 && LastWithImport(order[..|order| - 1], packages, mod, key)
    requires !(order[|order| - 1] in packages && mod in packages[order[|order| - 1]].imports)
    ensures LastWithImport(order, packages, mod, key)
  {
    var init := order[..|order| - 1];
    var j :| 0 <= j < |init| && init[j] == key &&
      forall j' :: j < j' < |init| && init[j'] in packages ==> mod !in packages[init[j']].imports;
    assert order[j] == key;
    forall j' | j < j' < |order| && order[j'] in packages
      ensures mod !in packages[order[j']].imports
    {
      if j' < |init| {
        assert init[j'] == order[j'];
      }
    }
  }

  lemma NameOrModuleStep(order: seq<string>, packages: map<string, PackageInfo>, mod: string)
    requires |order| > 0
    requires mod in ModuleIndex(order, packages)
    requires !(order[|order| - 1] in packages && mod in packages[order[|order| - 1]].imports)
    ensures mod in ModuleIndex(order[..|order| - 1], packages)
    ensures ModuleIndex(order, packages)[mod] == ModuleIndex(order[..|order| - 1], packages)[mod]
  {
  }

  /** Every module of every entry is indexed. */
  lemma {:induction false} ModuleIndexComplete(order: seq<string>, packages: map<string, PackageInfo>, j: nat, mod: string)
    requires j < |order| && order[j] in packages && mod in packages[order[j]].imports
    ensures mod in ModuleIndex(order, packages)
    decreases |order|
  {
    if j < |order| - 1 {
      var init := order[..|order| - 1];
      assert init[j] == order[j];
      ModuleIndexComplete(init, packages, j, mod);
    }
  }

  lemma ModuleIndexCovers(lock: LockFile)
    ensures Valid(lock) ==> forall k, mod :: k in lock.packages && mod in lock.packages[k].imports
                              ==> mod in ModuleIndex(lock.order, lock.packages)
  {
    if Valid(lock) {
      forall k, mod | k in lock.packages && mod in lock.packages[k].imports
        ensures mod in ModuleIndex(lock.order, lock.packages)
      {
        var j :| 0 <= j < |lock.order| && lock.order[j] == k;
        ModuleIndexComplete(lock.order, lock.packages, j, mod);
      }
    }
  }

  /** `module_to_package_key(module)` (shinylive/_deps.py): an exact,
      case-sensitive lookup of the module among the lock entries' `imports`. */
  function ModuleToPackageKey(lock: LockFile, mod: string): (r: Option<string>)
    ensures r.Some? ==> r.value in lock.packages && mod in lock.packages[r.value].imports
                        && LastWithImport(lock.order, lock.packages, mod, r.value)
    ensures Valid(lock) ==> (r.Some? <==> exists k :: k in lock.packages && mod in lock.packages[k].imports)
  {
    var m := ModuleIndex(lock.order, lock.packages);
    ModuleIndexCovers(lock);
    if mod in m then
      ModuleIndexLast(lock.order, lock.packages, mod);
      Some(m[mod])
    else None
  }
}
