/** The cache of Shinylive web assets (shinylive/_assets.py): where the
    bundle of a version is downloaded from and installed to, and the rules by
    which versions are installed, replaced and removed, as transitions on the
    entries of the cache directory. Downloading and unpacking the tarball is
    one step that creates the version's directory. */
module Assets {
  import opened Strings
  import opened Outcomes
  import opened Paths

  // ---------------------------------------------------------------------
  // Names of a version's bundle
  // ---------------------------------------------------------------------

  const ReleasesUrl := "https://github.com/posit-dev/shinylive/releases/download/v"
  const TarballStem := "/shinylive-"
  const TarballExt := ".tar.gz"

  /** Every version lives in a cache entry with this prefix. */
  const VersionPrefix := "shinylive-"

  /** `shinylive_bundle_url(version)`: the release tarball of a version on
      GitHub. */
  function BundleUrl(version: string): (r: string)
    ensures StartsWith(r, ReleasesUrl) && EndsWith(r, TarballExt)
    ensures |r| == |ReleasesUrl| + |TarballStem| + |TarballExt| + 2 * |version|
  {
    ReleasesUrl + version + TarballStem + version + TarballExt
  }

  /** The version a bundle URL names: the URL is twice the version inside a
      fixed frame, so its length fixes the version's length. */
  function VersionOfUrl(url: string): (r: Option<string>)
    ensures r.Some? ==> BundleUrl(r.value) == url
  {
    var fixed := |ReleasesUrl| + |TarballStem| + |TarballExt|;
    if |url| < fixed || (|url| - fixed) % 2 != 0 then None
    else
      var v := url[|ReleasesUrl|..|ReleasesUrl| + (|url| - fixed) / 2];
      if BundleUrl(v) == url then Some(v) else None
  }

  /** The version can be read back from its bundle URL, so distinct versions
      have distinct URLs. */
  lemma BundleUrlRoundTrip(version: string)
    ensures VersionOfUrl(BundleUrl(version)) == Some(version)
  {
    FramedSlice(ReleasesUrl, version, TarballStem + version + TarballExt);
    assert ReleasesUrl + version + TarballStem + version + TarballExt
           == ReleasesUrl + version + (TarballStem + version + TarballExt);
  }

  lemma FramedSlice(a: string, v: string, b: string)
    ensures (a + v + b)[|a|..|a| + |v|] == v
  {
  }

  lemma BundleUrlInjective(v: string, w: string)
    requires BundleUrl(v) == BundleUrl(w)
    ensures v == w
  {
    BundleUrlRoundTrip(v);
    BundleUrlRoundTrip(w);
  }

  /** The cache entry name of a version. */
  function Target(version: string): string {
    VersionPrefix + version
  }

  /** `re.sub("^shinylive-", "", name)`: the version a cache entry name
      stands for. */
  function StripVersionPrefix(name: string): (r: string)
    ensures StartsWith(name, VersionPrefix) ==> Target(r) == name
    ensures !StartsWith(name, VersionPrefix) ==> r == name
  {
    if StartsWith(name, VersionPrefix) then name[|VersionPrefix|..] else name
  }

  lemma StripTarget(version: string)
    ensures StripVersionPrefix(Target(version)) == version
  {
    assert StartsWith(Target(version), VersionPrefix);
  }

  lemma TargetInjective(v: string, w: string)
    requires Target(v) == Target(w)
    ensures v == w
  {
    StripTarget(v);
    StripTarget(w);
  }

  lemma TargetNoSlash(version: string)
    requires '/' !in version
    ensures '/' !in Target(version) && !StartsWith(Target(version), ".")
  {
    assert forall k :: |VersionPrefix| <= k < |Target(version)| ==> Target(version)[k] == version[k - |VersionPrefix|];
    assert Target(version)[0] == 's';
  }

  /** `shinylive_assets_dir(version)`: the version's entry in the cache
      directory. */
  function AssetsDir(cacheDir: string, version: string): (r: string)
    ensures StartsWith(r, cacheDir) && EndsWith(r, Target(version))
  {
    assert Target(version)[0] == 's';
    PosixJoin(cacheDir, Target(version))
  }

  /** The version a path in the cache stands for, as cleanup reads it. */
  function VersionOfPath(path: string): string {
    StripVersionPrefix(Basename(path))
  }

  /** Cleanup reads back the version of every assets directory whose
      version is a single path component. */
  lemma AssetsDirVersion(cacheDir: string, version: string)
    requires '/' !in version
    ensures VersionOfPath(AssetsDir(cacheDir, version)) == version
  {
    TargetNoSlash(version);
    BasenameOfJoin(cacheDir, Target(version));
    StripTarget(version);
  }

  // ---------------------------------------------------------------------
  // The cache directory
  // ---------------------------------------------------------------------

  /** What a cache entry is, as `is_symlink` and `is_dir` see it. */
  datatype Kind = Dir | Symlink | File

  /** The entries of the cache directory by name. */
  type Cache = map<string, Kind>

  /** `listing` is an order in which `iterdir` can list the cache. */
  predicate Listing(cache: Cache, listing: seq<string>) {
    && (forall i, j :: 0 <= i < j < |listing| ==> listing[i] != listing[j])
    && (forall i :: 0 <= i < |listing| ==> listing[i] in cache)
    && (forall n :: n in cache ==> n in listing)
  }

  /** `_installed_shinylive_version_paths`: the entries whose names do not
      start with a dot, in listing order. */
  function Installed(listing: seq<string>): (r: seq<string>)
    ensures forall n :: n in r <==> n in listing && !StartsWith(n, ".")
    ensures |r| <= |listing|
  {
    if |listing| == 0 then []
    else
      var rest := Installed(listing[1..]);
      if StartsWith(listing[0], ".") then rest else [listing[0]] + rest
  }

  /** The version names cleanup derives from the installed entries. */
  function VersionNames(listing: seq<string>): (r: seq<string>)
    ensures |r| == |Installed(listing)|
    ensures forall i :: 0 <= i < |r| ==> r[i] == VersionOfPath(Installed(listing)[i])
  {
    var installed := Installed(listing);
    seq(|installed|, i requires 0 <= i < |installed| => VersionOfPath(installed[i]))
  }

  /** The version of a bare entry name. */
  lemma VersionOfName(name: string)
    requires '/' !in name
    ensures VersionOfPath(name) == StripVersionPrefix(name)
  {
    BasenameAfterSlash("", name);
    assert "" + name == name;
  }

  /** Every installed entry `shinylive-v` contributes the version `v`. */
  lemma VersionNamesOfTarget(listing: seq<string>, version: string)
    requires Target(version) in listing && '/' !in version
    ensures exists i :: 0 <= i < |Installed(listing)| && Installed(listing)[i] == Target(version)
                          && VersionNames(listing)[i] == version
  {
    var installed := Installed(listing);
    TargetNoSlash(version);
    var i :| 0 <= i < |installed| && installed[i] == Target(version);
    VersionOfName(Target(version));
    StripTarget(version);
  }

  /** Every installed entry without the prefix contributes its own name. */
  lemma VersionNamesOfPlain(listing: seq<string>, name: string)
    requires name in listing && '/' !in name && !StartsWith(name, ".") && !StartsWith(name, VersionPrefix)
    ensures exists i :: 0 <= i < |Installed(listing)| && Installed(listing)[i] == name
                          && VersionNames(listing)[i] == name
  {
    var installed := Installed(listing);
    var i :| 0 <= i < |installed| && installed[i] == name;
    VersionOfName(name);
  }

  // ---------------------------------------------------------------------
  // Removing versions
  // ---------------------------------------------------------------------

  /** Removing `version` deletes its entry: a symlink is unlinked, a
      directory is removed; anything else is reported missing and left. */
  predicate Removes(cache: Cache, versions: seq<string>, n: string) {
    && n in cache && cache[n] != File
    && exists i :: 0 <= i < |versions| && n == Target(versions[i])
  }

  function RemoveOne(cache: Cache, version: string): (r: Cache)
    ensures forall n :: n in r <==> n in cache && !(n == Target(version) && cache[n] != File)
    ensures forall n :: n in r ==> r[n] == cache[n]
  {
    var t := Target(version);
    if t in cache && cache[t] != File then cache - {t} else cache
  }

  /** The loop of `remove_shinylive_assets` over its versions: an entry goes
      exactly when it is the symlink or directory of a listed version, and
      an empty list changes nothing. */
  function Remove(cache: Cache, versions: seq<string>): (r: Cache)
    ensures forall n :: n in r <==> n in cache && !Removes(cache, versions, n)
    ensures forall n :: n in r ==> r[n] == cache[n]
    decreases |versions|
  {
    if |versions| == 0 then cache
    else
      var r := Remove(RemoveOne(cache, versions[0]), versions[1..]);
      assert forall i :: 1 <= i < |versions| ==> versions[i] == versions[1..][i - 1];
      assert forall i :: 0 <= i < |versions[1..]| ==> versions[1..][i] == versions[i + 1];
      r
  }

  /** The `version` argument: one version or a list of them. */
  datatype Versions = One(version: string) | Many(versions: seq<string>)

  function AsList(v: Versions): seq<string> {
    match v
    case One(x) => [x]
    case Many(xs) => xs
  }

  /** `remove_shinylive_assets(shinylive_dir, version)`. */
  function RemoveAssets(cache: Cache, version: Versions): (r: Cache)
    ensures version.One? ==> forall n :: n in r <==> n in cache && !(n == Target(version.version) && cache[n] != File)
    ensures version.Many? ==> forall n :: n in r <==> n in cache && !Removes(cache, version.versions, n)
    ensures forall n :: n in r ==> r[n] == cache[n]
  {
    var r := Remove(cache, AsList(version));
    assert version.One? ==> forall n :: Removes(cache, [version.version], n) <==> n in cache && n == Target(version.version) && cache[n] != File by {
      if version.One? {
        forall n ensures Removes(cache, [version.version], n) <==> n in cache && n == Target(version.version) && cache[n] != File {
          if n in cache && n == Target(version.version) && cache[n] != File {
            assert n == Target([version.version][0]);
          }
        }
      }
    }
    r
  }

  /** An empty list of versions leaves the cache alone. */
  lemma RemoveNothing(cache: Cache)
    ensures RemoveAssets(cache, Many([])) == cache
  {
    var r := RemoveAssets(cache, Many([]));
    assert forall n :: !Removes(cache, [], n);
    assert r.Keys == cache.Keys;
  }

  // ---------------------------------------------------------------------
  // Cleaning up
  // ---------------------------------------------------------------------

  /** `list.remove(x)` after `x in xs` was checked: the first occurrence
      goes. */
  function RemoveFirstOf(xs: seq<string>, x: string): (r: seq<string>)
    requires x in xs
    ensures |r| == |xs| - 1
    ensures multiset(r) == multiset(xs) - multiset{x}
  {
    var i := FirstIndex(xs, x);
    assert xs == xs[..i] + [x] + xs[i + 1..];
    xs[..i] + xs[i + 1..]
  }

  /** `cleanup_shinylive_assets` as written: the current version is taken
      out of the version names with `list.remove`, which drops only its
      first occurrence. */
  function CleanupAsWritten(cache: Cache, listing: seq<string>, current: string): (r: Cache)
    ensures forall n :: n in r ==> n in cache && r[n] == cache[n]
  {
    var names := VersionNames(listing);
    Remove(cache, if current in names then RemoveFirstOf(names, current) else names)
  }

  /** When `x` occurs twice, `list.remove(x)` leaves it in the list. */
  lemma RemoveFirstOfDuplicate(xs: seq<string>, x: string, i: nat, j: nat)
    requires i < j < |xs| && xs[i] == x && xs[j] == x
    ensures x in RemoveFirstOf(xs, x)
  {
    assert xs == xs[..i] + [xs[i]] + xs[i + 1..j] + [xs[j]] + xs[j + 1..];
    assert multiset(xs)[x] >= 2;
    assert x in multiset(RemoveFirstOf(xs, x));
  }

  /** An installed entry that is not the version's own but has the
      version's name, next to the version's own entry, makes the version's
      name appear twice; as written, cleanup then removes the version it
      promises to keep. */
  lemma CleanupAsWrittenRemovesCurrent(cache: Cache, listing: seq<string>, current: string)
    requires current in listing && Target(current) in listing
    requires !StartsWith(current, ".") && !StartsWith(current, VersionPrefix) && '/' !in current
    requires Target(current) in cache && cache[Target(current)] != File
    ensures Target(current) !in CleanupAsWritten(cache, listing, current)
  {
    var installed := Installed(listing);
    var names := VersionNames(listing);
    VersionNamesOfPlain(listing, current);
    VersionNamesOfTarget(listing, current);
    var i :| 0 <= i < |installed| && installed[i] == current && names[i] == current;
    var j :| 0 <= j < |installed| && installed[j] == Target(current) && names[j] == current;
    assert i != j by {
      assert |Target(current)| > |current|;
    }
    if i < j {
      RemoveFirstOfDuplicate(names, current, i, j);
    } else {
      RemoveFirstOfDuplicate(names, current, j, i);
    }
    var kept := RemoveFirstOf(names, current);
    var k :| 0 <= k < |kept| && kept[k] == current;
    assert Removes(cache, kept, Target(kept[k]));
  }

  /** The concrete case: a stray directory `0.5.0` beside `shinylive-0.5.0`
      while 0.5.0 is the current version. */
  lemma CleanupAsWrittenExample()
    ensures Target("0.5.0") !in CleanupAsWritten(map["0.5.0" := Dir, Target("0.5.0") := Dir], ["0.5.0", Target("0.5.0")], "0.5.0")
  {
    var current := "0.5.0";
    assert current[0] == '0' && |current| == 5;
    assert !StartsWith(current, ".") && !StartsWith(current, VersionPrefix) && '/' !in current;
    CleanupAsWrittenRemovesCurrent(map[current := Dir, Target(current) := Dir], [current, Target(current)], current);
  }

  /** The names other than `x`, in order. */
  function Without(xs: seq<string>, x: string): (r: seq<string>)
    ensures forall y :: y in r <==> y in xs && y != x
  {
    if |xs| == 0 then []
    else if xs[0] == x then Without(xs[1..], x)
    else [xs[0]] + Without(xs[1..], x)
  }

  /** `cleanup_shinylive_assets` as its documentation promises it: every
      occurrence of the current version's name is taken out, so the
      current version is kept and every other installed version goes. */
  function Cleanup(cache: Cache, listing: seq<string>, current: string): (r: Cache)
    ensures Target(current) in cache ==> Target(current) in r && r[Target(current)] == cache[Target(current)]
    ensures forall v :: Target(v) in listing && '/' !in v && v != current && Target(v) in cache && cache[Target(v)] != File ==>
              Target(v) !in r
    ensures forall n :: n in r ==> n in cache && r[n] == cache[n]
    ensures forall n :: n in r <==> n in cache && !(cache[n] != File && OtherVersion(listing, current, n))
  {
    var kept := Without(VersionNames(listing), current);
    CleanupKeepsCurrent(cache, kept, current);
    CleanupRemovesOthers(cache, listing, current);
    CleanupRemovesExactly(cache, listing, current);
    Remove(cache, kept)
  }

  /** `n` is the directory name of an installed version other than `current`. */
  predicate OtherVersion(listing: seq<string>, current: string, n: string) {
    exists v :: v in VersionNames(listing) && v != current && n == Target(v)
  }

  lemma CleanupRemovesExactly(cache: Cache, listing: seq<string>, current: string)
    ensures forall n :: Removes(cache, Without(VersionNames(listing), current), n) <==>
              n in cache && cache[n] != File && OtherVersion(listing, current, n)
  {
    var kept := Without(VersionNames(listing), current);
    forall n ensures Removes(cache, kept, n) <==> n in cache && cache[n] != File && OtherVersion(listing, current, n) {
      if Removes(cache, kept, n) {
        var i :| 0 <= i < |kept| && n == Target(kept[i]);
        assert kept[i] in kept;
      }
      if n in cache && cache[n] != File && OtherVersion(listing, current, n) {
        var v :| v in VersionNames(listing) && v != current && n == Target(v);
        assert v in kept;
        var i :| 0 <= i < |kept| && kept[i] == v;
      }
    }
  }

  lemma CleanupKeepsCurrent(cache: Cache, kept: seq<string>, current: string)
    requires current !in kept
    ensures !Removes(cache, kept, Target(current))
  {
    forall i | 0 <= i < |kept| ensures Target(kept[i]) != Target(current) {
      if Target(kept[i]) == Target(current) {
        TargetInjective(kept[i], current);
      }
    }
  }

  lemma CleanupRemovesOthers(cache: Cache, listing: seq<string>, current: string)
    ensures forall v :: Target(v) in listing && '/' !in v && v != current && Target(v) in cache && cache[Target(v)] != File ==>
              Removes(cache, Without(VersionNames(listing), current), Target(v))
  {
    var kept := Without(VersionNames(listing), current);
    forall v | Target(v) in listing && '/' !in v && v != current && Target(v) in cache && cache[Target(v)] != File
      ensures Removes(cache, kept, Target(v))
    {
      VersionNamesOfTarget(listing, v);
      assert v in kept;
      var i :| 0 <= i < |kept| && kept[i] == v;
    }
  }

  // ---------------------------------------------------------------------
  // Installing versions
  // ---------------------------------------------------------------------

  /** The cache after `ensure_shinylive_assets`, and the assets directory
      it returns. */
  datatype Ensured = Ensured(cache: Cache, bundleDir: string)

  /** `ensure_shinylive_assets(version)` on the default cache directory:
      the bundle is downloaded and unpacked into `shinylive-<version>` only
      when no entry of that name exists. */
  function Ensure(cacheDir: string, cache: Cache, version: string): (r: Ensured)
    ensures r.bundleDir == AssetsDir(cacheDir, version)
    ensures Target(version) in r.cache
    ensures Target(version) in cache ==> r.cache == cache
    ensures forall n :: n != Target(version) ==> (n in r.cache <==> n in cache)
    ensures forall n :: n in cache ==> n in r.cache && r.cache[n] == cache[n]
  {
    var t := Target(version);
    Ensured(if t in cache then cache else cache[t := Dir], AssetsDir(cacheDir, version))
  }

  /** A second call on a populated cache changes nothing. */
  lemma EnsureIdempotent(cacheDir: string, cache: Cache, version: string)
    ensures Ensure(cacheDir, Ensure(cacheDir, cache, version).cache, version) == Ensure(cacheDir, cache, version)
  {
  }

  /** How a local copy of the assets is installed. */
  datatype Install = CopyTree | LinkTo

  /** The cache after an installation, and the error it ended with. */
  datatype Installation = Installation(cache: Cache, error: Option<Error>)

  /** `copy_shinylive_local` and `link_shinylive_local`. An existing
      symlink or directory of the version is removed first; a plain file of
      that name is left and makes the install fail. Linking checks that the
      source is a directory before touching the cache; copying finds a
      missing source only after the old target is gone, and `copytree`
      scans the source before it creates the target, so a bad source is
      reported ahead of a plain file in the way. */
  function InstallLocal(cache: Cache, version: string, how: Install, source: Option<Kind>, sourcePath: string,
                        targetPath: string): (r: Installation)
    ensures how == LinkTo && source != Some(Dir) ==> r == Installation(cache, Some(RuntimeError("Source directory does not exist: " + sourcePath)))
    ensures r.error.None? <==> source == Some(Dir) && !(Target(version) in cache && cache[Target(version)] == File)
    ensures r.error.None? ==> Target(version) in r.cache && r.cache[Target(version)] == (if how == CopyTree then Dir else Symlink)
    ensures Target(version) in cache && cache[Target(version)] == File && source == Some(Dir) ==>
              r == Installation(cache, Some(FileExistsError(targetPath)))
    ensures how == CopyTree && source == None ==> r.error == Some(FileNotFoundError(sourcePath))
    ensures how == CopyTree && source.Some? && source != Some(Dir) ==> r.error == Some(NotADirectoryError(sourcePath))
    ensures how == CopyTree && source != Some(Dir) && !(Target(version) in cache && cache[Target(version)] == File) ==>
              r.cache == cache - {Target(version)}
    ensures how == CopyTree && Target(version) in cache && cache[Target(version)] == File ==> r.cache == cache
    ensures forall n :: n != Target(version) ==> (n in r.cache <==> n in cache)
    ensures forall n :: n != Target(version) && n in cache ==> r.cache[n] == cache[n]
  {
    var t := Target(version);
    if how == LinkTo && source != Some(Dir) then
      Installation(cache, Some(RuntimeError("Source directory does not exist: " + sourcePath)))
    else
      var cleared := if t in cache && cache[t] != File then cache - {t} else cache;
      if source == None then Installation(cleared, Some(FileNotFoundError(sourcePath)))
      else if source != Some(Dir) then Installation(cleared, Some(NotADirectoryError(sourcePath)))
      else if t in cleared then Installation(cleared, Some(FileExistsError(targetPath)))
      else Installation(cleared[t := if how == CopyTree then Dir else Symlink], None)
  }

  /** Installing over an existing install of the same version replaces it:
      the result is as if the cache had held nothing of that name. */
  lemma InstallReplaces(cache: Cache, version: string, how: Install, sourcePath: string, targetPath: string)
    requires Target(version) in cache && cache[Target(version)] != File
    ensures InstallLocal(cache, version, how, Some(Dir), sourcePath, targetPath)
            == InstallLocal(cache - {Target(version)}, version, how, Some(Dir), sourcePath, targetPath)
  {
  }
}
