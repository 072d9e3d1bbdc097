/** `export(appdir, destdir, subdir, full_shinylive)` (shinylive/_export.py)
    as a composition over a file system that maps paths to contents: the
    argument checks, the base files, the app's files, the package files
    and the pages of the app. The shinylive assets (their directory, the
    base file list, the listing of the Pyodide directory, the templates and
    the lock) are inputs. */
module Export {
  import opened Strings
  import opened Outcomes
  import opened Files
  import opened Paths
  import opened Lock
  import opened Closure
  import opened Deps
  import opened CopyPolicy
  import opened AppJson

  /** What the export reads from the installed shinylive assets. */
  datatype Assets = Assets(
    dir: PurePath,
    baseFiles: seq<string>,
    pyodideListing: seq<string>,
    templateDir: PurePath,
    templates: seq<PurePath>,
    lock: LockFile)

  /** The outcome of an export: the file system afterwards, the package
      files copied, the app's bundle, the destinations that drew a copy
      warning, and the pages written last. */
  datatype Exported = Exported(
    fs: Fs,
    packageFiles: seq<string>,
    appFiles: seq<FileContent>,
    warnings: seq<PurePath>,
    pages: seq<Write>)

  const PyodidePrefix := "shinylive/pyodide"

  function PyodideDir(dir: PurePath): PurePath {
    JoinPath(dir, RelPath(["shinylive", "pyodide"]))
  }

  function AppPy(appdir: PurePath): PurePath {
    JoinPath(appdir, RelPath(["app.py"]))
  }

  /** The copies of the base files: each from the assets to the same
      relative path under the destination. */
  function BasePairs(assetsDir: PurePath, destdir: PurePath, files: seq<string>): (r: seq<(PurePath, PurePath)>)
    ensures |r| == |files|
    ensures forall i :: 0 <= i < |files| ==> r[i] == (JoinPath(assetsDir, Parse(files[i])), JoinPath(destdir, Parse(files[i])))
  {
    seq(|files|, i requires 0 <= i < |files| => (JoinPath(assetsDir, Parse(files[i])), JoinPath(destdir, Parse(files[i]))))
  }

  /** The copies of the package files: `shinylive/pyodide/<f>` of the
      assets to `shinylive/pyodide/<f>` of the destination. */
  function PackagePairs(assetsDir: PurePath, destdir: PurePath, files: seq<string>): (r: seq<(PurePath, PurePath)>)
    ensures |r| == |files|
    ensures forall i :: 0 <= i < |files| ==>
              r[i] == (JoinPath(PyodideDir(assetsDir), Parse(files[i])), JoinPath(PyodideDir(destdir), Parse(files[i])))
  {
    seq(|files|, i requires 0 <= i < |files| =>
      (JoinPath(PyodideDir(assetsDir), Parse(files[i])), JoinPath(PyodideDir(destdir), Parse(files[i]))))
  }

  /** In full mode: every file of the Pyodide directory that is not a base
      file, in listing order. */
  function FullPackageFiles(listing: seq<string>, baseFiles: seq<string>): (r: seq<string>)
    ensures forall f :: f in r <==> f in listing && PosixJoin(PyodidePrefix, f) !in baseFiles
    ensures |r| <= |listing|
  {
    if |listing| == 0 then []
    else (if PosixJoin(PyodidePrefix, listing[0]) in baseFiles then [] else [listing[0]])
         + FullPackageFiles(listing[1..], baseFiles)
  }

  function FileNames(infos: seq<PackageInfo>): (r: seq<string>)
    ensures |r| == |infos| && forall i :: 0 <= i < |infos| ==> r[i] == infos[i].fileName
  {
    seq(|infos|, i requires 0 <= i < |infos| => infos[i].fileName)
  }

  /** The subdirectory as `export` hands it on: absent is empty, and an
      absolute one is refused. */
  function CheckSubdir(subdir: Option<string>): (r: Result<PurePath>)
    ensures subdir.None? ==> r == Ok(Parse(""))
    ensures subdir.Some? ==> (r.Err? <==> IsAbsolute(Parse(subdir.value)))
    ensures r.Err? ==> r.error.ValueError?
    ensures r.Ok? ==> !IsAbsolute(r.value) && WellFormed(r.value)
  {
    var s := if subdir.Some? then subdir.value else "";
    if IsAbsolute(Parse(s)) then Err(ValueError("subdir is absolute, but only relative paths are allowed."))
    else Ok(Parse(s))
  }

  /** The package files outside full mode are the file names of the lock
      records of `baseNames` then `appNames`, the least closures of the base
      package names and of the app's imports and requirements. */
  ghost predicate DepPackages(lock: LockFile, parse: Parser, appFiles: seq<FileContent>, files: seq<string>,
                              baseNames: seq<string>, appNames: seq<string>)
  {
    && IsLeastClosure(LockGraph(lock), BasePackageNames, set x | x in baseNames)
    && IsLeastClosure(LockGraph(lock), FindImportAppContents(lock, parse, appFiles) + FindRequirementsAppContents(appFiles),
                      set x | x in appNames)
    && |files| == |baseNames| + |appNames|
    && forall j :: 0 <= j < |baseNames + appNames| ==> files[j] == PackageOf(lock, (baseNames + appNames)[j]).fileName
  }

  /** The file names the lock's records carry. */
  function LockFileNames(lock: LockFile): set<string> {
    set k | k in lock.packages :: lock.packages[k].fileName
  }

  /** Every file of `fs` that no page overwrites is still there, unchanged. */
  ghost predicate KeepsOutsidePages(fs: Fs, after: Fs, pages: seq<Write>) {
    forall p :: p in fs && (forall i :: 0 <= i < |pages| ==> pages[i].dest != p) ==> p in after && after[p] == fs[p]
  }

  /** The package files outside full mode: the file names of the base
      closure's records, then those of the app's closure. */
  method DepPackageFiles(lock: LockFile, parse: Parser, appFiles: seq<FileContent>)
    returns (files: seq<string>, ghost baseNames: seq<string>, ghost appNames: seq<string>)
    ensures DepPackages(lock, parse, appFiles, files, baseNames, appNames)
    ensures forall j :: 0 <= j < |files| ==> files[j] in LockFileNames(lock)
  {
    var baseInfos, appInfos;
    baseInfos, baseNames := BasePackageDeps(lock);
    appInfos, appNames := FindPackageDeps(lock, parse, appFiles);
    files := FileNames(baseInfos + appInfos);
    FileNamesOfRecords(lock, baseInfos, appInfos, baseNames, appNames);
  }

  /** The file names of two runs of lock records, record by record. */
  lemma FileNamesOfRecords(lock: LockFile, baseInfos: seq<PackageInfo>, appInfos: seq<PackageInfo>,
                           baseNames: seq<string>, appNames: seq<string>)
    requires |baseInfos| == |baseNames| && |appInfos| == |appNames|
    requires forall j :: 0 <= j < |baseNames| ==> Resolves(lock, baseNames[j]) && baseInfos[j] == PackageOf(lock, baseNames[j])
    requires forall j :: 0 <= j < |appNames| ==> Resolves(lock, appNames[j]) && appInfos[j] == PackageOf(lock, appNames[j])
    ensures |FileNames(baseInfos + appInfos)| == |baseNames| + |appNames|
    ensures forall j :: 0 <= j < |baseNames + appNames| ==>
              FileNames(baseInfos + appInfos)[j] == PackageOf(lock, (baseNames + appNames)[j]).fileName
    ensures forall j :: 0 <= j < |FileNames(baseInfos + appInfos)| ==> FileNames(baseInfos + appInfos)[j] in LockFileNames(lock)
  {
    var infos, names := baseInfos + appInfos, baseNames + appNames;
    forall j | 0 <= j < |names| ensures Resolves(lock, names[j]) && infos[j] == PackageOf(lock, names[j]) {
      if j < |baseNames| {
        assert infos[j] == baseInfos[j] && names[j] == baseNames[j];
      } else {
        assert infos[j] == appInfos[j - |baseNames|] && names[j] == appNames[j - |baseNames|];
      }
    }
    forall j | 0 <= j < |names| ensures FileNames(infos)[j] in LockFileNames(lock) {
      var k := DepNameToDepKey(lock, names[j]).value;
      assert FileNames(infos)[j] == lock.packages[k].fileName;
    }
  }

  /** The package copies: every package file lands under the
      destination's Pyodide directory, and no file that was there before
      changes. */
  function CopyPackages(fs: Fs, assetsDir: PurePath, destdir: PurePath, packageFiles: seq<string>): (r: Result<Run>)
    ensures r.Ok? ==> forall f :: f in packageFiles ==> JoinPath(PyodideDir(destdir), Parse(f)) in r.value.fs
    ensures r.Ok? ==> forall p :: p in fs ==> p in r.value.fs && r.value.fs[p] == fs[p]
    ensures r.Err? ==> r.error.FileNotFoundError?
    ensures (forall f :: f in packageFiles ==> JoinPath(PyodideDir(assetsDir), Parse(f)) in fs) ==> r.Ok?
  {
    var pairs := PackagePairs(assetsDir, destdir, packageFiles);
    PackageSourcesRun(fs, assetsDir, destdir, packageFiles);
    var r := CopyAll(fs, pairs, false);
    assert r.Ok? ==> forall f :: f in packageFiles ==> JoinPath(PyodideDir(destdir), Parse(f)) in r.value.fs by {
      if r.Ok? {
        forall f | f in packageFiles ensures JoinPath(PyodideDir(destdir), Parse(f)) in r.value.fs {
          var k :| 0 <= k < |packageFiles| && packageFiles[k] == f;
          assert pairs[k].1 == JoinPath(PyodideDir(destdir), Parse(f));
        }
      }
    }
    r
  }

  /** The package files an export may copy: the Pyodide listing in full
      mode, the files the lock file names otherwise. */
  function PackageSources(assets: Assets, full: bool): set<string> {
    if full then set f | f in assets.pyodideListing else LockFileNames(assets.lock)
  }

  /** Every file an export reads from the assets exists beforehand: the
      base files, the package files it may copy, and the templates. */
  predicate SourcesPresent(fs: Fs, assets: Assets, full: bool) {
    && (forall f :: f in assets.baseFiles ==> JoinPath(assets.dir, Parse(f)) in fs)
    && (forall f :: f in PackageSources(assets, full) ==> JoinPath(PyodideDir(assets.dir), Parse(f)) in fs)
    && (forall i :: 0 <= i < |assets.templates| ==> JoinPath(assets.templateDir, assets.templates[i]) in fs)
  }

  /** `export`. The package files are, in full mode, the listing without
      the base files; otherwise the file names of the records of the base
      closure followed by those of the app's closure. Every copy keeps
      existing files, so only the app's pages can change a file that was
      there before. */
  method Export(fs: Fs, assets: Assets, parse: Parser, appdir: PurePath, destdir: PurePath,
                subdir: Option<string>, full: bool, tree: Tree, read: PurePath -> DiskFile,
                substitute: (string, map<string, string>) -> string, encode: seq<FileContent> -> string)
    returns (r: Result<Exported>, ghost baseNames: seq<string>, ghost appNames: seq<string>)
    ensures AppPy(appdir) !in fs ==> r.Err? && r.error.ValueError?
    ensures AppPy(appdir) in fs && subdir.Some? && IsAbsolute(Parse(subdir.value)) ==> r.Err? && r.error.ValueError?
    ensures r.Err? && r.error.ValueError? ==> AppPy(appdir) !in fs || (subdir.Some? && IsAbsolute(Parse(subdir.value)))
    ensures r.Err? ==> r.error.ValueError? || r.error.FileNotFoundError?
    ensures AppPy(appdir) in fs && (subdir.Some? ==> !IsAbsolute(Parse(subdir.value))) && SourcesPresent(fs, assets, full) ==> r.Ok?
    ensures r.Ok? ==> r.value.appFiles == ReadAppFiles(appdir, destdir, tree, read)
    ensures r.Ok? && full ==> r.value.packageFiles == FullPackageFiles(assets.pyodideListing, assets.baseFiles)
    ensures r.Ok? && !full ==> DepPackages(assets.lock, parse, r.value.appFiles, r.value.packageFiles, baseNames, appNames)
    ensures r.Ok? ==> forall f :: f in r.value.packageFiles ==> JoinPath(PyodideDir(destdir), Parse(f)) in r.value.fs
    ensures r.Ok? ==> KeepsOutsidePages(fs, r.value.fs, r.value.pages)
    ensures r.Ok? ==> forall f :: f in assets.baseFiles ==> JoinPath(destdir, Parse(f)) in r.value.fs
    ensures r.Ok? ==> && |r.value.pages| == |assets.templates| + 1
                      && r.value.pages[|assets.templates|] == Write(AppJsonPath(destdir, SubdirPath(subdir)), encode(r.value.appFiles))
                      && forall i :: 0 <= i < |assets.templates| ==> r.value.pages[i].dest == JoinPath(AppDestDir(destdir, SubdirPath(subdir)), assets.templates[i])
    ensures r.Ok? ==> AppJsonPath(destdir, SubdirPath(subdir)) in r.value.fs && r.value.fs[AppJsonPath(destdir, SubdirPath(subdir))] == encode(r.value.appFiles)
    ensures r.Ok? ==> !IsAbs(Str(SubdirPath(subdir)))
    ensures r.Ok? ==> forall i :: 0 <= i < |assets.templates| && JoinPath(assets.templateDir, assets.templates[i]) in fs ==>
                        WritesTemplate(fs, assets.templateDir, AppDestDir(destdir, SubdirPath(subdir)), substitute,
                                       Replacements(map[], Repeat("../", PathLength(Str(SubdirPath(subdir))).value)), assets.templates[i], r.value.pages[i])
  {
    baseNames, appNames := [], [];
    if AppPy(appdir) !in fs {
      return Err(ValueError("Directory must contain a file named app.py.")), baseNames, appNames;
    }
    var sub := CheckSubdir(subdir);
    if sub.Err? {
      return Err(sub.error), baseNames, appNames;
    }
    RelativeStr(sub.value);
    r, baseNames, appNames := ExportChecked(fs, assets, parse, appdir, destdir, sub.value, full, tree, read,
                                            substitute, encode);
  }

  /** The steps of `export` after the argument checks. */
  method ExportChecked(fs: Fs, assets: Assets, parse: Parser, appdir: PurePath, destdir: PurePath,
                       subdir: PurePath, full: bool, tree: Tree, read: PurePath -> DiskFile,
                       substitute: (string, map<string, string>) -> string, encode: seq<FileContent> -> string)
    returns (r: Result<Exported>, ghost baseNames: seq<string>, ghost appNames: seq<string>)
    ensures r.Err? ==> r.error.FileNotFoundError? || (r.error.ValueError? && IsAbs(Str(subdir)))
    ensures SourcesPresent(fs, assets, full) && !IsAbs(Str(subdir)) ==> r.Ok?
    ensures r.Ok? ==> r.value.appFiles == ReadAppFiles(appdir, destdir, tree, read)
    ensures r.Ok? && full ==> r.value.packageFiles == FullPackageFiles(assets.pyodideListing, assets.baseFiles)
    ensures r.Ok? && !full ==> DepPackages(assets.lock, parse, r.value.appFiles, r.value.packageFiles, baseNames, appNames)
    ensures r.Ok? ==> forall f :: f in r.value.packageFiles ==> JoinPath(PyodideDir(destdir), Parse(f)) in r.value.fs
    ensures r.Ok? ==> KeepsOutsidePages(fs, r.value.fs, r.value.pages)
    ensures r.Ok? ==> forall f :: f in assets.baseFiles ==> JoinPath(destdir, Parse(f)) in r.value.fs
    ensures r.Ok? ==> && |r.value.pages| == |assets.templates| + 1
                      && r.value.pages[|assets.templates|] == Write(AppJsonPath(destdir, subdir), encode(r.value.appFiles))
                      && forall i :: 0 <= i < |assets.templates| ==> r.value.pages[i].dest == JoinPath(AppDestDir(destdir, subdir), assets.templates[i])
    ensures r.Ok? ==> AppJsonPath(destdir, subdir) in r.value.fs && r.value.fs[AppJsonPath(destdir, subdir)] == encode(r.value.appFiles)
    ensures r.Ok? ==> !IsAbs(Str(subdir))
    ensures r.Ok? ==> forall i :: 0 <= i < |assets.templates| && JoinPath(assets.templateDir, assets.templates[i]) in fs ==>
                        WritesTemplate(fs, assets.templateDir, AppDestDir(destdir, subdir), substitute,
                                       Replacements(map[], Repeat("../", PathLength(Str(subdir)).value)), assets.templates[i], r.value.pages[i])
  {
    var staged, appFiles, packageFiles;
    staged, appFiles, packageFiles, baseNames, appNames := CopyStage(fs, assets, parse, appdir, destdir, full, tree, read);
    if staged.Err? {
      return Err(staged.error), baseNames, appNames;
    }

    var pages := WriteAppJson(staged.value.fs, destdir, Str(subdir), assets.templateDir, assets.templates,
                              map[], substitute, encode, appFiles);
    if pages.Err? {
      return Err(pages.error), baseNames, appNames;
    }
    var after := ApplyWrites(staged.value.fs, pages.value);
    KeptThroughout(fs, fs, staged.value.fs, pages.value);
    ApplyWritesLast(staged.value.fs, pages.value, |assets.templates|);
    TemplatesFromOriginal(fs, staged.value.fs, assets.templateDir, AppDestDir(destdir, subdir), substitute,
                          Replacements(map[], Repeat("../", PathLength(Str(subdir)).value)), assets.templates, pages.value);
    r := Ok(Exported(after, packageFiles, appFiles, staged.value.warnings, pages.value));
  }

  /** The copy steps of `export`: the base files, then the app is read,
      then the package files. No copy overwrites an existing file. */
  method CopyStage(fs: Fs, assets: Assets, parse: Parser, appdir: PurePath, destdir: PurePath, full: bool,
                   tree: Tree, read: PurePath -> DiskFile)
    returns (staged: Result<Run>, appFiles: seq<FileContent>, packageFiles: seq<string>,
             ghost baseNames: seq<string>, ghost appNames: seq<string>)
    ensures staged.Err? ==> staged.error.FileNotFoundError?
    ensures SourcesPresent(fs, assets, full) ==> staged.Ok?
    ensures staged.Ok? ==> appFiles == ReadAppFiles(appdir, destdir, tree, read)
    ensures staged.Ok? && full ==> packageFiles == FullPackageFiles(assets.pyodideListing, assets.baseFiles)
    ensures staged.Ok? && !full ==> DepPackages(assets.lock, parse, appFiles, packageFiles, baseNames, appNames)
    ensures staged.Ok? ==> forall f :: f in assets.baseFiles ==> JoinPath(destdir, Parse(f)) in staged.value.fs
    ensures staged.Ok? ==> forall f :: f in packageFiles ==> JoinPath(PyodideDir(destdir), Parse(f)) in staged.value.fs
    ensures staged.Ok? ==> forall p :: p in fs ==> p in staged.value.fs && staged.value.fs[p] == fs[p]
  {
    baseNames, appNames, appFiles, packageFiles := [], [], [], [];
    if SourcesPresent(fs, assets, full) {
      BaseSourcesRun(fs, assets.dir, destdir, assets.baseFiles);
    }
    var base := CopyAll(fs, BasePairs(assets.dir, destdir, assets.baseFiles), false);
    if base.Err? {
      return Err(base.error), appFiles, packageFiles, baseNames, appNames;
    }

    appFiles := ReadAppFiles(appdir, destdir, tree, read);

    var packages;
    packageFiles, packages, baseNames, appNames := PackageStage(base.value.fs, assets, parse, destdir, full, appFiles);
    if packages.Err? {
      PresentAfter(fs, base.value.fs, assets, full, packageFiles);
      return Err(packages.error), appFiles, packageFiles, baseNames, appNames;
    }
    BaseFilesCopied(fs, assets.dir, destdir, assets.baseFiles, base.value, packages.value.fs, packages.value.fs);
    staged := Ok(Run(packages.value.fs, base.value.warnings + packages.value.warnings));
  }

  /** `export` as written. Its call of `write_app_json` stops with a
      TypeError at the first `.html` template, so with any such template the
      export fails after the base and package files are copied. `left` is
      the file system after the copies and the page writes that took place;
      it is `fs` itself when the argument checks or a copy stage fail. */
  method ExportAsWritten(fs: Fs, assets: Assets, parse: Parser, appdir: PurePath, destdir: PurePath,
                         subdir: Option<string>, full: bool, tree: Tree, read: PurePath -> DiskFile,
                         encode: seq<FileContent> -> string)
    returns (r: Result<Exported>, left: Fs, packageFiles: seq<string>)
    ensures AppPy(appdir) !in fs ==> r.Err? && r.error.ValueError? && left == fs
    ensures AppPy(appdir) in fs && subdir.Some? && IsAbsolute(Parse(subdir.value)) ==> r.Err? && r.error.ValueError? && left == fs
    ensures fs.Keys <= left.Keys
    ensures r.Ok? ==> left == r.value.fs && packageFiles == r.value.packageFiles
    ensures r.Ok? ==> forall i :: 0 <= i < |assets.templates| ==> !IsHtml(assets.templates[i])
    ensures r.Ok? ==> && |r.value.pages| == |assets.templates| + 1
                      && r.value.pages[|assets.templates|] == Write(AppJsonPath(destdir, SubdirPath(subdir)), encode(r.value.appFiles))
    ensures r.Err? && r.error.TypeError? ==>
              && (exists i :: 0 <= i < |assets.templates| && IsHtml(assets.templates[i]))
              && (forall f :: f in assets.baseFiles ==> JoinPath(destdir, Parse(f)) in left)
              && (forall f :: f in packageFiles ==> JoinPath(PyodideDir(destdir), Parse(f)) in left)
  {
    left, packageFiles := fs, [];
    if AppPy(appdir) !in fs {
      return Err(ValueError("Directory must contain a file named app.py.")), left, packageFiles;
    }
    var sub := CheckSubdir(subdir);
    if sub.Err? {
      return Err(sub.error), left, packageFiles;
    }
    r, left, packageFiles := ExportCheckedAsWritten(fs, assets, parse, appdir, destdir, sub.value, full, tree, read, encode);
  }

  /** The steps of `export` as written after the argument checks. */
  method ExportCheckedAsWritten(fs: Fs, assets: Assets, parse: Parser, appdir: PurePath, destdir: PurePath,
                                subdir: PurePath, full: bool, tree: Tree, read: PurePath -> DiskFile,
                                encode: seq<FileContent> -> string)
    returns (r: Result<Exported>, left: Fs, packageFiles: seq<string>)
    ensures fs.Keys <= left.Keys
    ensures r.Ok? ==> left == r.value.fs && packageFiles == r.value.packageFiles
    ensures r.Ok? ==> forall i :: 0 <= i < |assets.templates| ==> !IsHtml(assets.templates[i])
    ensures r.Ok? ==> && |r.value.pages| == |assets.templates| + 1
                      && r.value.pages[|assets.templates|] == Write(AppJsonPath(destdir, subdir), encode(r.value.appFiles))
    ensures r.Err? && r.error.TypeError? ==>
              && (exists i :: 0 <= i < |assets.templates| && IsHtml(assets.templates[i]))
              && (forall f :: f in assets.baseFiles ==> JoinPath(destdir, Parse(f)) in left)
              && (forall f :: f in packageFiles ==> JoinPath(PyodideDir(destdir), Parse(f)) in left)
  {
    left := fs;
    var staged, appFiles;
    ghost var baseNames, appNames;
    staged, appFiles, packageFiles, baseNames, appNames := CopyStage(fs, assets, parse, appdir, destdir, full, tree, read);
    if staged.Err? {
      return Err(staged.error), left, packageFiles;
    }
    var pages := WriteAppJsonAsWritten(staged.value.fs, destdir, Str(subdir), assets.templateDir, assets.templates,
                                       encode, appFiles);
    left := ApplyWrites(staged.value.fs, pages.writes);
    if pages.error.Some? {
      if pages.error.value.TypeError? {
        assert !IsAbs(Str(subdir));
        assert StoppedAt(staged.value.fs, assets.templateDir, assets.templates[|pages.writes|], pages.error.value);
        assert IsHtml(assets.templates[|pages.writes|]);
      }
      return Err(pages.error.value), left, packageFiles;
    }
    assert forall i :: 0 <= i < |assets.templates| ==> CopiedVerbatim(staged.value.fs, assets.templateDir, assets.templates[i]);
    r := Ok(Exported(left, packageFiles, appFiles, staged.value.warnings, pages.writes));
  }

  /** The subdirectory `export` hands on, empty when absent. */
  function SubdirPath(subdir: Option<string>): PurePath {
    Parse(if subdir.Some? then subdir.value else "")
  }

  /** Where the app's pages go: `destdir / str(subdir)`. */
  function AppDestDir(destdir: PurePath, subdir: PurePath): PurePath {
    JoinPath(destdir, Parse(Str(subdir)))
  }

  function AppJsonPath(destdir: PurePath, subdir: PurePath): PurePath {
    JoinPath(AppDestDir(destdir, subdir), RelPath(["app.json"]))
  }

  /** The base copies run when every base file exists in the assets. */
  lemma BaseSourcesRun(fs: Fs, assetsDir: PurePath, destdir: PurePath, files: seq<string>)
    requires forall f :: f in files ==> JoinPath(assetsDir, Parse(f)) in fs
    ensures CopyAll(fs, BasePairs(assetsDir, destdir, files), false).Ok?
  {
    var pairs := BasePairs(assetsDir, destdir, files);
    forall k | 0 <= k < |pairs| ensures pairs[k].0 in fs {
      assert files[k] in files;
    }
    SourcesPresentCanRun(fs, pairs);
  }

  /** The package copies run when every package file exists in the
      assets' Pyodide directory. */
  lemma PackageSourcesRun(fs: Fs, assetsDir: PurePath, destdir: PurePath, files: seq<string>)
    ensures (forall f :: f in files ==> JoinPath(PyodideDir(assetsDir), Parse(f)) in fs) ==>
              CopyAll(fs, PackagePairs(assetsDir, destdir, files), false).Ok?
  {
    var pairs := PackagePairs(assetsDir, destdir, files);
    if forall f :: f in files ==> JoinPath(PyodideDir(assetsDir), Parse(f)) in fs {
      forall k | 0 <= k < |pairs| ensures pairs[k].0 in fs {
        assert files[k] in files;
      }
      SourcesPresentCanRun(fs, pairs);
    }
  }

  /** What exists before the export still exists after its copies, so
      the package files it picks and the templates are there to read. */
  lemma PresentAfter(fs: Fs, after: Fs, assets: Assets, full: bool, packageFiles: seq<string>)
    requires fs.Keys <= after.Keys
    requires forall f :: f in packageFiles ==> f in PackageSources(assets, full)
    ensures SourcesPresent(fs, assets, full) ==>
              && (forall f :: f in packageFiles ==> JoinPath(PyodideDir(assets.dir), Parse(f)) in after)
              && (forall i :: 0 <= i < |assets.templates| ==> JoinPath(assets.templateDir, assets.templates[i]) in after)
  {
  }

  /** Every base file lands at its relative path under the destination,
      and stays there through the later steps. */
  lemma BaseFilesCopied(fs: Fs, assetsDir: PurePath, destdir: PurePath, files: seq<string>, base: Run,
                        afterPackages: Fs, after: Fs)
    requires CopyAll(fs, BasePairs(assetsDir, destdir, files), false) == Ok(base)
    requires base.fs.Keys <= afterPackages.Keys && afterPackages.Keys <= after.Keys
    ensures forall f :: f in files ==> JoinPath(destdir, Parse(f)) in after
  {
  }

  /** A template that existed before the export is read with its original
      content: no copy of the export overwrites a file. */
  lemma TemplatesFromOriginal(fs: Fs, staged: Fs, srcDir: PurePath, appDest: PurePath,
                              substitute: (string, map<string, string>) -> string, repl: map<string, string>,
                              templates: seq<PurePath>, pages: seq<Write>)
    requires forall p :: p in fs ==> p in staged && staged[p] == fs[p]
    requires |pages| > |templates|
    requires forall i :: 0 <= i < |templates| ==> WritesTemplate(staged, srcDir, appDest, substitute, repl, templates[i], pages[i])
    ensures forall i :: 0 <= i < |templates| && JoinPath(srcDir, templates[i]) in fs ==>
              WritesTemplate(fs, srcDir, appDest, substitute, repl, templates[i], pages[i])
  {
  }

  /** Which package files the export copies, and the copy itself. */
  method PackageStage(fs: Fs, assets: Assets, parse: Parser, destdir: PurePath, full: bool, appFiles: seq<FileContent>)
    returns (packageFiles: seq<string>, packages: Result<Run>, ghost baseNames: seq<string>, ghost appNames: seq<string>)
    ensures full ==> packageFiles == FullPackageFiles(assets.pyodideListing, assets.baseFiles)
    ensures !full ==> DepPackages(assets.lock, parse, appFiles, packageFiles, baseNames, appNames)
    ensures packages.Ok? ==> forall f :: f in packageFiles ==> JoinPath(PyodideDir(destdir), Parse(f)) in packages.value.fs
    ensures packages.Ok? ==> forall p :: p in fs ==> p in packages.value.fs && packages.value.fs[p] == fs[p]
    ensures packages.Err? ==> packages.error.FileNotFoundError?
    ensures forall f :: f in packageFiles ==> f in PackageSources(assets, full)
    ensures (forall f :: f in packageFiles ==> JoinPath(PyodideDir(assets.dir), Parse(f)) in fs) ==> packages.Ok?
  {
    baseNames, appNames := [], [];
    if full {
      packageFiles := FullPackageFiles(assets.pyodideListing, assets.baseFiles);
    } else {
      packageFiles, baseNames, appNames := DepPackageFiles(assets.lock, parse, appFiles);
    }
    packages := CopyPackages(fs, assets.dir, destdir, packageFiles);
  }

  lemma KeptThroughout(fs: Fs, afterBase: Fs, afterPackages: Fs, pages: seq<Write>)
    requires forall p :: p in fs ==> p in afterBase && afterBase[p] == fs[p]
    requires forall p :: p in afterBase ==> p in afterPackages && afterPackages[p] == afterBase[p]
    ensures KeepsOutsidePages(fs, ApplyWrites(afterPackages, pages), pages)
  {
  }

  /** The base package files come first, in closure order, then the app's;
      a file in both closures is listed twice. */
  lemma NonFullOrder(lock: LockFile, baseInfos: seq<PackageInfo>, appInfos: seq<PackageInfo>)
    ensures FileNames(baseInfos + appInfos) == FileNames(baseInfos) + FileNames(appInfos)
  {
  }
}
