/** Reading an app directory into a bundle and planning the files
    `write_app_json` writes (shinylive/_app_json.py). The directory is a
    tree of names as `os.walk` lists them; reading a file (text, or base64
    for bytes that are not UTF-8) is the parameter `read`. */
module AppJson {
  import opened Strings
  import opened Outcomes
  import opened Files
  import opened Paths
  import opened Sorting

  datatype Tree = Tree(files: seq<string>, dirs: seq<Entry>)
  datatype Entry = Entry(name: string, tree: Tree)

  /** Names `read_app_files` never collects or descends into: hidden ones
      and the virtual environment and bytecode cache directories. */
  predicate Excluded(name: string) {
    StartsWith(name, ".") || name == "__pycache__" || name == "venv" || name == ".venv"
  }

  function Keep(names: seq<string>): (r: seq<string>)
    ensures forall x :: x in r <==> x in names && !Excluded(x)
    ensures |r| <= |names|
  {
    if |names| == 0 then []
    else (if Excluded(names[0]) then [] else [names[0]]) + Keep(names[1..])
  }

  // ---------------------------------------------------------------------
  // The order of the files of one directory
  // ---------------------------------------------------------------------

  /** The kept files of one directory, sorted, with `app.py` moved to the
      front. */
  function OrderFiles(files: seq<string>): (r: seq<string>)
    ensures multiset(r) == multiset(Sort(Keep(files)))
    ensures forall x :: x in r <==> x in files && !Excluded(x)
    ensures "app.py" in Keep(files) ==> |r| > 0 && r[0] == "app.py" && Sorted(r[1..])
    ensures "app.py" !in Keep(files) ==> Sorted(r)
  {
    var s := Sort(Keep(files));
    SameMembers(s, Keep(files));
    if "app.py" in s then
      var i := FirstIndex(s, "app.py");
      MoveToFront(s, i);
      DeleteSorted(s, i);
      ["app.py"] + (s[..i] + s[i + 1..])
    else s
  }

  lemma SameMembers(a: seq<string>, b: seq<string>)
    requires multiset(a) == multiset(b)
    ensures forall x :: x in a <==> x in b
  {
    forall x ensures x in a <==> x in b {
      assert x in a <==> x in multiset(a);
      assert x in b <==> x in multiset(b);
    }
  }

  lemma MoveToFront(s: seq<string>, i: nat)
    requires i < |s|
    ensures multiset([s[i]] + (s[..i] + s[i + 1..])) == multiset(s)
    ensures forall x :: x in [s[i]] + (s[..i] + s[i + 1..]) <==> x in s
  {
    assert s == s[..i] + [s[i]] + s[i + 1..];
    SameMembers([s[i]] + (s[..i] + s[i + 1..]), s);
  }

  lemma DeleteSorted(s: seq<string>, i: nat)
    requires i < |s| && Sorted(s)
    ensures Sorted(s[..i] + s[i + 1..])
  {
    var t := s[..i] + s[i + 1..];
    forall a, b | 0 <= a < b < |t| ensures LessEq(t[a], t[b]) {
      var a' := if a < i then a else a + 1;
      var b' := if b < i then b else b + 1;
      assert t[a] == s[a'] && t[b] == s[b'];
    }
  }

  /** The order is determined: any arrangement of the kept files with
      `app.py` first (when present) and the rest sorted is this one. */
  lemma OrderFilesUnique(files: seq<string>, r: seq<string>)
    requires multiset(r) == multiset(Keep(files))
    requires "app.py" in Keep(files) ==> |r| > 0 && r[0] == "app.py" && Sorted(r[1..])
    requires "app.py" !in Keep(files) ==> Sorted(r)
    ensures r == OrderFiles(files)
  {
    var o := OrderFiles(files);
    assert multiset(o) == multiset(r);
    if "app.py" in Keep(files) {
      FrontSortedUnique("app.py", r, o);
    } else {
      SortedUnique(r, o);
    }
  }

  lemma FrontSortedUnique(x: string, a: seq<string>, b: seq<string>)
    requires multiset(a) == multiset(b)
    requires |a| > 0 && |b| > 0 && a[0] == x && b[0] == x
    requires Sorted(a[1..]) && Sorted(b[1..])
    ensures a == b
  {
    assert a == [a[0]] + a[1..] && b == [b[0]] + b[1..];
    assert multiset(a[1..]) == multiset(a) - multiset{x};
    assert multiset(b[1..]) == multiset(b) - multiset{x};
    SortedUnique(a[1..], b[1..]);
  }

  // ---------------------------------------------------------------------
  // The walk
  // ---------------------------------------------------------------------

  /** A collected file: its directory relative to the app directory, as
      components, and its name. */
  datatype Found = Found(dir: seq<string>, file: string)

  function RelPath(parts: seq<string>): PurePath {
    PurePath("", parts)
  }

  /** The directory `os.walk` is at. */
  function RootOf(appdir: PurePath, rel: seq<string>): PurePath {
    JoinPath(appdir, RelPath(rel))
  }

  predicate Outside(appdir: PurePath, destdir: PurePath, rel: seq<string>) {
    !IsRelativeTo(RootOf(appdir, rel), destdir)
  }

  /** File `f`, found while walking below directory `rel`: it lies under
      `rel`, reached through kept directories only, outside the destination
      directory, and is itself kept. */
  predicate Collected(appdir: PurePath, destdir: PurePath, rel: seq<string>, f: Found) {
    && |rel| <= |f.dir| && f.dir[..|rel|] == rel
    && (forall k :: |rel| <= k < |f.dir| ==> !Excluded(f.dir[k]))
    && !Excluded(f.file)
    && Outside(appdir, destdir, f.dir)
  }

  /** What the walk collects below a directory of the app: nothing when the
      directory is under the destination directory; else its own files in
      order, then each kept subdirectory in listing order. (A directory
      under the destination is not pruned by the source, but every
      directory below it is under the destination as well, so it adds
      nothing either; see `BelowDestination`.) */
  function WalkTree(appdir: PurePath, destdir: PurePath, rel: seq<string>, t: Tree): (r: seq<Found>)
    ensures forall k :: 0 <= k < |r| ==> Collected(appdir, destdir, rel, r[k])
    decreases t, 1
  {
    if !Outside(appdir, destdir, rel) then []
    else
      var here := FoundHere(rel, OrderFiles(t.files));
      assert forall k :: 0 <= k < |here| ==> here[k].dir[|rel|..] == [];
      here + WalkDirs(appdir, destdir, rel, t, 0)
  }

  /** The files of directory `rel`, in the given order. */
  function FoundHere(rel: seq<string>, files: seq<string>): (r: seq<Found>)
    ensures |r| == |files| && forall k :: 0 <= k < |files| ==> r[k] == Found(rel, files[k])
  {
    seq(|files|, i requires 0 <= i < |files| => Found(rel, files[i]))
  }

  /** The walk below the subdirectories of `t` from the `i`-th on: every
      file it finds lies strictly below `rel`. */
  function WalkDirs(appdir: PurePath, destdir: PurePath, rel: seq<string>, t: Tree, i: nat): (r: seq<Found>)
    requires i <= |t.dirs|
    ensures forall k :: 0 <= k < |r| ==> |rel| < |r[k].dir| && Collected(appdir, destdir, rel, r[k])
    decreases t, 0, |t.dirs| - i
  {
    if i == |t.dirs| then []
    else
      var d := t.dirs[i];
      var below := if Excluded(d.name) then [] else WalkTree(appdir, destdir, rel + [d.name], d.tree);
      forall k | 0 <= k < |below|
        ensures |rel| < |below[k].dir| && Collected(appdir, destdir, rel, below[k])
      {
        CollectedBelow(appdir, destdir, rel, d.name, below[k]);
      }
      below + WalkDirs(appdir, destdir, rel, t, i + 1)
  }

  /** A file collected below kept subdirectory `name` of `rel` is collected
      below `rel`. */
  lemma CollectedBelow(appdir: PurePath, destdir: PurePath, rel: seq<string>, name: string, f: Found)
    requires !Excluded(name) && Collected(appdir, destdir, rel + [name], f)
    ensures |rel| < |f.dir| && Collected(appdir, destdir, rel, f)
  {
    var dir := f.dir;
    assert dir[..|rel| + 1] == rel + [name];
    assert dir[..|rel|] == dir[..|rel| + 1][..|rel|];
    assert dir[|rel|..] == [name] + dir[|rel| + 1..];
  }

  /** Every directory below one under the destination directory is under it
      too. */
  lemma BelowDestination(appdir: PurePath, destdir: PurePath, rel: seq<string>, more: seq<string>)
    requires !Outside(appdir, destdir, rel)
    ensures !Outside(appdir, destdir, rel + more)
  {
    var root := RootOf(appdir, rel);
    var child := RootOf(appdir, rel + more);
    assert child.parts == root.parts + more;
    assert child.parts[..|root.parts|] == root.parts;
    IsRelativeToTransitive(child, root, destdir);
  }

  /** File `file` lies in directory `dir` of the tree, reached one name at
      a time through the listed subdirectories. */
  predicate InTree(t: Tree, dir: seq<string>, file: string)
    decreases t
  {
    if |dir| == 0 then file in t.files
    else exists i :: 0 <= i < |t.dirs| && t.dirs[i].name == dir[0] && InTree(t.dirs[i].tree, dir[1..], file)
  }

  /** The walk misses nothing: a kept file of the tree, reached through
      kept directories only, in a directory outside the destination
      directory, is collected. */
  lemma {:induction false} WalkComplete(appdir: PurePath, destdir: PurePath, rel: seq<string>, t: Tree,
                                        dir: seq<string>, file: string)
    requires InTree(t, dir, file) && !Excluded(file)
    requires forall c :: c in dir ==> !Excluded(c)
    requires Outside(appdir, destdir, rel + dir)
    ensures Found(rel + dir, file) in WalkTree(appdir, destdir, rel, t)
    decreases t, 1
  {
    assert Outside(appdir, destdir, rel) by {
      if !Outside(appdir, destdir, rel) {
        BelowDestination(appdir, destdir, rel, dir);
      }
    }
    var f := Found(rel + dir, file);
    if |dir| == 0 {
      var files := OrderFiles(t.files);
      assert f in FoundHere(rel, files) by {
        assert file in files;
        var k :| 0 <= k < |files| && files[k] == file;
        assert FoundHere(rel, files)[k] == f;
      }
      WalkTreeStep(appdir, destdir, rel, t);
    } else {
      DirsComplete(appdir, destdir, rel, t, 0, dir, file);
      WalkTreeStep(appdir, destdir, rel, t);
    }
  }

  /** The subdirectory loop from the `j`-th subdirectory on misses nothing
      below a kept subdirectory it reaches. */
  lemma {:induction false} DirsComplete(appdir: PurePath, destdir: PurePath, rel: seq<string>, t: Tree, j: nat,
                                        dir: seq<string>, file: string)
    requires j <= |t.dirs| && |dir| > 0
    requires exists i :: j <= i < |t.dirs| && t.dirs[i].name == dir[0] && InTree(t.dirs[i].tree, dir[1..], file)
    requires !Excluded(file) && forall c :: c in dir ==> !Excluded(c)
    requires Outside(appdir, destdir, rel + dir)
    ensures Found(rel + dir, file) in WalkDirs(appdir, destdir, rel, t, j)
    decreases t, 0, |t.dirs| - j
  {
    var f := Found(rel + dir, file);
    var d := t.dirs[j];
    if d.name == dir[0] && InTree(d.tree, dir[1..], file) {
      assert f in WalkTree(appdir, destdir, rel + [d.name], d.tree) by {
        assert (rel + [dir[0]]) + dir[1..] == rel + dir;
        WalkComplete(appdir, destdir, rel + [dir[0]], d.tree, dir[1..], file);
      }
      FirstDir(appdir, destdir, rel, t, j, f);
    } else {
      DirsComplete(appdir, destdir, rel, t, j + 1, dir, file);
      LaterDirs(appdir, destdir, rel, t, j, f);
    }
  }

  lemma WalkTreeStep(appdir: PurePath, destdir: PurePath, rel: seq<string>, t: Tree)
    requires Outside(appdir, destdir, rel)
    ensures WalkTree(appdir, destdir, rel, t) == FoundHere(rel, OrderFiles(t.files)) + WalkDirs(appdir, destdir, rel, t, 0)
  {
  }

  lemma WalkDirsStep(appdir: PurePath, destdir: PurePath, rel: seq<string>, t: Tree, j: nat)
    requires j < |t.dirs|
    ensures WalkDirs(appdir, destdir, rel, t, j)
            == (if Excluded(t.dirs[j].name) then [] else WalkTree(appdir, destdir, rel + [t.dirs[j].name], t.dirs[j].tree))
               + WalkDirs(appdir, destdir, rel, t, j + 1)
  {
  }

  lemma LaterDirs(appdir: PurePath, destdir: PurePath, rel: seq<string>, t: Tree, j: nat, f: Found)
    requires j < |t.dirs| && f in WalkDirs(appdir, destdir, rel, t, j + 1)
    ensures f in WalkDirs(appdir, destdir, rel, t, j)
  {
    WalkDirsStep(appdir, destdir, rel, t, j);
  }

  lemma FirstDir(appdir: PurePath, destdir: PurePath, rel: seq<string>, t: Tree, j: nat, f: Found)
    requires j < |t.dirs| && !Excluded(t.dirs[j].name)
    requires f in WalkTree(appdir, destdir, rel + [t.dirs[j].name], t.dirs[j].tree)
    ensures f in WalkDirs(appdir, destdir, rel, t, j)
  {
    WalkDirsStep(appdir, destdir, rel, t, j);
  }

  /** At the top of an app outside the destination, `app.py` comes first. */
  lemma AppPyFirst(appdir: PurePath, destdir: PurePath, t: Tree)
    requires Outside(appdir, destdir, []) && "app.py" in Keep(t.files)
    ensures |WalkTree(appdir, destdir, [], t)| > 0
    ensures WalkTree(appdir, destdir, [], t)[0] == Found([], "app.py")
  {
  }

  /** The name a collected file gets: the POSIX path of its directory
      joined with its name, which is the bare name at the top. */
  function OutputName(f: Found): (name: string)
    ensures |f.dir| == 0 ==> name == f.file
  {
    Join(f.dir + [f.file], "/")
  }

  lemma OutputNameNested(f: Found)
    requires |f.dir| > 0
    ensures OutputName(f) == Join(f.dir, "/") + "/" + f.file
  {
    JoinAppend(f.dir, [f.file], "/");
  }

  /** Output names take the file back apart: split at `/` they give the
      directory components and the name, for names a listing can hold. */
  lemma OutputNameSplits(f: Found)
    requires forall c :: c in f.dir + [f.file] ==> ValidPart(c)
    ensures Split(OutputName(f), '/') == f.dir + [f.file]
  {
    SplitJoinParts(f.dir + [f.file]);
  }

  function FilePath(appdir: PurePath, f: Found): PurePath {
    JoinPath(RootOf(appdir, f.dir), RelPath([f.file]))
  }

  /** `read_app_files(appdir, destdir)`. */
  function ReadAppFiles(appdir: PurePath, destdir: PurePath, t: Tree, read: PurePath -> DiskFile): (r: seq<FileContent>)
    ensures |r| == |WalkTree(appdir, destdir, [], t)|
    ensures forall k :: 0 <= k < |r| ==>
              var f := WalkTree(appdir, destdir, [], t)[k];
              r[k] == FileContent(OutputName(f), read(FilePath(appdir, f)).content,
                                  Some(read(FilePath(appdir, f)).fileType))
  {
    var found := WalkTree(appdir, destdir, [], t);
    seq(|found|, k requires 0 <= k < |found| =>
      var d := read(FilePath(appdir, found[k]));
      FileContent(OutputName(found[k]), d.content, Some(d.fileType)))
  }

  // ---------------------------------------------------------------------
  // write_app_json
  // ---------------------------------------------------------------------

  /** `"../"` once per component of the normalised subdirectory, the
      relative path from the app's pages back to the export root. */
  function SubdirInverse(subdir: string): (r: Result<string>)
    ensures r.Err? <==> IsAbs(subdir)
    ensures r.Err? ==> r.error.ValueError?
    ensures r.Ok? ==> r.value == Repeat("../", PathLength(subdir).value)
  {
    var n :- PathLength(subdir);
    var s := Join(Dots(n), "/");
    DotsJoin(n);
    Ok(if s != "" then s + "/" else s)
  }

  function Dots(n: nat): (r: seq<string>)
    ensures |r| == n
  {
    if n == 0 then [] else [".."] + Dots(n - 1)
  }

  lemma {:induction false} DotsJoin(n: nat)
    ensures n == 0 ==> Join(Dots(n), "/") == ""
    ensures n > 0 ==> Join(Dots(n), "/") != "" && Join(Dots(n), "/") + "/" == Repeat("../", n)
  {
    if n > 1 {
      DotsJoin(n - 1);
      assert Dots(n)[1..] == Dots(n - 1);
      assert Join(Dots(n), "/") == ".." + "/" + Join(Dots(n - 1), "/");
    } else if n == 1 {
      assert Dots(1) == [".."];
    }
  }

  /** A subdirectory of plain names climbs back one `../` per name. */
  lemma SubdirInversePlain(names: seq<string>)
    requires forall i :: 0 <= i < |names| ==> ValidPart(names[i]) && names[i] != ".."
    ensures SubdirInverse(Join(names, "/")) == Ok(Repeat("../", |names|))
  {
    PathLengthPlain(names);
  }

  const TitleKey := "title"
  const RelPathKey := "REL_PATH"
  const AppEngineKey := "APP_ENGINE"

  /** The template substitutions: the default title, overridden by the
      user's parameters, overridden by the two forced values. */
  function Replacements(params: map<string, string>, relPath: string): (r: map<string, string>)
    ensures r.Keys == params.Keys + {TitleKey, RelPathKey, AppEngineKey}
    ensures r[RelPathKey] == relPath && r[AppEngineKey] == "python"
    ensures r[TitleKey] == (if TitleKey in params then params[TitleKey] else "Shiny App")
    ensures forall k :: k in params && k != RelPathKey && k != AppEngineKey ==> r[k] == params[k]
  {
    assert |TitleKey| == 5 && |RelPathKey| == 8 && |AppEngineKey| == 10;
    map[TitleKey := "Shiny App"] + params + map[RelPathKey := relPath, AppEngineKey := "python"]
  }

  /** One file `write_app_json` writes. */
  datatype Write = Write(dest: PurePath, content: string)

  predicate IsHtml(rel: PurePath) {
    Suffix(Name(rel)) == ".html"
  }

  /** The write of template `t`: at the same relative path under the app's
      destination, through `substitute` with the replacements `repl` when
      it is an `.html` file and verbatim otherwise. */
  predicate WritesTemplate(fs: map<PurePath, string>, srcDir: PurePath, appDest: PurePath,
                           substitute: (string, map<string, string>) -> string, repl: map<string, string>,
                           t: PurePath, w: Write) {
    var src := JoinPath(srcDir, t);
    src in fs && w == Write(JoinPath(appDest, t), if IsHtml(t) then substitute(fs[src], repl) else fs[src])
  }

  /** The template files written under the app's destination, one write
      per template and in order. A missing template is a FileNotFoundError. */
  function TemplateWrites(fs: map<PurePath, string>, srcDir: PurePath, appDest: PurePath, templates: seq<PurePath>,
                          substitute: (string, map<string, string>) -> string, repl: map<string, string>): (r: Result<seq<Write>>)
    ensures r.Ok? <==> forall i :: 0 <= i < |templates| ==> JoinPath(srcDir, templates[i]) in fs
    ensures r.Err? ==> r.error.FileNotFoundError?
    ensures r.Ok? ==> |r.value| == |templates|
    ensures r.Ok? ==> forall i :: 0 <= i < |templates| ==>
                        WritesTemplate(fs, srcDir, appDest, substitute, repl, templates[i], r.value[i])
    decreases |templates|
  {
    if |templates| == 0 then Ok([])
    else
      var src := JoinPath(srcDir, templates[0]);
      if src !in fs then Err(FileNotFoundError(Str(src)))
      else
        var rest := TemplateWrites(fs, srcDir, appDest, templates[1..], substitute, repl);
        TemplatesPresentCons(fs, srcDir, templates);
        if rest.Err? then rest
        else
          var first := TemplateWrite(fs, srcDir, appDest, substitute, repl, templates[0]);
          PairwiseCons((t, w) => WritesTemplate(fs, srcDir, appDest, substitute, repl, t, w), templates, first, rest.value);
          Ok([first] + rest.value)
  }

  lemma TemplatesPresentCons(fs: map<PurePath, string>, srcDir: PurePath, templates: seq<PurePath>)
    requires |templates| > 0 && JoinPath(srcDir, templates[0]) in fs
    ensures (forall i :: 0 <= i < |templates| ==> JoinPath(srcDir, templates[i]) in fs)
            <==> (forall i :: 0 <= i < |templates[1..]| ==> JoinPath(srcDir, templates[1..][i]) in fs)
  {
    assert forall i :: 1 <= i < |templates| ==> templates[i] == templates[1..][i - 1];
  }

  /** A pointwise relation that holds at the head and along the tails holds
      along the whole sequences. */
  lemma PairwiseCons<A, B>(ok: (A, B) -> bool, xs: seq<A>, y: B, ys: seq<B>)
    requires |xs| > 0 && |ys| == |xs| - 1 && ok(xs[0], y)
    requires forall i :: 0 <= i < |xs[1..]| ==> ok(xs[1..][i], ys[i])
    ensures forall i :: 0 <= i < |xs| ==> ok(xs[i], ([y] + ys)[i])
  {
    forall i | 1 <= i < |xs| ensures ok(xs[i], ([y] + ys)[i]) {
      assert xs[i] == xs[1..][i - 1] && ([y] + ys)[i] == ys[i - 1];
    }
  }

  function TemplateWrite(fs: map<PurePath, string>, srcDir: PurePath, appDest: PurePath,
                         substitute: (string, map<string, string>) -> string, repl: map<string, string>,
                         t: PurePath): (w: Write)
    requires JoinPath(srcDir, t) in fs
    ensures WritesTemplate(fs, srcDir, appDest, substitute, repl, t, w)
  {
    var src := fs[JoinPath(srcDir, t)];
    Write(JoinPath(appDest, t), if IsHtml(t) then substitute(src, repl) else src)
  }

  /** A template's destination, taken relative to the app's destination,
      is the template's path relative to the template directory. */
  lemma TemplateMirrored(appDest: PurePath, rel: PurePath)
    requires !IsAbsolute(rel)
    ensures RelativeTo(JoinPath(appDest, rel), appDest) == Some(rel)
  {
    RelativeToJoin(appDest, rel);
  }

  /** `write_app_json(app_info, destdir, html_source_dir, template_params)`:
      the templates, then `app.json` holding the encoded bundle, all under
      `destdir/subdir`. `substitute` stands for the string replacement of
      the template parameters and `encode` for `json.dump`. The templates'
      `REL_PATH` climbs back one `../` per component of the subdirectory. */
  function WriteAppJson(fs: map<PurePath, string>, destdir: PurePath, subdir: string, srcDir: PurePath,
                        templates: seq<PurePath>, params: map<string, string>,
                        substitute: (string, map<string, string>) -> string,
                        encode: seq<FileContent> -> string, files: seq<FileContent>): (r: Result<seq<Write>>)
    ensures r.Ok? <==> !IsAbs(subdir) && forall i :: 0 <= i < |templates| ==> JoinPath(srcDir, templates[i]) in fs
    ensures IsAbs(subdir) ==> r.Err? && r.error.ValueError?
    ensures !IsAbs(subdir) && r.Err? ==> r.error.FileNotFoundError?
    ensures r.Ok? ==> && |r.value| == |templates| + 1
                      && r.value[|templates|] == Write(JoinPath(JoinPath(destdir, Parse(subdir)), RelPath(["app.json"])), encode(files))
                      && forall i :: 0 <= i < |templates| ==> r.value[i].dest == JoinPath(JoinPath(destdir, Parse(subdir)), templates[i])
    ensures r.Ok? ==> forall i :: 0 <= i < |templates| ==>
                        WritesTemplate(fs, srcDir, JoinPath(destdir, Parse(subdir)), substitute,
                                       Replacements(params, Repeat("../", PathLength(subdir).value)), templates[i], r.value[i])
  {
    var inverse := SubdirInverse(subdir);
    if inverse.Err? then Err(inverse.error)
    else
      var appDest := JoinPath(destdir, Parse(subdir));
      var writes := TemplateWrites(fs, srcDir, appDest, templates, substitute, Replacements(params, inverse.value));
      if writes.Err? then Err(writes.error)
      else Ok(writes.value + [Write(JoinPath(appDest, RelPath(["app.json"])), encode(files))])
  }

  /** The message of the TypeError Python raises when a call passes a
      keyword argument the function does not declare. */
  const DataKeywordError := "copy_file_and_substitute() got an unexpected keyword argument 'data'"

  /** The writes a run made before it stopped, and the error that stopped
      it, if any. */
  datatype Partial = Partial(writes: seq<Write>, error: Option<Error>)

  /** A template the loop of `write_app_json` as written gets past: it
      exists and is copied verbatim, because it is not an `.html` file. */
  predicate CopiedVerbatim(fs: map<PurePath, string>, srcDir: PurePath, t: PurePath) {
    JoinPath(srcDir, t) in fs && !IsHtml(t)
  }

  /** The template loop of `write_app_json` as written. An `.html` template
      reaches `copy_file_and_substitute` with the keyword `data=`, which
      that function does not declare, so the loop stops there with a
      TypeError; the templates before it are already copied verbatim. */
  function TemplateWritesAsWritten(fs: map<PurePath, string>, srcDir: PurePath, appDest: PurePath,
                                   templates: seq<PurePath>): (r: Partial)
    ensures r.error.None? <==> forall i :: 0 <= i < |templates| ==> CopiedVerbatim(fs, srcDir, templates[i])
    ensures r.error.None? ==> |r.writes| == |templates|
    ensures |r.writes| <= |templates|
    ensures forall i :: 0 <= i < |r.writes| ==>
              CopiedVerbatim(fs, srcDir, templates[i])
              && r.writes[i] == Write(JoinPath(appDest, templates[i]), fs[JoinPath(srcDir, templates[i])])
    ensures r.error.Some? ==> |r.writes| < |templates| && StoppedAt(fs, srcDir, templates[|r.writes|], r.error.value)
    decreases |templates|
  {
    if |templates| == 0 then Partial([], None)
    else
      var t := templates[0];
      var stop := StopAt(fs, srcDir, t);
      if stop.Some? then Partial([], stop)
      else
        var rest := TemplateWritesAsWritten(fs, srcDir, appDest, templates[1..]);
        var w := Write(JoinPath(appDest, t), fs[JoinPath(srcDir, t)]);
        AsWrittenCons(fs, srcDir, appDest, templates, w, rest);
        Partial([w] + rest.writes, rest.error)
  }

  /** The contract of `TemplateWritesAsWritten`, from the tail to the whole
      sequence, when the head is copied verbatim. */
  lemma AsWrittenCons(fs: map<PurePath, string>, srcDir: PurePath, appDest: PurePath,
                      templates: seq<PurePath>, w: Write, rest: Partial)
    requires |templates| > 0 && CopiedVerbatim(fs, srcDir, templates[0])
    requires w == Write(JoinPath(appDest, templates[0]), fs[JoinPath(srcDir, templates[0])])
    requires rest.error.None? <==> forall i :: 0 <= i < |templates[1..]| ==> CopiedVerbatim(fs, srcDir, templates[1..][i])
    requires rest.error.None? ==> |rest.writes| == |templates[1..]|
    requires |rest.writes| <= |templates[1..]|
    requires forall i :: 0 <= i < |rest.writes| ==>
               CopiedVerbatim(fs, srcDir, templates[1..][i])
               && rest.writes[i] == Write(JoinPath(appDest, templates[1..][i]), fs[JoinPath(srcDir, templates[1..][i])])
    requires rest.error.Some? ==> |rest.writes| < |templates[1..]| && StoppedAt(fs, srcDir, templates[1..][|rest.writes|], rest.error.value)
    ensures rest.error.None? <==> forall i :: 0 <= i < |templates| ==> CopiedVerbatim(fs, srcDir, templates[i])
    ensures forall i :: 0 <= i < |[w] + rest.writes| ==>
              CopiedVerbatim(fs, srcDir, templates[i])
              && ([w] + rest.writes)[i] == Write(JoinPath(appDest, templates[i]), fs[JoinPath(srcDir, templates[i])])
    ensures rest.error.Some? ==> StoppedAt(fs, srcDir, templates[|[w] + rest.writes|], rest.error.value)
  {
    AllCons(t => CopiedVerbatim(fs, srcDir, t), templates);
    PrefixCons((t, w) => CopiedVerbatim(fs, srcDir, t) && w == Write(JoinPath(appDest, t), fs[JoinPath(srcDir, t)]),
               templates, w, rest.writes);
    if rest.error.Some? {
      assert templates[1..][|rest.writes|] == templates[|[w] + rest.writes|];
    }
  }

  /** What the loop as written does at template `t`: the error that stops
      it there, if any. */
  function StopAt(fs: map<PurePath, string>, srcDir: PurePath, t: PurePath): (e: Option<Error>)
    ensures e.None? <==> CopiedVerbatim(fs, srcDir, t)
    ensures e.Some? ==> StoppedAt(fs, srcDir, t, e.value)
  {
    var src := JoinPath(srcDir, t);
    if src !in fs then Some(FileNotFoundError(Str(src)))
    else if IsHtml(t) then Some(TypeError(DataKeywordError))
    else None
  }

  /** A property holds along a sequence exactly when it holds at the head
      and along the tail. */
  lemma AllCons<A>(ok: A -> bool, xs: seq<A>)
    requires |xs| > 0
    ensures (forall i :: 0 <= i < |xs| ==> ok(xs[i])) <==> ok(xs[0]) && forall i :: 0 <= i < |xs[1..]| ==> ok(xs[1..][i])
  {
    assert forall i :: 1 <= i < |xs| ==> xs[i] == xs[1..][i - 1];
  }

  /** A pointwise relation between a sequence and a shorter one that holds
      at the head and along the tails holds along the shorter one. */
  lemma PrefixCons<A, B>(ok: (A, B) -> bool, xs: seq<A>, y: B, ys: seq<B>)
    requires |xs| > 0 && |ys| <= |xs| - 1 && ok(xs[0], y)
    requires forall i :: 0 <= i < |ys| ==> ok(xs[1..][i], ys[i])
    ensures forall i :: 0 <= i < |[y] + ys| ==> ok(xs[i], ([y] + ys)[i])
  {
    forall i | 1 <= i < |[y] + ys| ensures ok(xs[i], ([y] + ys)[i]) {
      assert xs[i] == xs[1..][i - 1] && ([y] + ys)[i] == ys[i - 1];
    }
  }

  /** The error that stops the loop as written at template `t`: a missing
      file, or else the TypeError of an `.html` file. */
  predicate StoppedAt(fs: map<PurePath, string>, srcDir: PurePath, t: PurePath, e: Error) {
    var src := JoinPath(srcDir, t);
    if src !in fs then e == FileNotFoundError(Str(src))
    else IsHtml(t) && e == TypeError(DataKeywordError)
  }

  /** `write_app_json` as written: `path_length` rejects an absolute
      subdirectory before anything is written; then the template loop,
      which stops at the first `.html` template; `app.json` is written
      only when the loop gets through. */
  function WriteAppJsonAsWritten(fs: map<PurePath, string>, destdir: PurePath, subdir: string, srcDir: PurePath,
                                 templates: seq<PurePath>, encode: seq<FileContent> -> string,
                                 files: seq<FileContent>): (r: Partial)
    ensures r.error.None? <==> !IsAbs(subdir) && forall i :: 0 <= i < |templates| ==> CopiedVerbatim(fs, srcDir, templates[i])
    ensures IsAbs(subdir) ==> r.writes == [] && r.error.Some? && r.error.value.ValueError?
    ensures r.error.None? ==> && |r.writes| == |templates| + 1
                              && r.writes[|templates|] == Write(JoinPath(JoinPath(destdir, Parse(subdir)), RelPath(["app.json"])), encode(files))
    ensures forall i :: 0 <= i < |r.writes| && i < |templates| ==>
              CopiedVerbatim(fs, srcDir, templates[i])
              && r.writes[i] == Write(JoinPath(JoinPath(destdir, Parse(subdir)), templates[i]), fs[JoinPath(srcDir, templates[i])])
    ensures !IsAbs(subdir) && r.error.Some? ==>
              |r.writes| < |templates| && StoppedAt(fs, srcDir, templates[|r.writes|], r.error.value)
  {
    var inverse := SubdirInverse(subdir);
    if inverse.Err? then Partial([], Some(inverse.error))
    else
      var appDest := JoinPath(destdir, Parse(subdir));
      var pages := TemplateWritesAsWritten(fs, srcDir, appDest, templates);
      if pages.error.Some? then pages
      else Partial(pages.writes + [Write(JoinPath(appDest, RelPath(["app.json"])), encode(files))], None)
  }

  /** As written, `write_app_json` fails with the TypeError as soon as the
      templates include an `.html` file, after copying the templates before
      the first one, and never writes `app.json`. */
  lemma HtmlTemplateFails(fs: map<PurePath, string>, destdir: PurePath, subdir: string, srcDir: PurePath,
                          templates: seq<PurePath>, encode: seq<FileContent> -> string,
                          files: seq<FileContent>, h: nat)
    requires !IsAbs(subdir)
    requires forall i :: 0 <= i < |templates| ==> JoinPath(srcDir, templates[i]) in fs
    requires h < |templates| && IsHtml(templates[h])
    ensures WriteAppJsonAsWritten(fs, destdir, subdir, srcDir, templates, encode, files).error == Some(TypeError(DataKeywordError))
    ensures |WriteAppJsonAsWritten(fs, destdir, subdir, srcDir, templates, encode, files).writes| <= h
  {
  }

  /** Without `.html` templates the call with `data=` is never made, and
      `write_app_json` as written writes what the intended one writes,
      whatever the template parameters. */
  lemma AsWrittenAgreesWithoutHtml(fs: map<PurePath, string>, destdir: PurePath, subdir: string, srcDir: PurePath,
                                   templates: seq<PurePath>, params: map<string, string>,
                                   substitute: (string, map<string, string>) -> string,
                                   encode: seq<FileContent> -> string, files: seq<FileContent>)
    requires forall i :: 0 <= i < |templates| ==> !IsHtml(templates[i])
    ensures WriteAppJsonAsWritten(fs, destdir, subdir, srcDir, templates, encode, files).error.None?
            <==> WriteAppJson(fs, destdir, subdir, srcDir, templates, params, substitute, encode, files).Ok?
    ensures WriteAppJson(fs, destdir, subdir, srcDir, templates, params, substitute, encode, files).Ok? ==>
              WriteAppJson(fs, destdir, subdir, srcDir, templates, params, substitute, encode, files).value
              == WriteAppJsonAsWritten(fs, destdir, subdir, srcDir, templates, encode, files).writes
  {
    var asWritten := WriteAppJsonAsWritten(fs, destdir, subdir, srcDir, templates, encode, files);
    var intended := WriteAppJson(fs, destdir, subdir, srcDir, templates, params, substitute, encode, files);
    if intended.Ok? {
      assert |intended.value| == |asWritten.writes|;
      forall i | 0 <= i < |templates| ensures intended.value[i] == asWritten.writes[i] {
        assert WritesTemplate(fs, srcDir, JoinPath(destdir, Parse(subdir)), substitute,
                              Replacements(params, Repeat("../", PathLength(subdir).value)), templates[i], intended.value[i]);
      }
    }
  }

  /** Carrying out writes in order: a later write to the same file wins. */
  function ApplyWrites(fs: map<PurePath, string>, writes: seq<Write>): (r: map<PurePath, string>)
    ensures fs.Keys <= r.Keys
    ensures forall p :: p in fs && (forall i :: 0 <= i < |writes| ==> writes[i].dest != p) ==> p in r && r[p] == fs[p]
    ensures forall i :: 0 <= i < |writes| ==> writes[i].dest in r
    ensures forall p :: p in r ==> p in fs || exists i :: 0 <= i < |writes| && writes[i].dest == p
    decreases |writes|
  {
    if |writes| == 0 then fs
    else
      var r := ApplyWrites(fs[writes[0].dest := writes[0].content], writes[1..]);
      assert forall i :: 1 <= i < |writes| ==> writes[i] == writes[1..][i - 1];
      r
  }

  /** A path holds the content of the last write to it. */
  lemma {:induction false} ApplyWritesLast(fs: map<PurePath, string>, writes: seq<Write>, i: nat)
    requires i < |writes| && LastWrite(writes, i)
    ensures writes[i].dest in ApplyWrites(fs, writes)
    ensures ApplyWrites(fs, writes)[writes[i].dest] == writes[i].content
    decreases |writes|
  {
    var next := fs[writes[0].dest := writes[0].content];
    var tail := writes[1..];
    if i == 0 {
      assert forall j :: 0 <= j < |tail| ==> tail[j].dest != writes[0].dest;
    } else {
      assert tail[i - 1] == writes[i];
      assert LastWrite(tail, i - 1);
      ApplyWritesLast(next, tail, i - 1);
    }
  }

  /** No later write goes to the same file as write `i`. */
  predicate LastWrite(writes: seq<Write>, i: nat)
    requires i < |writes|
  {
    forall j :: i < j < |writes| ==> writes[j].dest != writes[i].dest
  }
}
