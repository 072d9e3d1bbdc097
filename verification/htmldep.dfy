/** The common HTML dependency of a Shinylive deployment
    (`_shinylive_common_dep_htmldep` in shinylive/_deps.py): the asset files
    split into scripts, stylesheets and resources. The file list, which the
    source gathers by walking the assets directory, is a parameter. */
module HtmlDep {
  import opened Strings
  import opened Paths
  import opened RankSort

  /** An `HtmlDepItem`; `moduleScript` stands for `attribs = {"type": "module"}`. */
  datatype HtmlDepItem = HtmlDepItem(name: string, path: string, moduleScript: bool)

  datatype CommonDep = CommonDep(
    name: string,
    version: string,
    scripts: seq<HtmlDepItem>,
    stylesheets: seq<HtmlDepItem>,
    resources: seq<HtmlDepItem>)

  predicate IsScriptFile(file: string) {
    Basename(file) == "load-shinylive-sw.js" || Basename(file) == "run-python-blocks.js"
  }

  predicate IsStylesheetFile(file: string) {
    Basename(file) == "shinylive.css"
  }

  /** Every file that is not a stylesheet is a resource, scripts included. */
  predicate IsResourceFile(file: string) {
    !IsStylesheetFile(file)
  }

  function Item(assetsDir: string, file: string, moduleScript: bool): HtmlDepItem {
    HtmlDepItem(file, PosixJoin(assetsDir, file), moduleScript)
  }

  // ---------------------------------------------------------------------
  // Reference definitions: each kind of file, in listing order
  // ---------------------------------------------------------------------

  /** The files satisfying `keep`, in listing order, as items. */
  function Pick(assetsDir: string, files: seq<string>, keep: string -> bool, moduleScript: bool): (r: seq<HtmlDepItem>)
    ensures |r| <= |files|
    ensures forall i :: 0 <= i < |r| ==> keep(r[i].name) && r[i] == Item(assetsDir, r[i].name, moduleScript)
    ensures forall i :: 0 <= i < |r| ==> r[i].name in files
    ensures forall f :: f in files && keep(f) ==> Item(assetsDir, f, moduleScript) in r
  {
    if |files| == 0 then []
    else (if keep(files[0]) then [Item(assetsDir, files[0], moduleScript)] else []) + Pick(assetsDir, files[1..], keep, moduleScript)
  }

  function Scripts(assetsDir: string, files: seq<string>): seq<HtmlDepItem> {
    Pick(assetsDir, files, IsScriptFile, true)
  }

  function Stylesheets(assetsDir: string, files: seq<string>): seq<HtmlDepItem> {
    Pick(assetsDir, files, IsStylesheetFile, false)
  }

  function Resources(assetsDir: string, files: seq<string>): seq<HtmlDepItem> {
    Pick(assetsDir, files, IsResourceFile, false)
  }

  lemma {:induction false} PickAppend(assetsDir: string, files: seq<string>, file: string, keep: string -> bool, moduleScript: bool)
    ensures Pick(assetsDir, files + [file], keep, moduleScript) ==
            Pick(assetsDir, files, keep, moduleScript) + (if keep(file) then [Item(assetsDir, file, moduleScript)] else [])
    decreases |files|
  {
    if |files| > 0 {
      assert (files + [file])[1..] == files[1..] + [file];
      PickAppend(assetsDir, files[1..], file, keep, moduleScript);
    } else {
      assert files + [file] == [file];
    }
  }

  // ---------------------------------------------------------------------
  // The loop over the files
  // ---------------------------------------------------------------------

  datatype Buckets = Buckets(scripts: seq<HtmlDepItem>, stylesheets: seq<HtmlDepItem>, resources: seq<HtmlDepItem>)

  /** The `for file in base_files` loop, file by file: a script goes to
      `scripts` and, not being a stylesheet, also to `resources`; a
      stylesheet goes to `stylesheets` only; anything else to `resources`. */
  function Partition(assetsDir: string, files: seq<string>): (b: Buckets)
    ensures b == Buckets(Scripts(assetsDir, files), Stylesheets(assetsDir, files), Resources(assetsDir, files))
  {
    if |files| == 0 then Buckets([], [], [])
    else
      var init := files[..|files| - 1];
      var file := files[|files| - 1];
      var b := Partition(assetsDir, init);
      PartitionStep(assetsDir, files);
      Buckets(b.scripts + (if IsScriptFile(file) then [Item(assetsDir, file, true)] else []),
              b.stylesheets + (if IsStylesheetFile(file) then [Item(assetsDir, file, false)] else []),
              b.resources + (if IsResourceFile(file) then [Item(assetsDir, file, false)] else []))
  }

  /** One more file extends each reference list by that file, if it
      belongs there. */
  lemma PartitionStep(assetsDir: string, files: seq<string>)
    requires |files| > 0
    ensures var init, file := files[..|files| - 1], files[|files| - 1];
      && Scripts(assetsDir, files) ==
         Scripts(assetsDir, init) + (if IsScriptFile(file) then [Item(assetsDir, file, true)] else [])
      && Stylesheets(assetsDir, files) ==
         Stylesheets(assetsDir, init) + (if IsStylesheetFile(file) then [Item(assetsDir, file, false)] else [])
      && Resources(assetsDir, files) ==
         Resources(assetsDir, init) + (if IsResourceFile(file) then [Item(assetsDir, file, false)] else [])
  {
    var init, file := files[..|files| - 1], files[|files| - 1];
    assert files == init + [file];
    PickAppend(assetsDir, init, file, IsScriptFile, true);
    PickAppend(assetsDir, init, file, IsStylesheetFile, false);
    PickAppend(assetsDir, init, file, IsResourceFile, false);
  }

  /** Stylesheets and resources split the listing: every file is in exactly
      one of the two, so their sizes add up to the number of files. */
  lemma {:induction false} StylesheetsAndResources(assetsDir: string, files: seq<string>)
    ensures |Stylesheets(assetsDir, files)| + |Resources(assetsDir, files)| == |files|
    decreases |files|
  {
    if |files| > 0 {
      StylesheetsAndResources(assetsDir, files[1..]);
    }
  }

  /** A script is never a stylesheet, so every script is also a resource. */
  lemma ScriptIsResource(file: string)
    requires IsScriptFile(file)
    ensures !IsStylesheetFile(file)
  {
    var b := Basename(file);
    assert b == "load-shinylive-sw.js" || b == "run-python-blocks.js";
  }

  // ---------------------------------------------------------------------
  // Sorting the scripts
  // ---------------------------------------------------------------------

  /** `scripts_sort_fun`: load-shinylive-sw.js first, run-python-blocks.js
      last, anything else in between. */
  function ScriptRank(item: HtmlDepItem): (k: nat)
    ensures k <= 2
    ensures k == 0 <==> Basename(item.name) == "load-shinylive-sw.js"
    ensures k == 2 <==> Basename(item.name) == "run-python-blocks.js"
  {
    var filename := Basename(item.name);
    if filename == "load-shinylive-sw.js" then 0
    else if filename == "run-python-blocks.js" then 2
    else 1
  }

  /** `scripts.sort(key=scripts_sort_fun)`; Python's sort is stable. */
  function SortScripts(items: seq<HtmlDepItem>): (r: seq<HtmlDepItem>)
    ensures RankSorted(r, ScriptRank)
    ensures forall k :: WithRank(r, ScriptRank, k) == WithRank(items, ScriptRank, k)
  {
    assert RanksBelow3(items, ScriptRank) by {
      forall i | 0 <= i < |items| ensures ScriptRank(items[i]) <= 2 {
      }
    }
    SortByRank(items, ScriptRank)
  }

  /** `_shinylive_common_dep_htmldep`: scripts are exactly the two script
      files, as module scripts, load-shinylive-sw.js first and
      run-python-blocks.js last; stylesheets are exactly shinylive.css;
      everything else, the scripts included, is a resource. Each list keeps
      the listing order within a kind; every item's path is the file joined
      to the assets directory. */
  function CommonDepHtmldep(assetsDir: string, version: string, files: seq<string>): (r: CommonDep)
    ensures r.name == "shinylive" && r.version == version
    ensures RankSorted(r.scripts, ScriptRank)
    ensures forall k :: WithRank(r.scripts, ScriptRank, k) == WithRank(Scripts(assetsDir, files), ScriptRank, k)
    ensures r.stylesheets == Stylesheets(assetsDir, files)
    ensures r.resources == Resources(assetsDir, files)
  {
    var b := Partition(assetsDir, files);
    CommonDep("shinylive", version, SortScripts(b.scripts), b.stylesheets, b.resources)
  }
}
