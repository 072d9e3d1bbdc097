/** `ShinyliveIoApp` and its two subclasses (shinylive/_url.py): an app
    bundle with a language, a mode, a header flag and the two paths used to
    name added files, together with the functions that build, change and
    serialise it. The object is a value here: a method that mutates the
    Python object returns the new value instead. The attributes live in
    `__slots__`, so one that an initialiser never assigns is `Unset`, and
    reading it raises AttributeError. Files on disk are a map from the path
    as given to the content `read_file` would produce. */
module IoApp {
  import opened Strings
  import opened Outcomes
  import opened Files
  import opened Paths
  import opened UrlShell
  import opened BundleJson

  datatype Slot<T> = Unset | Assigned(value: T)

  datatype App = App(
    bundle: seq<FileContent>,
    language: Language,
    mode: Slot<Mode>,
    header: Slot<bool>,
    appPath: Slot<Option<PurePath>>,
    rootDir: Slot<Option<PurePath>>)

  /** Reading a slot attribute. */
  function Read<T>(s: Slot<T>, attribute: string): (r: Result<T>)
    ensures r.Ok? <==> s.Assigned?
    ensures r.Ok? ==> r.value == s.value
    ensures r.Err? ==> r.error == AttributeError(attribute)
  {
    if s.Assigned? then Ok(s.value) else Err(AttributeError(attribute))
  }

  /** Files on disk, by the path given for them. */
  type Disk = map<string, DiskFile>

  // ---------------------------------------------------------------------
  // detect_app_language
  // ---------------------------------------------------------------------

  /** Some line of `text` starts with `prefix` (a `^` pattern under
      `re.MULTILINE`). */
  predicate SomeLineStarts(text: string, prefix: string) {
    exists line :: line in Split(text, '\n') && StartsWith(line, prefix)
  }

  predicate IsShinyImport(text: string) {
    SomeLineStarts(text, "import shiny") || SomeLineStarts(text, "from shiny")
  }

  /** `detect_app_language(app)`: code (text holding a newline) is Python
      when a line imports shiny, else R when a line loads it; a file name is
      judged by its suffix, ignoring case. Anything else is a ValueError. */
  function DetectAppLanguage(app: string): (r: Result<Language>)
    ensures r.Err? ==> r.error.ValueError?
    ensures '\n' in app ==>
              && (r == Ok(Py) <==> IsShinyImport(app))
              && (r == Ok(R) <==> !IsShinyImport(app) && SomeLineStarts(app, "library(shiny)"))
    ensures '\n' !in app ==>
              && (r == Ok(Py) <==> Lower(Suffix(Name(Parse(app)))) == ".py")
              && (r == Ok(R) <==> Lower(Suffix(Name(Parse(app)))) == ".r")
  {
    if '\n' in app then
      if IsShinyImport(app) then Ok(Py)
      else if SomeLineStarts(app, "library(shiny)") then Ok(R)
      else Err(ValueError("Could not automatically detect the language of the app."))
    else
      var suffix := Lower(Suffix(Name(Parse(app))));
      if suffix == ".py" then Ok(Py)
      else if suffix == ".r" then Ok(R)
      else Err(ValueError("Could not automatically detect the language of the app."))
  }

  /** Code whose first line is a shiny import is Python, whatever follows. */
  lemma DetectPythonCode(first: string, rest: string)
    requires '\n' !in first && (StartsWith(first, "from shiny") || StartsWith(first, "import shiny"))
    ensures DetectAppLanguage(first + "\n" + rest) == Ok(Py)
  {
    var app := first + "\n" + rest;
    assert app == first + ['\n'] + rest;
    SplitAppend(first, rest, '\n');
    assert first in Split(app, '\n');
    assert app[|first|] == '\n';
  }

  /** Code whose lines load shiny but never import it is R. */
  lemma DetectRCode(first: string, rest: string)
    requires '\n' !in first && StartsWith(first, "library(shiny)")
    requires !IsShinyImport(first + "\n" + rest)
    ensures DetectAppLanguage(first + "\n" + rest) == Ok(R)
  {
    var app := first + "\n" + rest;
    assert app == first + ['\n'] + rest;
    SplitAppend(first, rest, '\n');
    assert first in Split(app, '\n');
    assert app[|first|] == '\n';
  }

  // ---------------------------------------------------------------------
  // The base initialiser, the properties and their setters
  // ---------------------------------------------------------------------

  /** `ShinyliveIoApp(bundle, language)`: without a language it is detected
      from the first file's content (IndexError on an empty bundle); a given
      language must be "py" or "r". Mode starts as editor, header as on. */
  function NewApp(bundle: seq<FileContent>, language: Option<string>): (r: Result<App>)
    ensures language.Some? ==> (r.Ok? <==> ParseLanguage(language.value).Some?)
    ensures language.None? && |bundle| == 0 ==> r == Err(IndexError)
    ensures language.None? && |bundle| > 0 ==> (r.Ok? <==> DetectAppLanguage(bundle[0].content).Ok?)
    ensures r.Ok? ==> r.value == App(bundle, r.value.language, Assigned(EditorMode), Assigned(true), Assigned(None), Assigned(None))
  {
    var lang :- if language.None? then
                  if |bundle| == 0 then Err(IndexError) else DetectAppLanguage(bundle[0].content)
                else if ParseLanguage(language.value).Some? then Ok(ParseLanguage(language.value).value)
                else Err(ValueError("Invalid language, must be either 'py' or 'r'."));
    Ok(App(bundle, lang, Assigned(EditorMode), Assigned(true), Assigned(None), Assigned(None)))
  }

  /** The outcome of a setter: the object afterwards and the exception, if
      one was raised. */
  datatype Step = Step(app: App, raised: Option<Error>)

  /** The `mode` setter: only "editor" and "app" are accepted; a rejected
      value raises ValueError and leaves the object as it was. */
  function SetMode(app: App, value: string): (r: Step)
    ensures r.raised.Some? <==> ParseMode(value).None?
    ensures r.raised.Some? ==> r.raised.value.ValueError? && r.app == app
    ensures r.raised.None? ==> Read(r.app.mode, "_mode") == Ok(ParseMode(value).value)
                               && r.app == app.(mode := r.app.mode)
  {
    match ParseMode(value)
    case None => Step(app, Some(ValueError("Invalid mode, must be either 'editor' or 'app'.")))
    case Some(m) => Step(app.(mode := Assigned(m)), None)
  }

  /** The `header` setter: only a bool is accepted (a Python value is a JSON
      value here). */
  function SetHeader(app: App, value: Json): (r: Step)
    ensures r.raised.Some? <==> !value.JBool?
    ensures r.raised.Some? ==> r.raised.value.ValueError? && r.app == app
    ensures r.raised.None? ==> Read(r.app.header, "_header") == Ok(value.b)
                               && r.app == app.(header := r.app.header)
  {
    if value.JBool? then Step(app.(header := Assigned(value.b)), None)
    else Step(app, Some(ValueError("Invalid header value, must be a boolean.")))
  }

  /** Setting the mode twice is setting it once, with the last value. */
  lemma SetModeLastWins(app: App, a: string, b: string)
    requires ParseMode(a).Some? && ParseMode(b).Some?
    ensures SetMode(SetMode(app, a).app, b) == SetMode(app, b)
  {
  }

  // ---------------------------------------------------------------------
  // url and url_decode
  // ---------------------------------------------------------------------

  /** `url(mode, header)`: an absent or empty mode falls back to the
      object's mode and an absent header to its header (reading unset slots
      raises AttributeError); an invalid mode is a ValueError. `compress`
      stands for LZString over `json.dumps` of the bundle. */
  function Url(app: App, mode: Option<string>, header: Option<bool>, compress: seq<FileContent> -> string): (r: Result<string>)
    ensures (mode.None? || mode.value == "") && app.mode.Unset? ==> r == Err(AttributeError("_mode"))
    ensures mode.Some? && mode.value != "" && header.Some? ==> (r.Ok? <==> ParseMode(mode.value).Some?)
    ensures (mode.None? || mode.value == "") && app.mode.Assigned? && header.None? && app.header.Unset? ==>
              r == Err(AttributeError("_header"))
    ensures mode.Some? && mode.value != "" && header.None? && app.header.Unset? ==> r == Err(AttributeError("_header"))
    ensures r.Ok? <==> && (if mode.Some? && mode.value != "" then ParseMode(mode.value).Some? else app.mode.Assigned?)
                       && (header.Some? || app.header.Assigned?)
    ensures r.Ok? ==> r.value == UrlOf(app.language,
                                       if mode.Some? && mode.value != "" then ParseMode(mode.value).value else app.mode.value,
                                       if header.Some? then header.value else app.header.value,
                                       compress(app.bundle))
  {
    var m := if mode.Some? && mode.value != "" then mode.value
             else if app.mode.Assigned? then ModeText(app.mode.value)
             else "";
    if (mode.None? || mode.value == "") && app.mode.Unset? then Err(AttributeError("_mode"))
    else if header.None? && app.header.Unset? then Err(AttributeError("_header"))
    else
      var h := if header.Some? then header.value else app.header.value;
      match ParseMode(m)
      case None => Err(ValueError("Invalid mode, must be either 'editor' or 'app'."))
      case Some(md) => Ok(UrlOf(app.language, md, h, compress(app.bundle)))
  }

  /** `url_decode(url)`: `decode` stands for LZString decompression followed
      by `json.loads` (None where either raises; the source turns that into
      ValueError). */
  function UrlDecode(url: string, decode: string -> Option<Json>): (r: Result<App>)
    ensures r.Err? ==> r.error.ValueError?
    ensures r.Ok? ==> DecodeShell(url).Ok? && decode(DecodeShell(url).value.payload).Some?
    ensures r.Ok? ==> && r.value.appPath == Assigned(None) && r.value.rootDir == Assigned(None)
                      && DecodeBundle(decode(DecodeShell(url).value.payload).value) == Ok(r.value.bundle)
  {
    var shell :- DecodeShell(url);
    match decode(shell.payload)
    case None => Err(ValueError("Could not parse and decode the shinylive URL code payload."))
    case Some(j) =>
      var bundle :- DecodeBundle(j);
      Ok(App(bundle, shell.language, Assigned(shell.mode), Assigned(shell.header), Assigned(None), Assigned(None)))
  }

  function NormalizedBundle(bundle: seq<FileContent>): (r: seq<FileContent>)
    ensures |r| == |bundle|
    ensures forall i :: 0 <= i < |bundle| ==> r[i] == Normalized(bundle[i])
  {
    seq(|bundle|, i requires 0 <= i < |bundle| => Normalized(bundle[i]))
  }

  /** Decoding the URL of an app gives the app back: same language and mode,
      the bundle with `text` types dropped, the header in app mode (always
      on in editor mode), provided the codec is a faithful pair and writes
      only URI-safe characters. */
  lemma UrlRoundTrip(app: App, compress: seq<FileContent> -> string, decode: string -> Option<Json>)
    requires app.mode.Assigned? && app.header.Assigned?
    requires UriSafe(compress(app.bundle))
    requires decode(compress(app.bundle)) == Some(BundleToJson(app.bundle))
    ensures Url(app, None, None, compress).Ok?
    ensures UrlDecode(Url(app, None, None, compress).value, decode) ==
            Ok(App(NormalizedBundle(app.bundle), app.language, app.mode,
                   Assigned(if app.mode.value == AppMode then app.header.value else true),
                   Assigned(None), Assigned(None)))
  {
    var m, h := app.mode.value, app.header.value;
    var payload := compress(app.bundle);
    assert ParseMode(ModeText(m)) == Some(m);
    var u := UrlOf(app.language, m, h, payload);
    assert Url(app, None, None, compress) == Ok(u);
    ShellRoundTrip(app.language, m, h, payload);
    BundleRoundTrip(app.bundle);
  }

  // ---------------------------------------------------------------------
  // chunk_contents and chunk
  // ---------------------------------------------------------------------

  /** The lines `chunk_contents` writes for one file. */
  function FileLines(f: FileContent): (r: seq<string>)
    ensures |r| == (if f.fileType == Some(Binary) then 4 else 3)
    ensures r[0] == "## file: " + f.name && r[|r| - 2] == f.content && r[|r| - 1] == ""
    ensures |r| == 4 ==> r[1] == "## type: binary"
  {
    ["## file: " + f.name] + (if f.fileType == Some(Binary) then ["## type: binary"] else []) + [f.content, ""]
  }

  function ChunkLines(bundle: seq<FileContent>): (r: seq<string>)
  {
    if |bundle| == 0 then [] else FileLines(bundle[0]) + ChunkLines(bundle[1..])
  }

  function CountBinary(bundle: seq<FileContent>): nat {
    if |bundle| == 0 then 0 else (if bundle[0].fileType == Some(Binary) then 1 else 0) + CountBinary(bundle[1..])
  }

  /** `chunk_contents()`: the files' lines joined with newlines. */
  function ChunkContents(bundle: seq<FileContent>): string {
    Join(ChunkLines(bundle), "\n")
  }

  /** Three lines per file, plus the type line of each binary file. */
  lemma {:induction false} ChunkLineCount(bundle: seq<FileContent>)
    ensures |ChunkLines(bundle)| == 3 * |bundle| + CountBinary(bundle)
    decreases |bundle|
  {
    if |bundle| > 0 {
      ChunkLineCount(bundle[1..]);
    }
  }

  lemma {:induction false} ChunkLinesAppend(a: seq<FileContent>, b: seq<FileContent>)
    ensures ChunkLines(a + b) == ChunkLines(a) + ChunkLines(b)
    decreases |a|
  {
    if |a| == 0 {
      assert a + b == b;
    } else {
      assert (a + b)[1..] == a[1..] + b;
      ChunkLinesAppend(a[1..], b);
    }
  }

  /** The chunk of two bundles is the two chunks joined by a newline, so
      files appear in bundle order, each block on its own. */
  lemma ChunkContentsAppend(a: seq<FileContent>, b: seq<FileContent>)
    requires |a| > 0 && |b| > 0
    ensures ChunkContents(a + b) == ChunkContents(a) + "\n" + ChunkContents(b)
  {
    ChunkLinesAppend(a, b);
    ChunkLineCount(a);
    ChunkLineCount(b);
    JoinAppend(ChunkLines(a), ChunkLines(b), "\n");
  }

  /** A single text file: its name line, its content and a final empty
      line. */
  lemma ChunkOfTextFile(f: FileContent)
    requires f.fileType != Some(Binary)
    ensures ChunkContents([f]) == "## file: " + f.name + "\n" + f.content + "\n"
  {
    assert ChunkLines([f]) == FileLines(f);
    var lines := FileLines(f);
    assert lines == ["## file: " + f.name, f.content, ""];
    assert Join(lines, "\n") == lines[0] + "\n" + Join(lines[1..], "\n");
    assert Join(lines[1..], "\n") == f.content + "\n" + Join(lines[2..], "\n");
  }

  /** The Quarto option values `chunk` accepts. */
  predicate ValidLayout(layout: string) {
    layout == "horizontal" || layout == "vertical"
  }

  predicate ValidComponents(components: seq<string>) {
    forall i :: 0 <= i < |components| ==> components[i] == "editor" || components[i] == "viewer"
  }

  /** The fence line that opens the chunk for the app's language. */
  function ChunkFence(language: Language): string {
    "```{shinylive-" + (if language == Py then "python" else "r") + "}"
  }

  /** The option lines of the chunk header, in the template's order. */
  function ChunkOptionLines(components: seq<string>, layout: string, viewerHeight: int): (r: seq<string>)
    ensures |r| == 4
  {
    ["#| standalone: true", "#| components: [" + Join(components, ", ") + "]", "#| layout: " + layout,
     "#| viewerHeight: " + IntToString(viewerHeight)]
  }

  lemma NewlineFree(a: string, b: string, c: string)
    requires '\n' !in a && '\n' !in b && '\n' !in c
    ensures '\n' !in a + b + c
  {
  }

  /** `chunk(components, layout, viewer_height)`: the layout is checked
      first, then the components; the chunk is the Quarto code block: the
      fence, the four option lines, a blank line, the chunk contents and the
      closing fence. */
  function Chunk(app: App, components: seq<string>, layout: string, viewerHeight: int): (r: Result<string>)
    ensures r.Ok? <==> ValidLayout(layout) && ValidComponents(components)
    ensures r.Err? ==> r.error.ValueError?
    ensures r.Ok? ==> && StartsWith(r.value, "\n" + ChunkFence(app.language) + "\n")
                      && EndsWith(r.value, "\n\n" + ChunkContents(app.bundle) + "\n```\n")
    ensures r.Ok? ==> r.value == ("\n" + ChunkFence(app.language) + "\n")
                                 + Join(ChunkOptionLines(components, layout, viewerHeight), "\n")
                                 + ("\n\n" + ChunkContents(app.bundle) + "\n```\n")
  {
    if !ValidLayout(layout) then Err(ValueError("Invalid layout, must be either 'horizontal' or 'vertical'."))
    else if !ValidComponents(components) then Err(ValueError("Invalid components, must be a list or tuple of 'editor' or 'viewer'."))
    else
      var head := "\n" + ChunkFence(app.language) + "\n";
      var options := Join(ChunkOptionLines(components, layout, viewerHeight), "\n");
      var tail := "\n\n" + ChunkContents(app.bundle) + "\n```\n";
      StartsWithConcat(head, options);
      StartsWithExtend(head + options, head, tail);
      EndsWithConcat(head + options, tail);
      Ok(head + options + tail)
  }

  /** With valid arguments the options text between the fence and the blank
      line reads back, line by line, as the four options: each option sits
      on a line of its own and holds exactly the argument it shows. */
  lemma ChunkOptionsLines(components: seq<string>, layout: string, viewerHeight: int)
    requires ValidLayout(layout) && ValidComponents(components)
    ensures Split(Join(ChunkOptionLines(components, layout, viewerHeight), "\n"), '\n') ==
            ["#| standalone: true", "#| components: [" + Join(components, ", ") + "]", "#| layout: " + layout,
             "#| viewerHeight: " + IntToString(viewerHeight)]
  {
    var lines := ChunkOptionLines(components, layout, viewerHeight);
    JoinAvoids(components, ", ", '\n');
    NewlineFree("#| components: [", Join(components, ", "), "]");
    NewlineFree("#| layout: ", layout, "");
    NewlineFree("#| viewerHeight: ", IntToString(viewerHeight), "");
    assert layout + "" == layout && IntToString(viewerHeight) + "" == IntToString(viewerHeight);
    assert "\n" == ['\n'];
    SplitJoin(lines, '\n');
  }

  // ---------------------------------------------------------------------
  // Adding files
  // ---------------------------------------------------------------------

  /** `add_file_contents(dict)`: one text entry without a `type` key per
      item, in the dict's order. */
  function AddFileContents(app: App, contents: seq<(string, string)>): (r: App)
    ensures r == app.(bundle := r.bundle)
    ensures |r.bundle| == |app.bundle| + |contents| && r.bundle[..|app.bundle|] == app.bundle
    ensures forall i :: 0 <= i < |contents| ==>
              r.bundle[|app.bundle| + i] == FileContent(contents[i].0, contents[i].1, None)
  {
    app.(bundle := app.bundle + seq(|contents|, i requires 0 <= i < |contents| => FileContent(contents[i].0, contents[i].1, None)))
  }

  /** Adding in two steps is adding the concatenation. */
  lemma AddFileContentsConcat(app: App, a: seq<(string, string)>, b: seq<(string, string)>)
    ensures AddFileContents(AddFileContents(app, a), b) == AddFileContents(app, a + b)
  {
    var l := AddFileContents(AddFileContents(app, a), b);
    var r := AddFileContents(app, a + b);
    assert l.bundle == r.bundle;
  }

  /** `str(PurePosixPath)` of the path taken relative to a parent. */
  function Parent(p: PurePath): (q: PurePath)
    ensures IsRelativeTo(p, q)
  {
    if |p.parts| == 0 then p else PurePath(p.root, p.parts[..|p.parts| - 1])
  }

  /** The name `read_file` gives a file: relative to the root directory when
      there is one (ValueError when the file is not under it), otherwise the
      bare file name. */
  function FileName(file: string, rootDir: Option<PurePath>): (r: Result<string>)
    ensures rootDir.None? ==> r == Ok(Name(Parse(file)))
    ensures rootDir.Some? ==> (r.Ok? <==> IsRelativeTo(Parse(file), rootDir.value))
    ensures r.Err? ==> r.error.ValueError?
  {
    match rootDir
    case None => Ok(Name(Parse(file)))
    case Some(root) =>
      match RelativeTo(Parse(file), root)
      case None => Err(ValueError("file is not in the subpath of the root directory"))
      case Some(rel) => Ok(Str(rel))
  }

  /** `read_file(file, root_dir)`: FileNotFoundError for a missing file;
      the entry always carries its type. */
  function ReadFile(disk: Disk, file: string, rootDir: Option<PurePath>): (r: Result<FileContent>)
    ensures r.Ok? <==> file in disk && FileName(file, rootDir).Ok?
    ensures file !in disk ==> r == Err(FileNotFoundError(file))
    ensures r.Ok? ==> r.value == FileContent(FileName(file, rootDir).value, disk[file].content, Some(disk[file].fileType))
  {
    if file !in disk then Err(FileNotFoundError(file))
    else
      var name :- FileName(file, rootDir);
      Ok(FileContent(name, disk[file].content, Some(disk[file].fileType)))
  }

  /** `add_file(file, name)`: reads the root directory slot, reads the file
      and appends it, renamed when a name is given. */
  function AddFile(app: App, disk: Disk, file: string, name: Option<string>): (r: Result<App>)
    ensures app.rootDir.Unset? ==> r == Err(AttributeError("_root_dir"))
    ensures r.Ok? ==> && r.value == app.(bundle := r.value.bundle)
                      && |r.value.bundle| == |app.bundle| + 1 && r.value.bundle[..|app.bundle|] == app.bundle
                      && file in disk && r.value.bundle[|app.bundle|].content == disk[file].content
                      && (name.Some? ==> r.value.bundle[|app.bundle|].name == name.value)
  {
    var root :- Read(app.rootDir, "_root_dir");
    var f :- ReadFile(disk, file, root);
    var f' := if name.Some? then f.(name := name.value) else f;
    Ok(app.(bundle := app.bundle + [f']))
  }

  /** `add_files(files)`: None adds nothing; otherwise each file in turn,
      skipping the main app file itself (compared as paths). Reading the
      app path slot happens once per file. */
  function AddFiles(app: App, disk: Disk, files: Option<seq<string>>): (r: Result<App>)
    ensures files.None? || |files.value| == 0 ==> r == Ok(app)
    ensures files.Some? && |files.value| > 0 && app.appPath.Unset? ==> r == Err(AttributeError("_app_path"))
    ensures r.Ok? ==> r.value == app.(bundle := r.value.bundle) && |app.bundle| <= |r.value.bundle|
                      && r.value.bundle[..|app.bundle|] == app.bundle
  {
    if files.None? then Ok(app) else AddEach(app, disk, files.value)
  }

  function AddEach(app: App, disk: Disk, files: seq<string>): (r: Result<App>)
    ensures |files| == 0 ==> r == Ok(app)
    ensures |files| > 0 && app.appPath.Unset? ==> r == Err(AttributeError("_app_path"))
    ensures r.Ok? ==> r.value == app.(bundle := r.value.bundle) && |app.bundle| <= |r.value.bundle|
                      && r.value.bundle[..|app.bundle|] == app.bundle
    decreases |files|
  {
    if |files| == 0 then Ok(app)
    else
      var appPath :- Read(app.appPath, "_app_path");
      var next :- if appPath.Some? && Parse(files[0]) == appPath.value then Ok(app)
                  else AddFile(app, disk, files[0], None);
      var r := AddEach(next, disk, files[1..]);
      assert r.Ok? ==> r.value.bundle[..|app.bundle|] == r.value.bundle[..|next.bundle|][..|app.bundle|];
      r
  }

  /** `app + file`: a copy with the file added; the original is a value and
      stays as it was. */
  function Plus(app: App, disk: Disk, other: string): (r: Result<App>)
    ensures r.Ok? ==> && |r.value.bundle| == |app.bundle| + 1 && r.value.bundle[..|app.bundle|] == app.bundle
                      && r.value == app.(bundle := r.value.bundle)
  {
    AddFile(app, disk, other, None)
  }

  // ---------------------------------------------------------------------
  // Removing a file
  // ---------------------------------------------------------------------

  function Names(bundle: seq<FileContent>): (r: seq<string>)
    ensures |r| == |bundle| && forall i :: 0 <= i < |bundle| ==> r[i] == bundle[i].name
  {
    seq(|bundle|, i requires 0 <= i < |bundle| => bundle[i].name)
  }

  /** `Path.absolute()` against the working directory `cwd`. */
  function Absolute(p: PurePath, cwd: PurePath): PurePath {
    if IsAbsolute(p) then p else JoinPath(cwd, p)
  }

  function RemoveAt(bundle: seq<FileContent>, i: nat): (r: seq<FileContent>)
    requires i < |bundle|
    ensures |r| == |bundle| - 1
    ensures r[..i] == bundle[..i] && r[i..] == bundle[i + 1..]
  {
    bundle[..i] + bundle[i + 1..]
  }

  /** `app - file` as written: the first entry named `other`; then, when the
      app has a root directory, the first entry named by `other` taken
      relative to it, which takes precedence. `relative_to` raises
      ValueError when `other` is not under the root directory, even when
      `other` itself names an entry. No match is a ValueError. */
  function MinusAsWritten(app: App, other: string, cwd: PurePath): (r: Result<App>)
    ensures r.Ok? ==> exists i :: 0 <= i < |app.bundle| && r.value.bundle == RemoveAt(app.bundle, i)
    ensures r.Ok? ==> r.value == app.(bundle := r.value.bundle)
  {
    var names := Names(app.bundle);
    var index: Option<nat> := if other in names then Some(FirstIndex(names, other)) else None;
    var root :- Read(app.rootDir, "_root_dir");
    var index' :- if root.None? then Ok(index)
                  else
                    match RelativeTo(Absolute(Parse(other), cwd), Absolute(root.value, cwd))
                    case None => Err(ValueError("path is not in the subpath of the root directory"))
                    case Some(rel) => Ok(if Str(rel) in names then Some(FirstIndex(names, Str(rel))) else index);
    match index'
    case None => Err(ValueError("File not found in app bundle."))
    case Some(i) => Ok(app.(bundle := RemoveAt(app.bundle, i)))
  }

  /** `app - file` as evidently intended: a name that is not under the root
      directory simply has no root-relative form. Exactly one entry is
      removed, the first one named `other` unless its root-relative form
      names one; no match is a ValueError. */
  function Minus(app: App, other: string, cwd: PurePath): (r: Result<App>)
    ensures app.rootDir.Assigned? && app.rootDir.value.None? ==>
              (r.Ok? <==> other in Names(app.bundle))
    ensures app.rootDir.Assigned? && other in Names(app.bundle) ==> r.Ok?
    ensures r.Ok? ==> exists i :: 0 <= i < |app.bundle| && r.value.bundle == RemoveAt(app.bundle, i)
    ensures r.Ok? ==> r.value == app.(bundle := r.value.bundle)
    ensures r.Err? ==> r.error.ValueError? || r.error == AttributeError("_root_dir")
  {
    var names := Names(app.bundle);
    var index: Option<nat> := if other in names then Some(FirstIndex(names, other)) else None;
    var root :- Read(app.rootDir, "_root_dir");
    var index' := if root.None? then index
                  else
                    match RelativeTo(Absolute(Parse(other), cwd), Absolute(root.value, cwd))
                    case None => index
                    case Some(rel) => if Str(rel) in names then Some(FirstIndex(names, Str(rel))) else index;
    match index'
    case None => Err(ValueError("File not found in app bundle."))
    case Some(i) => Ok(app.(bundle := RemoveAt(app.bundle, i)))
  }

  /** As written, a bundle name that is not under the root directory
      (taken against the working directory) cannot be removed, although the
      corrected removal finds it. */
  lemma MinusAsWrittenRejectsBundleName(app: App, other: string, cwd: PurePath, root: PurePath)
    requires app.rootDir == Assigned(Some(root)) && other in Names(app.bundle)
    requires !IsRelativeTo(Absolute(Parse(other), cwd), Absolute(root, cwd))
    ensures MinusAsWritten(app, other, cwd).Err? && MinusAsWritten(app, other, cwd).error.ValueError?
    ensures Minus(app, other, cwd) == Ok(app.(bundle := RemoveAt(app.bundle, FirstIndex(Names(app.bundle), other))))
  {
  }

  lemma ParsePlainName(s: string)
    requires ValidPart(s)
    ensures Parse(s) == PurePath("", [s])
  {
    assert !StartsWith(s, "/") by { assert s[0] != '/'; }
    assert IndexOf(s, '/') == |s|;
    assert Split(s, '/') == [s];
    assert InitialSlashes(s) == 0;
    RepeatSlash();
    assert [s][1..] == [];
    assert KeepParts([s]) == [s];
  }

  /** The concrete case: the app of `myapp/app.py` with `myapp/data.csv`
      bundles the names `app.py` and `data.csv`; from `/home`, removing
      `data.csv` compares `/home/data.csv` with `/home/myapp`. */
  lemma MinusDataFile(app: App, other: string)
    requires other == "data.csv" && app.rootDir == Assigned(Some(PurePath("", ["myapp"])))
    requires |app.bundle| == 2 && app.bundle[1].name == other
    ensures MinusAsWritten(app, other, PurePath("/", ["home"])).Err?
    ensures Minus(app, other, PurePath("/", ["home"])).Ok?
  {
    assert ValidPart(other) by { assert other[4] == '.'; }
    ParsePlainName(other);
    assert Names(app.bundle)[1] == other;
    assert other != "myapp" by { assert other[0] != "myapp"[0]; }
    MinusAsWrittenRejectsBundleName(app, other, PurePath("/", ["home"]), PurePath("", ["myapp"]));
  }

  /** Without a root directory, removing a name removes its first entry. */
  lemma MinusFirst(app: App, other: string, cwd: PurePath)
    requires app.rootDir == Assigned(None) && other in Names(app.bundle)
    ensures Minus(app, other, cwd) == Ok(app.(bundle := RemoveAt(app.bundle, FirstIndex(Names(app.bundle), other))))
  {
  }

  /** Removing a file that was just added gives the app back, when its name
      is new to the bundle. */
  lemma MinusUndoesPlus(app: App, disk: Disk, file: string, cwd: PurePath)
    requires app.rootDir == Assigned(None)
    requires Plus(app, disk, file).Ok?
    requires Plus(app, disk, file).value.bundle[|app.bundle|].name !in Names(app.bundle)
    ensures Minus(Plus(app, disk, file).value, Plus(app, disk, file).value.bundle[|app.bundle|].name, cwd) == Ok(app)
  {
    var added := Plus(app, disk, file).value;
    var name := added.bundle[|app.bundle|].name;
    var names := Names(added.bundle);
    assert names[..|app.bundle|] == Names(app.bundle);
    assert names[|app.bundle|] == name;
    var i := FirstIndex(names, name);
    assert forall j :: 0 <= j < |app.bundle| ==> names[j] != name by {
      forall j | 0 <= j < |app.bundle| ensures names[j] != name {
        assert names[j] == Names(app.bundle)[j];
      }
    }
    assert i == |app.bundle|;
    assert RemoveAt(added.bundle, i) == app.bundle;
  }

  // ---------------------------------------------------------------------
  // The two subclasses and url_encode
  // ---------------------------------------------------------------------

  function ResolveLanguage(code: string, language: Option<string>): (r: Result<Language>)
    ensures language.None? ==> r == DetectAppLanguage(code)
    ensures language.Some? ==> (r.Ok? <==> ParseLanguage(language.value).Some?)
    ensures language.Some? && r.Ok? ==> LanguageText(r.value) == language.value
    ensures r.Err? ==> r.error.ValueError?
  {
    if language.None? then DetectAppLanguage(code)
    else if ParseLanguage(language.value).Some? then Ok(ParseLanguage(language.value).value)
    else Err(ValueError("Language is not supported. Please specify one of 'py' or 'r'."))
  }

  function AppFileName(lang: Language): string {
    if lang == Py then "app.py" else "app.R"
  }

  /** The main-file naming rule of `ShinyliveIoAppLocal`: `ui.R` and
      `server.R` keep their names, anything else becomes `app.py` or `app.R`
      after the language. */
  function MainFileName(name: string, lang: Language): (r: string)
    ensures (name == "ui.R" || name == "server.R") ==> r == name
    ensures !(name == "ui.R" || name == "server.R") ==> r == AppFileName(lang)
  {
    if name == "ui.R" || name == "server.R" then name else AppFileName(lang)
  }

  /** `ShinyliveIoAppLocal(app, files, language)` as written. The
      initialiser does not call the base one: the mode and header slots stay
      unassigned. */
  function LocalAppAsWritten(app: string, files: Option<seq<string>>, language: Option<string>, disk: Disk): (r: Result<App>)
    ensures app !in disk && ResolveLanguage(app, language).Ok? ==> r == Err(FileNotFoundError(app))
    ensures r.Ok? ==> app in disk
    ensures r.Ok? ==> && |r.value.bundle| >= 1
                      && r.value.bundle[0].name == MainFileName(Name(Parse(app)), r.value.language)
                      && r.value.bundle[0].content == disk[app].content
                      && r.value.appPath == Assigned(Some(Parse(app)))
                      && r.value.rootDir == Assigned(Some(Parent(Parse(app))))
                      && r.value.mode.Unset? && r.value.header.Unset?
  {
    var lang :- ResolveLanguage(app, language);
    var a :- LocalMain(app, lang, disk);
    assert app in disk;
    var main := a.bundle[0];
    assert main.content == disk[app].content;
    var r := AddFiles(a, disk, files);
    assert r.Ok? ==> r.value.bundle[0] == r.value.bundle[..1][0] == main;
    r
  }

  /** The part of `ShinyliveIoAppLocal` before `add_files`: the main file,
      read relative to its own directory and renamed. */
  function LocalMain(app: string, lang: Language, disk: Disk): (r: Result<App>)
    ensures r.Ok? <==> app in disk
    ensures app !in disk ==> r == Err(FileNotFoundError(app))
    ensures r.Ok? ==> && r.value.bundle == [FileContent(MainFileName(Name(Parse(app)), lang), disk[app].content, Some(disk[app].fileType))]
                      && r.value.language == lang
                      && r.value.appPath == Assigned(Some(Parse(app)))
                      && r.value.rootDir == Assigned(Some(Parent(Parse(app))))
                      && r.value.mode.Unset? && r.value.header.Unset?
  {
    var appPath := Parse(app);
    var root := Parent(appPath);
    MainFileIsName(appPath);
    var main :- ReadFile(disk, app, Some(root));
    Ok(App([main.(name := MainFileName(main.name, lang))], lang, Unset, Unset, Assigned(Some(appPath)), Assigned(Some(root))))
  }

  /** A local app as written cannot produce its URL until a mode is set:
      `url()` reads the unassigned mode slot. */
  lemma LocalUrlAsWrittenFails(app: string, files: Option<seq<string>>, language: Option<string>, disk: Disk,
                               compress: seq<FileContent> -> string)
    requires LocalAppAsWritten(app, files, language, disk).Ok?
    ensures Url(LocalAppAsWritten(app, files, language, disk).value, None, None, compress) == Err(AttributeError("_mode"))
  {
  }

  /** `ShinyliveIoAppLocal` as evidently intended: as written, with the
      base initialiser's editor mode and header. */
  function LocalApp(app: string, files: Option<seq<string>>, language: Option<string>, disk: Disk): (r: Result<App>)
    ensures r.Ok? <==> LocalAppAsWritten(app, files, language, disk).Ok?
    ensures r.Ok? ==> r.value == LocalAppAsWritten(app, files, language, disk).value.(mode := Assigned(EditorMode), header := Assigned(true))
  {
    var a :- LocalAppAsWritten(app, files, language, disk);
    Ok(a.(mode := Assigned(EditorMode), header := Assigned(true)))
  }

  /** The corrected local app yields an editor-mode URL without arguments. */
  lemma LocalUrlReady(app: string, files: Option<seq<string>>, language: Option<string>, disk: Disk,
                      compress: seq<FileContent> -> string)
    requires LocalApp(app, files, language, disk).Ok?
    ensures Url(LocalApp(app, files, language, disk).value, None, None, compress).Ok?
  {
    assert ParseMode(ModeText(EditorMode)) == Some(EditorMode);
  }

  /** A path relative to its parent is its last component. */
  lemma MainFileIsName(p: PurePath)
    requires |p.parts| > 0 ==> ValidPart(p.parts[|p.parts| - 1])
    ensures RelativeTo(p, Parent(p)).Some?
    ensures |p.parts| > 0 ==> Str(RelativeTo(p, Parent(p)).value) == Name(p)
  {
    if |p.parts| > 0 {
      var rel := RelativeTo(p, Parent(p)).value;
      assert rel.parts == [p.parts[|p.parts| - 1]];
    }
  }

  /** `ShinyliveIoAppText(app_code, files, language, root_dir)` as written:
      the initialiser assigns only the bundle, the language and, when given,
      the root directory. `add_files` then reads the unassigned app path
      slot as soon as there is one file to add. */
  function TextAppAsWritten(appCode: string, files: Option<seq<string>>, language: Option<string>,
                            rootDir: Option<string>, disk: Disk): (r: Result<App>)
    ensures ResolveLanguage(appCode, language).Ok? && files.Some? && |files.value| > 0 ==>
              r == Err(AttributeError("_app_path"))
  {
    var lang :- ResolveLanguage(appCode, language);
    var root := if rootDir.Some? then Assigned(Some(Parse(rootDir.value))) else Unset;
    var a := AddFileContents(App([], lang, Unset, Unset, Unset, root), [(AppFileName(lang), appCode)]);
    AddFiles(a, disk, files)
  }

  /** The failure: Python code with one supporting file. */
  lemma TextAppAsWrittenFails(appCode: string, disk: Disk)
    requires DetectAppLanguage(appCode) == Ok(Py)
    ensures TextAppAsWritten(appCode, Some(["data.csv"]), None, None, disk) == Err(AttributeError("_app_path"))
  {
  }

  /** `ShinyliveIoAppText` as evidently intended (the documentation of
      `root_dir` promises flattened names when it is absent): every slot
      assigned, no app path, the root directory if given. */
  function TextApp(appCode: string, files: Option<seq<string>>, language: Option<string>,
                   rootDir: Option<string>, disk: Disk): (r: Result<App>)
    ensures r.Ok? ==> && |r.value.bundle| >= 1
                      && r.value.bundle[0] == FileContent(AppFileName(r.value.language), appCode, None)
                      && r.value.mode == Assigned(EditorMode) && r.value.header == Assigned(true)
                      && r.value.appPath == Assigned(None)
  {
    var lang := ResolveLanguage(appCode, language);
    if lang.Err? then Err(lang.error)
    else
      var a := TextMain(appCode, lang.value, if rootDir.Some? then Some(Parse(rootDir.value)) else None);
      var r := AddFiles(a, disk, files);
      assert r.Ok? ==> r.value.bundle[0] == r.value.bundle[..1][0];
      r
  }

  function TextMain(appCode: string, lang: Language, root: Option<PurePath>): (r: App)
    ensures r == App([FileContent(AppFileName(lang), appCode, None)], lang, Assigned(EditorMode), Assigned(true), Assigned(None), Assigned(root))
  {
    AddFileContents(App([], lang, Assigned(EditorMode), Assigned(true), Assigned(None), Assigned(root)),
                    [(AppFileName(lang), appCode)])
  }

  /** With the slots assigned, a supporting file is added under its bare
      name when there is no root directory. */
  lemma TextAppAddsFlattened(appCode: string, file: string, disk: Disk)
    requires DetectAppLanguage(appCode) == Ok(Py)
    requires file in disk
    ensures TextApp(appCode, Some([file]), None, None, disk).Ok?
    ensures TextApp(appCode, Some([file]), None, None, disk).value.bundle ==
            [FileContent("app.py", appCode, None), FileContent(Name(Parse(file)), disk[file].content, Some(disk[file].fileType))]
  {
    var a := TextMain(appCode, Py, None);
    AddOneUnrooted(a, disk, file);
  }

  /** Without a root directory or an app path, one file is appended under
      its bare name. */
  lemma AddOneUnrooted(a: App, disk: Disk, file: string)
    requires a.rootDir == Assigned(None) && a.appPath == Assigned(None) && file in disk
    ensures AddFiles(a, disk, Some([file])) ==
            Ok(a.(bundle := a.bundle + [FileContent(Name(Parse(file)), disk[file].content, Some(disk[file].fileType))]))
  {
    var b := AddFile(a, disk, file, None);
    assert b.Ok?;
    assert AddEach(a, disk, [file]) == AddEach(b.value, disk, []);
  }

  /** The last steps of `url_encode`: the mode setter, then the header
      setter, on the app built. */
  function SetModeAndHeader(built: App, mode: string, header: bool): (r: Result<App>)
    ensures r.Ok? <==> ParseMode(mode).Some?
    ensures r.Err? ==> r.error.ValueError?
    ensures r.Ok? ==> r.value == built.(mode := Assigned(ParseMode(mode).value), header := Assigned(header))
  {
    var withMode := SetMode(built, mode);
    if withMode.raised.Some? then Err(withMode.raised.value)
    else Ok(SetHeader(withMode.app, JBool(header)).app)
  }

  /** The language `url_encode` passes on: the given one, checked, or the
      detected one. */
  function EncodeLanguage(app: string, language: Option<string>): (r: Result<Language>)
    ensures language.Some? ==> (r.Ok? <==> ParseLanguage(language.value).Some?)
    ensures language.None? ==> r == DetectAppLanguage(app)
    ensures r.Err? ==> r.error.ValueError?
  {
    if language.Some? && ParseLanguage(language.value).None? then
      Err(ValueError("Invalid language, must be either 'py' or 'r'."))
    else if language.Some? then Ok(ParseLanguage(language.value).value)
    else DetectAppLanguage(app)
  }

  /** `url_encode(app, files, language, mode, header)` as written: code
      (text holding a newline) builds a text app, anything else a local app
      from the file of that name; then the mode and the header are set. */
  function UrlEncodeAsWritten(app: string, files: Option<seq<string>>, language: Option<string>,
                              mode: string, header: bool, disk: Disk): (r: Result<App>)
    ensures EncodeLanguage(app, language).Ok? && '\n' in app && files.Some? && |files.value| > 0 ==>
              r == Err(AttributeError("_app_path"))
  {
    var lang :- EncodeLanguage(app, language);
    var built :- if '\n' in app then TextAppAsWritten(app, files, Some(LanguageText(lang)), None, disk)
                 else LocalAppAsWritten(app, files, Some(LanguageText(lang)), disk);
    SetModeAndHeader(built, mode, header)
  }

  /** `url_encode` with the corrected initialisers. */
  function UrlEncode(app: string, files: Option<seq<string>>, language: Option<string>,
                     mode: string, header: bool, disk: Disk): (r: Result<App>)
    ensures language.Some? && ParseLanguage(language.value).None? ==> r.Err? && r.error.ValueError?
    ensures ParseMode(mode).None? ==> r.Err?
    ensures r.Ok? ==> r.value.mode == Assigned(ParseMode(mode).value) && r.value.header == Assigned(header)
  {
    var lang := EncodeLanguage(app, language);
    if lang.Err? then Err(lang.error)
    else
      var built := if '\n' in app then TextApp(app, files, Some(LanguageText(lang.value)), None, disk)
                   else LocalApp(app, files, Some(LanguageText(lang.value)), disk);
      if built.Err? then Err(built.error) else SetModeAndHeader(built.value, mode, header)
  }

  /** Code with a supporting file: the corrected encoder succeeds, the
      encoder as written raises AttributeError. */
  lemma UrlEncodeCodeWithFile(appCode: string, file: string, disk: Disk)
    requires '\n' in appCode && DetectAppLanguage(appCode) == Ok(Py)
    requires file in disk
    ensures UrlEncodeAsWritten(appCode, Some([file]), None, "editor", true, disk) == Err(AttributeError("_app_path"))
    ensures UrlEncode(appCode, Some([file]), None, "editor", true, disk).Ok?
  {
    assert LanguageText(Py) == "py" && ParseLanguage("py") == Some(Py);
    TextAppAddsFlattened(appCode, file, disk);
    assert ParseMode("editor") == Some(EditorMode);
  }

  /** Whatever `url_encode` returns can produce its URL without arguments,
      and decoding that URL gives the bundle back. */
  lemma UrlEncodeRoundTrip(app: string, files: Option<seq<string>>, language: Option<string>, mode: string,
                           header: bool, disk: Disk, compress: seq<FileContent> -> string, decode: string -> Option<Json>)
    requires UrlEncode(app, files, language, mode, header, disk).Ok?
    requires UriSafe(compress(UrlEncode(app, files, language, mode, header, disk).value.bundle))
    requires decode(compress(UrlEncode(app, files, language, mode, header, disk).value.bundle))
             == Some(BundleToJson(UrlEncode(app, files, language, mode, header, disk).value.bundle))
    ensures Url(UrlEncode(app, files, language, mode, header, disk).value, None, None, compress).Ok?
    ensures UrlDecode(Url(UrlEncode(app, files, language, mode, header, disk).value, None, None, compress).value, decode).Ok?
    ensures UrlDecode(Url(UrlEncode(app, files, language, mode, header, disk).value, None, None, compress).value, decode).value.bundle
            == NormalizedBundle(UrlEncode(app, files, language, mode, header, disk).value.bundle)
  {
    UrlRoundTrip(UrlEncode(app, files, language, mode, header, disk).value, compress, decode);
  }
}
