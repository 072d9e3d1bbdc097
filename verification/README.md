# shinylive core, modelled in Dafny

This project models the Python side of shinylive: how it turns a Shiny app
directory into a deployable static site, and how it packs an app into a
shinylive.io URL. The Dafny files are pure functions and small methods over
immutable data. File systems are maps from paths to contents. The Pyodide lock
file is a map from keys to package records, plus the order of its entries.

- **Dependency resolution** (`shinylive/_deps.py`).
  - `Lock` holds the lock file and the two lookup tables built from it: name to
    key, and module to key. In both tables a later entry overwrites an earlier one.
  - `Closure` holds the worklist algorithm `_find_recursive_deps`. It is proved
    to return exactly the least set of names that contains the resolvable seeds
    and is closed under `depends`.
  - `Deps` covers import scanning, `requirements.txt` handling, and the
    conversion to package records.
  - `Requirements` covers the line parser for `requirements.txt`.
  - `HtmlDep` and `RankSort` cover the common HTML dependency: scripts,
    stylesheets and resources, and the stable script ordering.
- **App reading and export** (`shinylive/_app_json.py`, `shinylive/_export.py`,
  `shinylive/_utils.py`).
  - `AppJson` covers the directory walk with its exclusions, the `app.py`-first
    ordering, and the output names. It also covers the inverse of the
    subdirectory path and the template writes.
  - `Export` composes these into `export()`:
    - it checks for `app.py`;
    - it checks that the subdirectory is relative;
    - it copies the base files without overwriting;
    - it chooses the Pyodide packages (all of them, or the closure found from
      the app);
    - it writes the `app.json` pages.
  - `CopyPolicy` covers the copy function with its overwrite and warning policy.
  - `Paths` covers the path helpers: `is_relative_to`, `path_length`, and the
    safe tar extraction check.
- **URLs** (`shinylive/_url.py`).
  - `UrlShell` covers the URL layout: host, language, mode page, the `h=0`
    flag and the `code=` fragment.
  - `BundleJson` covers the JSON form of the file bundle.
  - `IoApp` covers the `ShinyliveIoApp` classes:
    - construction and the mode and header setters;
    - adding and removing files (`+` and `-`);
    - the Quarto chunk text of `chunk()` and `chunk_contents()` (`str()` of
      an app is its URL);
    - `url_encode` and `url_decode`.
- **Assets cache** (`shinylive/_assets.py`).
  - `Assets` covers the release URL and the versioned cache directory names.
  - It also covers removing versions, cleaning up all versions but the current
    one, the "ensure installed" step, and installing a local build by copy or link.

Side effects become parameters or explicit data:
- reading and listing files (`read`, `tree`, cache listings);
- Python's parser (`parse`, which stands for `dedent`, `ast.parse` and `ast.walk` together);
- the LZ-string and JSON codecs (`compress`/`decompress`, `encode`/`decode`, with
  round-trip requirements stated where a property needs them);
- the template substitution.

Python's unspecified orders are modelled either as free choices or as a fixed
order standing in for the unspecified one:
- turning the seed set into a list (`Deps.SetToSeq`) is a free choice of
  duplicate-free listing;
- the new names that `set.difference` adds to the worklist come in a fixed
  order standing in for the unspecified set order: their first appearance in
  `depends` (`Closure.NewNames`). The result does not depend on this choice,
  because the closure is unique (`Closure.LeastClosureUnique`);
- the `os.walk` directory order is the listing order.

## Model

| member | source | states |
|---|---|---|
| Lock.NameIndex | shinylive/_deps.py:464-481 | Every name in the name table maps to the key of an entry whose lower-cased name is that name. |
| Lock.NameIndexLast | shinylive/_deps.py:476-479 | When several entries share a lower-cased name, the table holds the key of the last of them in lock order. |
| Lock.NameIndexComplete | shinylive/_deps.py:476-479 | The lower-cased name of the entry at any position of the lock order is in the table. |
| Lock.NameIndexCovers | shinylive/_deps.py:476-479 | In a well-formed lock, every entry's lower-cased name is in the table. |
| Lock.DepNameToDepKey | shinylive/_deps.py:440-461 | A base package name is its own key. Any other name has a key exactly when some entry's name matches it case-insensitively, and the key is then that of the last such entry. |
| Lock.DepNameCaseInsensitive | shinylive/_deps.py:452-457 | Two non-base names that agree after lower-casing have the same key. |
| Lock.ModuleIndex | shinylive/_deps.py:537-551 | Every module in the module table maps to the key of an entry whose `imports` lists it. |
| Lock.ModuleIndexLast | shinylive/_deps.py:546-549 | When several entries provide a module, the table holds the last of them. |
| Lock.ModuleIndexComplete | shinylive/_deps.py:546-549 | Every module provided by the entry at any position of the lock order is in the table. |
| Lock.ModuleIndexCovers | shinylive/_deps.py:546-549 | In a well-formed lock, every module of every entry is in the table. |
| Lock.ModuleToPackageKey | shinylive/_deps.py:524-534 | A module has a package key exactly when some entry provides it, and the key is then that of the last entry providing it. |
| Closure.LockGraph | shinylive/_deps.py:418-434 | The dependency graph the loop follows: a name resolves when its key is in the lock, and its successors are its entry's `depends`. |
| Closure.LockGraphStep | shinylive/_deps.py:418-431 | A name is kept exactly when its key exists and is a lock key, and its successors are then the `depends` of that key's entry. |
| Closure.RemoveFirst | shinylive/_deps.py:429-430 | `list.remove` shortens the list by exactly one. |
| Closure.RemoveFirstAt | shinylive/_deps.py:429-430 | Removing a value whose first occurrence is at index i deletes index i and keeps the rest in order. |
| Closure.NewNames | shinylive/_deps.py:432-434 | The appended names are exactly the dependencies not yet in the list, each once. |
| Closure.FindRecursiveDeps | shinylive/_deps.py:401-437 | The result is the set of resolvable seeds and their transitive resolvable dependencies: the least set that holds them and is closed under `depends`. Distinct seeds give a list without duplicates. |
| Closure.Walk | shinylive/_deps.py:415-435 | The same as FindRecursiveDeps on any graph whose dependencies lie in a finite universe. The loop terminates even though it appends while it walks. |
| Closure.RecursiveDepsIsLeastClosure | shinylive/_deps.py:401-437 | A finished worklist, seeds first and every later name a dependency of an earlier one, is the least closure of the seeds. |
| Closure.LeastClosureUnique | shinylive/_deps.py:405-408 | The least closure is unique, so any iteration order of the seed set gives the same set of names. |
| Closure.ClosureIdempotent | shinylive/_deps.py:405-408 | Resolving a closure again gives the same closure. |
| Closure.CycleClosure | shinylive/_deps.py:432-434 | Two packages that depend on each other resolve, from one of them, to both. |
| Deps.FirstSegment | shinylive/_deps.py:596-604 | The top-level package is the prefix of the name up to its first dot, and it holds no dot. |
| Deps.WalkModulesNamed | shinylive/_deps.py:595-604 | The walk collects a module exactly when some import node names it by its first segment. `from . import x` names nothing. |
| Deps.FindImports | shinylive/_deps.py:565-605 | The result is strictly sorted and holds exactly the modules the walk collects. A source that does not parse gives the empty list. |
| Deps.RelativeImportOnly | shinylive/_deps.py:600-603 | A source made only of relative `from . import x` imports imports nothing. |
| Deps.PyModules | shinylive/_deps.py:488-493 | A module is found exactly when some file whose name ends in ".py" imports it. |
| Deps.FindImportAppContents | shinylive/_deps.py:484-501 | A key is in the result exactly when it is the package key of some imported module. Every result is a lock key. |
| Deps.FindRequirementsAppContents | shinylive/_deps.py:504-521 | A name is in the result exactly when some file named exactly "requirements.txt" lists it. |
| Deps.DepNamesToPkgInfos | shinylive/_deps.py:96-109 | The conversion fails with a KeyError exactly when some name has a key that is not in the lock, such as a base name missing from it. Otherwise there is at most one record per name. |
| Deps.PkgInfosOfResolved | shinylive/_deps.py:96-109 | On names that all resolve, the records are one per name, each the lock entry of that name. |
| Deps.BaseNameResolves | shinylive/_deps.py:418-431 | A base package name is kept exactly when it is itself a lock key. |
| Deps.SetToSeq | shinylive/_deps.py:413 | `list(set)` holds every member of the set exactly once. |
| Deps.FindPackageDeps | shinylive/_deps.py:355-372 | The records are, one per name and in closure order, those of the least closure of the imported modules' keys together with the required names, each a record of the lock file. |
| Deps.BasePackageDeps | shinylive/_deps.py:387-395 | The records are, one per name, those of the least closure of the base package names, each a record of the lock file. |
| Requirements.CutAfterName | shinylive/_deps.py:643 | A line that holds a name character is cut right after its first run of name characters. A line without one is unchanged. |
| Requirements.RequirementOf | shinylive/_deps.py:633-647 | A line lists nothing exactly when, stripped, it is empty, a comment or an http(s) URL. A name it lists holds no underscore. |
| Requirements.FindPackagesInRequirements | shinylive/_deps.py:608-649 | Every line lists at most one name, and no listed name holds an underscore. |
| Requirements.RequirementsPerLine | shinylive/_deps.py:631-647 | The names of a text are the first line's name, if any, followed by the names of the rest: no reordering, no deduplication. |
| Requirements.NameWithConstraint | shinylive/_deps.py:643-645 | A stripped line made of a name and a version constraint lists the name, with "_" turned into "-" and case kept. |
| Requirements.NotUrl | shinylive/_deps.py:637-639 | A line that starts with a name is never taken for an http(s) URL. |
| Requirements.UnderscoreToHyphen | shinylive/_deps.py:645 | "typing_extensions" becomes "typing-extensions", and a hyphenated name is unchanged. |
| Requirements.IndentedLine | shinylive/_deps.py:633-647 | A name and constraint indented by four spaces list the name, hyphenated. |
| Requirements.IndentationOnly | shinylive/_deps.py:634-636 | A line of spaces lists nothing. |
| Requirements.SingleName | tests/test_deps.py:19-21 | A text made of one name lists exactly that name, hyphenated and with its case kept. |
| Requirements.IndentedUnderscoreLine | tests/test_deps.py:7-17 | The indented line "typing_extensions" lists "typing-extensions". |
| Requirements.IndentedConstrainedLine | tests/test_deps.py:7-17 | The indented line "jsonschema-specifications (<1.0)" lists "jsonschema-specifications". |
| Requirements.IndentedCommentLine | tests/test_deps.py:7-17 | An indented comment lists nothing. |
| Requirements.RequirementsTextExample | tests/test_deps.py:7-17 | The whole example text, with its leading newline, comment and trailing indentation, lists "typing-extensions" then "jsonschema-specifications". |
| Requirements.FourLines | shinylive/_deps.py:631-647 | A text of a blank line, two named lines, a skipped line and a nameless tail lists the two names in line order. |
| HtmlDep.Pick | shinylive/_deps.py:200-228 | The picked items are exactly the listed files that pass the test: each item's file is listed and passes, every listed file that passes has its item, and each item points to its file under the assets directory, at most one item per listed entry. |
| HtmlDep.Partition | shinylive/_deps.py:200-228 | The loop's three lists are, in listing order, the scripts, the stylesheets and every file that is not a stylesheet. |
| HtmlDep.StylesheetsAndResources | shinylive/_deps.py:213-228 | The stylesheets and the resources together account for every file exactly once. |
| HtmlDep.ScriptIsResource | shinylive/_deps.py:200-228 | A script file is never a stylesheet, so it is also listed as a resource. |
| HtmlDep.ScriptRank | shinylive/_deps.py:232-243 | load-shinylive-sw.js ranks 0 and run-python-blocks.js ranks 2. Every other script ranks in between. |
| HtmlDep.SortScripts | shinylive/_deps.py:245 | The sorted scripts are ordered by rank, and each rank holds exactly the input's items of that rank in input order. |
| HtmlDep.CommonDepHtmldep | shinylive/_deps.py:179-253 | The dependency is named "shinylive" at the given version. Its scripts are the stable rank sort of the script files, and its stylesheets and resources are the reference lists. |
| RankSort.SortByRank | shinylive/_deps.py:245 | A stable sort by a rank of at most 2: ordered by rank, each rank keeping its items in input order. |
| RankSort.StableSortUnique | shinylive/_deps.py:245 | Any rank-ordered sequence that keeps each rank's items in input order is the stable sort, so the sort is fully determined. |
| Sorting.Sort | shinylive/_app_json.py:56 | `list.sort()` on strings gives a sorted permutation of its input. |
| Sorting.SortedSet | shinylive/_deps.py:605 | `sorted(set(...))` is strictly sorted and has the same members as its input. |
| UrlShell.ParseLanguage | shinylive/_url.py:62-69 | Exactly "py" and "r" are languages, and a parsed language prints back as the same text. |
| UrlShell.ParseMode | shinylive/_url.py:103-105 | Exactly "editor" and "app" are modes, and a parsed mode prints back as the same text. |
| UrlShell.HeaderFlag | shinylive/_url.py:176 | The "h=0&" flag is present exactly when the header is hidden in app mode. |
| UrlShell.UrlOf | shinylive/_url.py:173-178 | The URL starts with "https://shinylive.io/" and ends with "code=" followed by the payload. |
| UrlShell.CodeSegment | shinylive/_url.py:561 | A code segment exists exactly when the URL contains "code=". |
| UrlShell.DecodeShell | shinylive/_url.py:554-566 | Without "code=" the URL is a ValueError. Otherwise it is R when it contains "shinylive.io/r/", app mode when it contains the language followed by "/app/", and the header is shown unless it contains "h=0". |
| UrlShell.ShellRoundTrip | shinylive/_url.py:554-616 | Decoding a URL built from a language, mode, header and URI-safe payload gives back all four. In editor mode the header comes back as shown. |
| UrlShell.LanguageRoundTrip | shinylive/_url.py:555 | A built URL contains "shinylive.io/r/" exactly when its language is R. |
| UrlShell.SegmentRoundTrip | shinylive/_url.py:561 | The code segment of a built URL is its payload. |
| UrlShell.ModeRoundTrip | shinylive/_url.py:615 | A built URL contains the language followed by "/app/" exactly when its mode is app. |
| UrlShell.HeaderRoundTrip | shinylive/_url.py:616 | A built URL contains "h=0" exactly when the header is hidden in app mode. |
| BundleJson.EntryJson | shinylive/_url.py:682-687 | An entry serialises to an object with name and content, and with a type field exactly when the file has a type. |
| BundleJson.BundleToJson | shinylive/_url.py:682-687 | The bundle serialises to an array with one object per file, in order. |
| BundleJson.DecodeEntry | shinylive/_url.py:576-611 | An entry decodes exactly when it is an object whose fields are all strings, with name and content and a type of "text" or "binary". Anything else is a ValueError. The decoded file is binary exactly when the type says so. |
| BundleJson.DecodeEntries | shinylive/_url.py:576-611 | The entries decode exactly when every one is valid, one file per entry in order. |
| BundleJson.DecodeBundle | shinylive/_url.py:568-613 | A bundle decodes exactly when it is an array of valid entries. Anything else is a ValueError. |
| BundleJson.Normalized | shinylive/_url.py:592-601 | Decoding keeps name and content, keeps a binary type and drops any other type. |
| BundleJson.EntryRoundTrip | shinylive/_url.py:592-611 | A serialised file decodes to its normalised form. |
| BundleJson.BundleRoundTrip | shinylive/_url.py:568-613 | A serialised bundle decodes to the normalised form of each of its files. |
| BundleJson.ExtraNonStringRejected | shinylive/_url.py:607-610 | An entry with an extra field whose value is not a string is rejected. |
| IoApp.Read | shinylive/_url.py:54 | Reading a slot succeeds exactly when it is assigned, and an unassigned slot is an AttributeError naming it. |
| IoApp.DetectAppLanguage | shinylive/_url.py:621-640 | Code with a newline is Python exactly when a line imports shiny, and otherwise R exactly when a line loads it. A file name is Python or R by its suffix, ignoring case. Anything else is a ValueError. |
| IoApp.DetectPythonCode | shinylive/_url.py:625-627 | Code whose first line starts with "from shiny" or "import shiny" is Python. |
| IoApp.DetectRCode | shinylive/_url.py:628-629 | Code whose first line starts with "library(shiny)", with no Python shiny import, is R. |
| IoApp.NewApp | shinylive/_url.py:56-74 | A given language must parse. Without one, an empty bundle is an IndexError and otherwise the first file decides. A new app is in editor mode with the header shown and no app path or root. |
| IoApp.SetMode | shinylive/_url.py:88-105 | Exactly "editor" and "app" are accepted. Anything else is a ValueError that leaves the app unchanged. Success changes only the mode. |
| IoApp.SetHeader | shinylive/_url.py:120-137 | Exactly booleans are accepted, and success changes only the header. |
| IoApp.SetModeLastWins | shinylive/_url.py:103-105 | Setting the mode twice is setting it to the second value. |
| IoApp.Url | shinylive/_url.py:142-178 | With no mode given and none assigned, `url()` is an AttributeError on `_mode`; with no header given and none assigned, it is an AttributeError on `_header`. It succeeds exactly when the given mode parses (or, with none given, a mode is assigned) and a header is given or assigned. The URL is built from the app's language, the given mode or else the current one, the given header or else the current one, and the compressed bundle. |
| IoApp.UrlDecode | shinylive/_url.py:539-618 | A decoded app comes from a URL whose payload decodes, its bundle is that payload decoded, and it has no app path or root. Every failure is a ValueError. |
| IoApp.UrlRoundTrip | shinylive/_url.py:539-618 | When the codecs invert each other, decoding an app's URL gives back its language, mode and header (shown in editor mode) and its normalised bundle. |
| IoApp.FileLines | shinylive/_url.py:199-206 | A file's chunk lines are "## file: " and its name, a "## type: binary" line for a binary file, its content and a blank line. |
| IoApp.ChunkLineCount | shinylive/_url.py:198-208 | A bundle has three chunk lines per file plus one per binary file. |
| IoApp.ChunkContentsAppend | shinylive/_url.py:198-208 | The chunk contents of two non-empty bundles are their own contents joined by a newline. |
| IoApp.ChunkOfTextFile | shinylive/_url.py:198-208 | A one-file text bundle gives its header line, its content and a final newline. |
| IoApp.Chunk | shinylive/_url.py:210-254 | The chunk fails with a ValueError exactly when the layout or a component is invalid. Otherwise it is the language fence, the four option lines of the code template (standalone, the components joined by ", ", the layout, the viewer height), a blank line, the chunk contents and the closing fence. |
| IoApp.ChunkOptionsLines | shinylive/_url.py:27-36 | With valid arguments the options text splits into exactly four lines: `#| standalone: true`, the bracketed components, the layout and the viewer height, each holding the argument it shows. |
| IoApp.AddFileContents | shinylive/_url.py:331-346 | The given contents are appended as untyped files after the existing ones, and nothing else changes. |
| IoApp.AddFileContentsConcat | shinylive/_url.py:340-346 | Adding contents in two steps is adding them all at once. |
| IoApp.FileName | shinylive/_url.py:673 | Without a root a file is named by its base name. With a root it must lie under it, and is otherwise a ValueError. |
| IoApp.ReadFile | shinylive/_url.py:657-679 | A file reads exactly when it exists and has a name, with its content and type from disk. A missing file is a FileNotFoundError. |
| IoApp.AddFile | shinylive/_url.py:348-367 | An unassigned root is an AttributeError. A success appends exactly one entry with the file's content, under the given name if any, and changes nothing else. |
| IoApp.AddFiles | shinylive/_url.py:302-329 | No files changes nothing. Files given to an app with an unassigned app path are an AttributeError. A success only appends to the bundle. |
| IoApp.AddEach | shinylive/_url.py:326-329 | The same per-file loop: no files changes nothing, an unassigned app path is an AttributeError, and a success only appends. |
| IoApp.Plus | shinylive/_url.py:369-372 | `+` succeeds by appending exactly one entry, and nothing else differs. |
| IoApp.MinusAsWritten | shinylive/_url.py:374-394 | As written, a success removes exactly one entry and changes nothing else. |
| IoApp.Minus | shinylive/_url.py:374-394 | Corrected: without a root, `-` succeeds exactly when a file has the name, and with a root any bundle name succeeds. A success removes exactly one entry, and a failure is a ValueError or an unassigned root. |
| IoApp.MinusAsWrittenRejectsBundleName | shinylive/_url.py:382-387 | As written, removing a bundle name that is not under the root once made absolute is a ValueError. The corrected `-` removes its first entry. |
| IoApp.MinusDataFile | shinylive/_url.py:382-387 | Concretely, removing "data.csv" from an app rooted at "myapp" while the working directory is /home fails as written and succeeds corrected. |
| IoApp.MinusFirst | shinylive/_url.py:375-380 | Without a root, `-` removes the first entry that has the name. |
| IoApp.MinusUndoesPlus | shinylive/_url.py:369-394 | Removing, by its name, a file that `+` just added under a fresh name restores the app. |
| IoApp.ResolveLanguage | shinylive/_url.py:422-427 | A given language must parse and is kept. Otherwise the language is detected, and every failure is a ValueError. |
| IoApp.MainFileName | shinylive/_url.py:436-438 | "ui.R" and "server.R" keep their names, and any other main file becomes "app.py" or "app.R" after the language. |
| IoApp.LocalAppAsWritten | shinylive/_url.py:416-441 | As written, a missing main file is a FileNotFoundError. A local app holds the main file under its main-file name, with its path and parent as app path and root, and leaves mode and header unassigned. |
| IoApp.LocalMain | shinylive/_url.py:429-440 | Reading the main file succeeds exactly when it exists, giving a one-file bundle with the file's content and type. |
| IoApp.LocalUrlAsWrittenFails | shinylive/_url.py:416-441 | As written, every local app's `url()` is an AttributeError on `_mode`. |
| IoApp.LocalApp | shinylive/_url.py:416-441 | Corrected: the local app succeeds exactly when the as-written one does, and is the same app in editor mode with the header shown. |
| IoApp.LocalUrlReady | shinylive/_url.py:416-441 | Every corrected local app produces its URL. |
| IoApp.MainFileIsName | shinylive/_url.py:432-434 | A path relative to its parent is its base name. |
| IoApp.TextAppAsWritten | shinylive/_url.py:466-487 | As written, a text app given at least one extra file is an AttributeError on `_app_path`. |
| IoApp.TextAppAsWrittenFails | shinylive/_url.py:466-487 | As written, Python code with the extra file "data.csv" fails with that AttributeError. |
| IoApp.TextApp | shinylive/_url.py:466-487 | Corrected: a text app's first entry is the code, untyped, under "app.py" or "app.R". It is in editor mode with the header shown and no app path. |
| IoApp.TextMain | shinylive/_url.py:480-486 | The main app holds just the code as "app.py" or "app.R", with every slot assigned. |
| IoApp.TextAppAddsFlattened | shinylive/_url.py:466-487 | With no root, an extra file is added after the code under its base name, with its content and type. |
| IoApp.SetModeAndHeader | shinylive/_url.py:533-534 | Setting a valid mode and a header gives the app with exactly those. An invalid mode is a ValueError. |
| IoApp.EncodeLanguage | shinylive/_url.py:523-526 | A given language must parse. Otherwise it is detected from the code or file name. |
| IoApp.UrlEncodeAsWritten | shinylive/_url.py:490-536 | As written, encoding code that has extra files is an AttributeError on `_app_path`. |
| IoApp.UrlEncode | shinylive/_url.py:490-536 | Corrected: an invalid language is a ValueError and an invalid mode an error. A success has exactly the requested mode and header. |
| IoApp.UrlEncodeCodeWithFile | shinylive/_url.py:528-531 | Python code with one extra file fails as written and succeeds corrected. |
| IoApp.UrlEncodeRoundTrip | shinylive/_url.py:490-536 | When the codecs invert each other, the encoded app's URL decodes, to its normalised bundle. |
| Paths.RelativeTo | shinylive/_utils.py:12-23 | `relative_to` succeeds exactly when the base is a prefix of the path. The remainder is relative and joins back onto the base to give the path. |
| Paths.IsRelativeToReflexive | shinylive/_utils.py:12-23 | Every path is relative to itself. |
| Paths.IsRelativeToTransitive | shinylive/_utils.py:12-23 | Being relative to another path is transitive. |
| Paths.RelativeToJoin | shinylive/_utils.py:12-23 | A relative path joined onto a base is relative to it, with that path as the remainder. |
| Paths.PathLength | shinylive/_utils.py:26-45 | An absolute path is a ValueError. Otherwise the length is the number of components of the normalised path. |
| Paths.PathLengthPlain | shinylive/_utils.py:26-30 | A path of n plain names has length n. |
| Paths.NormPathIdempotent | shinylive/_utils.py:37 | Normalising a normalised path changes nothing. |
| Paths.RelativeStr | shinylive/_export.py:30-36 | A relative path never prints as an absolute string, so the subdirectory `export` accepts passes the check of `path_length`. |
| Paths.TarSafeExtract | shinylive/_utils.py:109-120 | Extraction is refused with a RuntimeError exactly when some member resolves outside the destination. Otherwise every member lands inside it. |
| Paths.PlainMemberInside | shinylive/_utils.py:112-118 | A relative member with no ".." lands inside the destination. |
| Paths.ParentMemberOutside | shinylive/_utils.py:116-118 | The member "../x" escapes the destination. |
| CopyPolicy.CopyFile | shinylive/_utils.py:86-103 | A copy succeeds exactly when the source exists and it is not overwriting a file with itself. It warns exactly when the destination exists with other content, and without overwriting leaves an existing destination alone. |
| CopyPolicy.CopyResult | shinylive/_utils.py:86-103 | After a copy, the destination holds the source's content unless it existed and overwriting was off. |
| CopyPolicy.CopyIdempotent | shinylive/_utils.py:86-103 | Copying again changes nothing and, with overwriting on, warns about nothing. |
| CopyPolicy.SameContentSilent | shinylive/_utils.py:87-101 | Copying identical content without overwriting is a silent no-op. |
| CopyPolicy.SourcesPresentCanRun | shinylive/_utils.py:76-105 | Copies without overwriting can all run when every source exists beforehand. |
| CopyPolicy.CopyAll | shinylive/_export.py:59-66 | A run succeeds exactly when every copy's source exists by the time its turn comes (it was there or an earlier copy wrote it) and, when overwriting, no copy is onto itself; a failure names a missing source. A successful run keeps every existing path, creates every destination, and leaves every file no copy writes unchanged. Without overwriting, it changes no existing file. |
| CopyPolicy.CopyAllContents | shinylive/_utils.py:86-103 | A copy whose source no copy writes leaves the source's original content at its destination when it is the last copy there (overwriting on) or the first copy to a destination that did not exist (overwriting off). |
| CopyPolicy.CopyAllWarned | shinylive/_utils.py:87-94 | Every warning of a run names the destination of a copy that found that file already present. |
| CopyPolicy.CopyAllWarns | shinylive/_utils.py:87-94 | A copy whose source and destination no earlier copy wrote, onto an existing destination with different content, is among the run's warnings. |
| CopyPolicy.CopyAllOnlyAdds | shinylive/_utils.py:99-101 | Without overwriting, every path after a run existed before or is some pair's destination. |
| AppJson.Keep | shinylive/_app_json.py:51-55 | A name is kept exactly when it is not hidden, `__pycache__` or a venv directory. |
| AppJson.OrderFiles | shinylive/_app_json.py:54-61 | The files are a permutation of the sorted kept files, with "app.py" first when present and the rest sorted. |
| AppJson.OrderFilesUnique | shinylive/_app_json.py:54-61 | Any permutation of the kept files ordered that way is the result, so the order is fully determined. |
| AppJson.WalkTree | shinylive/_app_json.py:44-93 | Every file found lies in a directory below the walk's start, through kept directories only, outside the destination, and is itself kept. |
| AppJson.WalkDirs | shinylive/_app_json.py:44-52 | The subdirectory loop finds files only strictly below the current directory, with the same guarantees. |
| AppJson.DirsComplete | shinylive/_app_json.py:44-52 | The subdirectory loop, from any subdirectory on, misses no kept file reached through a later kept subdirectory outside the destination. |
| AppJson.WalkComplete | shinylive/_app_json.py:44-93 | The walk misses nothing: every kept file of the tree, reached through kept directories only, in a directory outside the destination, is collected with its directory. |
| AppJson.BelowDestination | shinylive/_app_json.py:47-49 | A directory under the destination has only subdirectories under it, so nothing there is read. |
| AppJson.AppPyFirst | shinylive/_app_json.py:58-61 | When the top directory has a kept "app.py", the first file read is that one. |
| AppJson.OutputName | shinylive/_app_json.py:64-68 | A file at the top keeps its own name. |
| AppJson.OutputNameNested | shinylive/_app_json.py:67-68 | A file in a subdirectory is named by the directory path, "/" and the file name. |
| AppJson.OutputNameSplits | shinylive/_app_json.py:64-68 | Splitting an output name on "/" gives back the directories and the file. |
| AppJson.ReadAppFiles | shinylive/_app_json.py:27-95 | One entry per file found, in walk order, each with its output name and the content and type read from disk. |
| AppJson.SubdirInverse | shinylive/_app_json.py:109-112 | An absolute subdirectory is a ValueError. Otherwise the inverse is one "../" per component of the normalised path. |
| AppJson.SubdirInversePlain | shinylive/_app_json.py:109-112 | A subdirectory of n plain names has n "../" as its inverse. |
| AppJson.Replacements | shinylive/_app_json.py:117-125 | The substitutions are the given ones plus the title (default "Shiny App"), the relative path and the "python" engine. The last two override the given ones. |
| AppJson.TemplateWrites | shinylive/_app_json.py:127-141 | Corrected: the writes succeed exactly when every template exists, and a missing one is a FileNotFoundError. There is one write per template at the same relative path, with `.html` files substituted with the given replacements and the others copied verbatim. |
| AppJson.TemplateMirrored | shinylive/_app_json.py:131 | A template's destination lies under the app's destination, at its own relative path. |
| AppJson.WriteAppJson | shinylive/_app_json.py:98-146 | Corrected: an absolute subdirectory is a ValueError, and otherwise a missing template is a FileNotFoundError. A success writes one page per template under the subdirectory, each `.html` one substituted with the replacements whose REL_PATH is one "../" per component of the subdirectory, then app.json holding the encoded files. |
| AppJson.TemplateWritesAsWritten | shinylive/_app_json.py:130-141 | As written, the loop gets through exactly when every template exists and none is an `.html` file. The writes are verbatim copies of the templates before the one that stops it. That template is either missing, giving a FileNotFoundError, or an `.html` file, giving the TypeError of the `data=` keyword. |
| AppJson.WriteAppJsonAsWritten | shinylive/_app_json.py:98-146 | As written, an absolute subdirectory is a ValueError before any write. Otherwise the verbatim copies before the first missing or `.html` template are made, and the run stops there with a FileNotFoundError or the TypeError. app.json is written only when no template stops the loop. |
| AppJson.HtmlTemplateFails | shinylive/_app_json.py:134-139 | As written, when every template exists and one of them is an `.html` file, the result is the TypeError. Only templates before that file are written, so app.json is not. |
| AppJson.AsWrittenAgreesWithoutHtml | shinylive/_app_json.py:130-146 | Without `.html` templates, the as-written and the corrected `write_app_json` succeed on the same inputs and write the same files, whatever the template parameters. |
| AppJson.ApplyWrites | shinylive/_app_json.py:130-146 | After the writes every written path exists, and every path no write targets keeps its content. No other path appears. |
| AppJson.ApplyWritesLast | shinylive/_app_json.py:130-146 | A written path holds the content of the last write to it. |
| Export.BasePairs | shinylive/_export.py:59-66 | Each base file is copied from the assets to the same relative path under the destination. |
| Export.PackagePairs | shinylive/_export.py:100-106 | Each package file is copied from the assets' Pyodide directory to the destination's. |
| Export.FullPackageFiles | shinylive/_export.py:80-87 | Full mode copies exactly the files of the Pyodide directory that are not base files. |
| Export.FileNames | shinylive/_export.py:92 | The package files are the records' file names, one per record in order. |
| Export.CheckSubdir | shinylive/_export.py:30-36 | An absolute subdirectory is a ValueError. No subdirectory means the top, and an accepted one is relative. |
| Export.DepPackageFiles | shinylive/_export.py:89-92 | Without full mode, the files are those of the base closure followed by those of the closure of the app's imports and requirements, each the file name of a lock-file record. |
| Export.CopyPackages | shinylive/_export.py:100-106 | Every package file ends up in the destination's Pyodide directory, and every existing file keeps its content. A failure is a FileNotFoundError, and the copies succeed when every package file exists in the assets' Pyodide directory. |
| Export.Export | shinylive/_export.py:12-116 | Corrected: a missing app.py or an absolute subdirectory is a ValueError, and a ValueError comes from nowhere else; every other failure is a FileNotFoundError. The export succeeds when app.py exists, the subdirectory is relative, and every base file, every package file it may copy and every template exists. A success reads the app by the directory walk and copies the full or closure package set. Every base file and every package file is present, and every file no page overwrites is unchanged. The pages are one per template under `destdir/subdir`, written from the template's original content with no user parameters, then app.json, which holds the encoded app files afterwards. |
| Export.ExportChecked | shinylive/_export.py:38-116 | Corrected: the same guarantees as Export once app.py and the subdirectory are checked. A failure is a FileNotFoundError, or the ValueError of an absolute subdirectory string; with that string relative and every source present the export succeeds. |
| Export.CopyStage | shinylive/_export.py:59-106 | The base copies, the reading of the app and the package copies. A failure is a FileNotFoundError, and the stage succeeds when every base file and every package file it may copy exists. A success reads the app by the walk, picks the full or closure package set, leaves every base and package file present, and changes no existing file. |
| Export.PackageStage | shinylive/_export.py:80-106 | The package files are the listing without the base files in full mode and the closure records' file names otherwise, so each is in the listing or named by the lock file. The copies succeed when each exists in the assets, and a failure is a FileNotFoundError. |
| Export.BaseSourcesRun | shinylive/_export.py:59-66 | The base copies succeed when every base file exists in the assets. |
| Export.PackageSourcesRun | shinylive/_export.py:100-106 | The package copies succeed when every package file exists in the assets' Pyodide directory. |
| Export.ExportAsWritten | shinylive/_export.py:12-116 | As written, a missing app.py or an absolute subdirectory is a ValueError. A success has no `.html` template, and its last page is app.json. A TypeError comes only with an `.html` template, and it leaves every base file and every package file copied. No existing file disappears. |
| Export.ExportCheckedAsWritten | shinylive/_export.py:38-116 | The same as-written guarantees as ExportAsWritten once app.py and the subdirectory are checked. |
| Export.BaseFilesCopied | shinylive/_export.py:59-66 | Every base file lands at its relative path under the destination and stays through the later steps. |
| Export.TemplatesFromOriginal | shinylive/_export.py:112-116 | A template that existed before the export is written from its original content, since no copy of the export overwrites a file. |
| Export.KeptThroughout | shinylive/_export.py:42-116 | A file that the copies keep and no page overwrites keeps its content through the whole export. |
| Export.NonFullOrder | shinylive/_export.py:90-92 | The file names of the base records and then the app records are the base names followed by the app names. |
| Assets.BundleUrl | shinylive/_assets.py:42-49 | The release URL starts with the releases prefix, ends in ".tar.gz", and carries the version twice. |
| Assets.VersionOfUrl | shinylive/_assets.py:42-49 | A version read back from a URL rebuilds exactly that URL. |
| Assets.BundleUrlRoundTrip | shinylive/_assets.py:42-49 | Reading back a version's URL gives the version. |
| Assets.BundleUrlInjective | shinylive/_assets.py:42-49 | Different versions have different URLs. |
| Assets.StripVersionPrefix | shinylive/_assets.py:169 | A name starting with "shinylive-" loses that one prefix, and any other name is unchanged. |
| Assets.StripTarget | shinylive/_assets.py:168-170 | Stripping a version's directory name gives the version. |
| Assets.TargetInjective | shinylive/_assets.py:202 | Different versions have different directory names. |
| Assets.AssetsDir | shinylive/_assets.py:62-67 | The assets directory starts with the cache directory and ends with "shinylive-" and the version. |
| Assets.AssetsDirVersion | shinylive/_assets.py:62-67 | For a version without "/", reading back the assets directory's version gives that version. |
| Assets.Installed | shinylive/_assets.py:218-227 | The installed names are exactly the listed names that do not start with ".". |
| Assets.VersionNames | shinylive/_assets.py:167-170 | Each installed name gives its version, position by position. |
| Assets.VersionNamesOfTarget | shinylive/_assets.py:167-170 | A listed version directory contributes its version at its own position. |
| Assets.VersionNamesOfPlain | shinylive/_assets.py:167-170 | A listed name without the prefix is its own version name. |
| Assets.RemoveOne | shinylive/_assets.py:208-215 | A version's directory or link is removed, and every other entry keeps its kind. |
| Assets.Remove | shinylive/_assets.py:199-215 | An entry is removed exactly when it is some given version's directory or link. Everything else is kept. |
| Assets.RemoveAssets | shinylive/_assets.py:178-215 | One version removes its own directory or link, and a list removes those of all its versions. |
| Assets.RemoveNothing | shinylive/_assets.py:204-206 | Removing the empty list of versions changes nothing. |
| Assets.RemoveFirstOf | shinylive/_assets.py:173 | `list.remove` takes out exactly one copy of the value. |
| Assets.CleanupAsWritten | shinylive/_assets.py:152-175 | As written, cleanup only removes entries. |
| Assets.RemoveFirstOfDuplicate | shinylive/_assets.py:171-173 | With two copies of the value, one copy remains after the removal. |
| Assets.CleanupAsWrittenRemovesCurrent | shinylive/_assets.py:167-175 | A listed entry named exactly like the current version makes the cleanup as written delete the current version's directory. |
| Assets.CleanupAsWrittenExample | shinylive/_assets.py:167-175 | Concretely, the cache {"0.5.0", "shinylive-0.5.0"} with current version 0.5.0 loses "shinylive-0.5.0". |
| Assets.Cleanup | shinylive/_assets.py:152-175 | Corrected: the current version's directory is kept, and every other listed version's directory or link is removed. An entry survives exactly when it is not the directory or link of an installed version other than the current one, and survivors keep their kind. |
| Assets.Ensure | shinylive/_assets.py:127-149 | The version's assets directory exists afterwards. It is added only when it was missing, and every other entry is untouched. |
| Assets.EnsureIdempotent | shinylive/_assets.py:140-149 | Ensuring twice is ensuring once. |
| Assets.InstallLocal | shinylive/_assets.py:81-124 | It succeeds exactly when the source is a directory and the target is not a plain file. A link from a non-directory is a RuntimeError that changes nothing. A copy from a missing source is a FileNotFoundError, and a copy from a non-directory is a NotADirectoryError, even when a plain file sits at the target, because `copytree` scans the source before creating the target. A plain-file target with a directory source is a FileExistsError. A success leaves a directory or link, and no other entry changes. |
| Assets.InstallReplaces | shinylive/_assets.py:95-100 | An existing directory or link at the target is replaced: installing over it is installing into its absence. |

## Left out

- File and directory I/O is replaced by maps and parameters. The file system
  holds files only, so directories are not modelled. File metadata copied by
  `shutil.copy2` is not modelled either.
- Export.Export and AppJson.WriteAppJson: the FileNotFoundError of the two
  plain `mkdir` calls is not modelled, because the model has no directories.
  `destdir.mkdir()` (shinylive/_export.py:38-40) raises it when the
  destination's parent does not exist, for example destination `out/site`
  with no `out`. `app_destdir.mkdir()` (shinylive/_app_json.py:114-115)
  raises it for a subdirectory of two or more components whose parent is
  missing under the destination, for example subdirectory `a/b` with no
  `destdir/a`. In those cases the model succeeds where the source fails.
  The `makedirs` and `mkdir(parents=True, exist_ok=True)` calls before each
  copy and page cannot fail this way.
- The Python parser (`textwrap.dedent`, `ast.parse`, `ast.walk`) is a parameter
  that yields the import nodes of a source.
- The LZ-string and JSON codecs are parameters. Round trips are stated under
  the hypothesis that they invert each other.
- The orders of Python sets and of `os.walk` subdirectories are unspecified.
  The model takes them as free choices (`Deps.SetToSeq`, listing order).
- Console output is not modelled: `print`, `verbose_print`, the
  shinylive.js warning in `_app_json.py`, and `print_shinylive_local_info`.
- `copy_file_and_substitute` is a `substitute` parameter. The string
  replacement itself is not modelled.
- AppJson.TemplateWrites, AppJson.WriteAppJson, Export.Export and
  Export.ExportChecked model the evident intent of the call of
  `copy_file_and_substitute`, not the code as written. As written
  (`shinylive/_app_json.py:135-139`), that call raises TypeError at the first
  `.html` template, and the as-written members under Findings model this.
- `errors="ignore"` in text decoding and encoding is not modelled.
- `view()`, `json()` and `write_files()` of the app classes are not modelled,
  and neither is `listdir_recursive`.
- The Windows branch of `path_length` (`_utils.py:42-43`) is left out. Paths
  are POSIX.
- Downloading and unpacking the release tarball is not modelled. `Assets.Ensure`
  records the assets directory as created.
- Assets.Ensure: checks and creates the assets directory in the cache only. A
  `destdir` other than the cache directory is not modelled.
- `repodata_json_file`, `pyodide_lock_json_file`, `codeblock_to_json_file`, the
  unreachable lines after `return` in `_assets.py:228-234`, and the `_main.py`
  command line are not modelled.
- The list of shinylive's common files is a parameter (`baseFiles`). It is not
  computed from the assets directory.
- Paths.Resolve and Paths.TarSafeExtract: no path component is taken to be a
  symbolic link. `Path.resolve()` (`shinylive/_utils.py:112-116`) follows
  links, so a member that escapes the destination through a link inside it is
  refused by the source but accepted by the model. The model has no links in
  its paths, which are only strings.
- Assets.InstallLocal: a source that is a symbolic link to a directory counts as
  a directory.
- Assets.Cleanup: only versions without "/" are considered, because a name with
  "/" cannot be a directory entry of the cache.
- The `_mode` and `_header` slots of the `Local` and `Text` app classes are
  modelled as the evident intent in `IoApp.LocalApp` and `IoApp.TextApp`. The
  as-written forms are under Findings.
- Integer widths: every count here is a Python `int`, so `nat` is exact.

## Findings

| source | as written | input that shows it | evidently intended | confidence | as-written member | corrected member |
|---|---|---|---|---|---|---|
| shinylive/_assets.py:171-173 | Cleanup takes only the first occurrence of the current version out of the list of version names, and removes the directory of every name left. | A cache holding a stray entry "0.5.0" beside "shinylive-0.5.0", with current version 0.5.0: both names give version "0.5.0", one copy remains, and "shinylive-0.5.0" is deleted. | The current version's directory is never removed. | not executed; high for the input shown | Assets.CleanupAsWritten, Assets.CleanupAsWrittenRemovesCurrent, Assets.CleanupAsWrittenExample | Assets.Cleanup |
| shinylive/_url.py:416-487 | The `Local` and `Text` initialisers do not call the base initialiser. They never assign `_mode` and `_header`, and `Text` never assigns `_app_path` (nor `_root_dir` when no root is given). | `url_encode` of text code with one extra file: `add_files` reads the unassigned `_app_path` and raises AttributeError. The `url()` of a local app raises AttributeError on `_mode`. | Every slot starts with its base default: editor mode, header shown, no app path, no root directory. | not executed; high | IoApp.LocalAppAsWritten, IoApp.LocalUrlAsWrittenFails, IoApp.TextAppAsWritten, IoApp.TextAppAsWrittenFails, IoApp.UrlEncodeAsWritten, IoApp.UrlEncodeCodeWithFile | IoApp.LocalApp, IoApp.TextApp, IoApp.UrlEncode |
| shinylive/_url.py:382-387 | `-` with a root directory always computes the name relative to the root, and `relative_to` raises ValueError for a name that is not under it, even when the name is a bundle entry. | An app read from /w/app/app.py with data file "data.csv", working directory /w: removing "data.csv" resolves to /w/data.csv and raises ValueError. | A bundle name that is not under the root is still removed by name. | not executed; medium | IoApp.MinusAsWritten, IoApp.MinusAsWrittenRejectsBundleName, IoApp.MinusDataFile | IoApp.Minus |
| shinylive/_app_json.py:135-139 | `write_app_json` calls `copy_file_and_substitute(src=…, dest=…, data=replacements)`, but the function declares only the keyword `replacements` (`shinylive/_utils.py:64-66`). The call raises TypeError before the file is opened. Even `replacements=replacements` would not work: the loop `for from_str, to_str in replacements` (`shinylive/_utils.py:70`) unpacks each key of the dict, not a pair. | Any export whose template directory holds an `.html` file, such as `index.html`. The base and package files are copied, the templates before the first `.html` one are copied verbatim, then TypeError is raised, and app.json is never written. | Each `.html` template is written with the replacements substituted into it, and the export ends with app.json. | not executed; high | AppJson.TemplateWritesAsWritten, AppJson.WriteAppJsonAsWritten, AppJson.HtmlTemplateFails, Export.ExportAsWritten | AppJson.TemplateWrites, AppJson.WriteAppJson, Export.Export, Export.ExportChecked |
