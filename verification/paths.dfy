/** Lexical POSIX path handling: the `pathlib.PurePosixPath` view of a path
    (an anchor plus its components) and the `os.path` string functions the
    modelled code uses, together with the path helpers of `_utils.py`:
    `path_length`, `is_relative_to` and the all-or-nothing membership check
    of `tar_safe_extractall`. Nothing here touches a file system; symbolic
    links are not followed. */
module Paths {
  import opened Strings
  import opened Outcomes

  // ---------------------------------------------------------------------
  // pathlib
  // ---------------------------------------------------------------------

  /** A parsed pure path: `root` is "", "/" or "//" and `parts` are the
      components after it, with empty and "." components already dropped. */
  datatype PurePath = PurePath(root: string, parts: seq<string>)

  ghost predicate WellFormed(p: PurePath) {
    (p.root == "" || p.root == "/" || p.root == "//")
    && forall i :: 0 <= i < |p.parts| ==> ValidPart(p.parts[i])
  }

  predicate ValidPart(c: string) {
    c != "" && c != "." && '/' !in c
  }

  /** Number of leading slashes POSIX keeps: one, except that exactly two
      are kept as two. */
  function InitialSlashes(s: string): (k: nat)
    ensures k <= 2
    ensures k == 0 <==> !StartsWith(s, "/")
  {
    if !StartsWith(s, "/") then 0
    else if StartsWith(s, "//") && !StartsWith(s, "///") then 2
    else 1
  }

  /** The non-empty, non-"." components of a split path. */
  function KeepParts(comps: seq<string>): (r: seq<string>)
    requires forall i :: 0 <= i < |comps| ==> '/' !in comps[i]
    ensures forall i :: 0 <= i < |r| ==> ValidPart(r[i])
    ensures forall c :: c in r <==> c in comps && c != "" && c != "."
  {
    if |comps| == 0 then []
    else
      var rest := KeepParts(comps[1..]);
      if comps[0] == "" || comps[0] == "." then rest else [comps[0]] + rest
  }

  /** `PurePosixPath(s)`. */
  function Parse(s: string): (p: PurePath)
    ensures WellFormed(p)
    ensures p.root != "" <==> StartsWith(s, "/")
  {
    PurePath(Repeat("/", InitialSlashes(s)), KeepParts(Split(s, '/')))
  }

  /** `str(PurePosixPath)`. */
  function Str(p: PurePath): string {
    if p.root == "" && |p.parts| == 0 then "." else p.root + Join(p.parts, "/")
  }

  predicate IsAbsolute(p: PurePath) {
    p.root != ""
  }

  /** The `/` operator of pathlib: an absolute right operand replaces the left. */
  function JoinPath(p: PurePath, q: PurePath): (r: PurePath)
    ensures WellFormed(p) && WellFormed(q) ==> WellFormed(r)
    ensures !IsAbsolute(q) ==> (r.root == p.root && |r.parts| == |p.parts| + |q.parts|
              && r.parts[..|p.parts|] == p.parts && r.parts[|p.parts|..] == q.parts)
  {
    if IsAbsolute(q) then q else PurePath(p.root, p.parts + q.parts)
  }

  /** `PurePath.name`: the last component, or "" when there is none. */
  function Name(p: PurePath): string {
    if |p.parts| == 0 then "" else p.parts[|p.parts| - 1]
  }

  /** `PurePath.suffix`: from the last "." of the name, unless that dot is the
      first or the last character of the name. */
  function Suffix(name: string): (r: string)
    ensures r == "" || (r[0] == '.' && EndsWith(name, r) && |r| >= 2 && |r| < |name|)
  {
    var i := LastIndexOf(name, '.');
    if 0 < i < |name| - 1 then name[i..] else ""
  }

  /** Index of the last occurrence of `c` in `s`, or -1. */
  function LastIndexOf(s: string, c: char): (i: int)
    ensures -1 <= i < |s|
    ensures i >= 0 ==> s[i] == c && c !in s[i + 1..]
    ensures i == -1 ==> c !in s
  {
    if |s| == 0 then -1
    else if s[|s| - 1] == c then |s| - 1
    else
      var j := LastIndexOf(s[..|s| - 1], c);
      LastStep(s, c, j);
      j
  }

  lemma LastStep(s: string, c: char, j: int)
    requires |s| > 0 && s[|s| - 1] != c && -1 <= j < |s| - 1
    requires j >= 0 ==> s[..|s| - 1][j] == c && c !in s[..|s| - 1][j + 1..]
    requires j == -1 ==> c !in s[..|s| - 1]
    ensures j >= 0 ==> s[j] == c && c !in s[j + 1..]
    ensures j == -1 ==> c !in s
  {
    assert s == s[..|s| - 1] + [s[|s| - 1]];
    if j >= 0 {
      assert s[j + 1..] == s[..|s| - 1][j + 1..] + [s[|s| - 1]];
    }
  }

  /** `is_relative_to(path, base)` (shinylive/_utils.py): `base`'s anchor and
      components are a prefix of `path`'s. */
  predicate IsRelativeTo(path: PurePath, base: PurePath) {
    path.root == base.root && |base.parts| <= |path.parts| && path.parts[..|base.parts|] == base.parts
  }

  /** `path.relative_to(base)`, None where pathlib raises ValueError. */
  function RelativeTo(path: PurePath, base: PurePath): (r: Option<PurePath>)
    ensures r.Some? <==> IsRelativeTo(path, base)
    ensures r.Some? ==> !IsAbsolute(r.value) && JoinPath(base, r.value) == path
  {
    if IsRelativeTo(path, base) then
      assert path.parts == base.parts + path.parts[|base.parts|..];
      Some(PurePath("", path.parts[|base.parts|..]))
    else None
  }

  lemma IsRelativeToReflexive(p: PurePath)
    ensures IsRelativeTo(p, p)
  {
  }

  lemma IsRelativeToTransitive(a: PurePath, b: PurePath, c: PurePath)
    requires IsRelativeTo(a, b) && IsRelativeTo(b, c)
    ensures IsRelativeTo(a, c)
  {
    assert a.parts[..|c.parts|] == a.parts[..|b.parts|][..|c.parts|];
  }

  /** Joining a relative path under `base` and taking it relative to `base`
      again gives the relative path back. */
  lemma RelativeToJoin(base: PurePath, q: PurePath)
    requires !IsAbsolute(q)
    ensures IsRelativeTo(JoinPath(base, q), base)
    ensures RelativeTo(JoinPath(base, q), base) == Some(q)
  {
    var j := JoinPath(base, q);
    assert j.parts[|base.parts|..] == q.parts;
  }

  // ---------------------------------------------------------------------
  // os.path (POSIX)
  // ---------------------------------------------------------------------

  /** `os.path.isabs` */
  predicate IsAbs(s: string) {
    StartsWith(s, "/")
  }

  /** The string of a relative path is not absolute. */
  lemma RelativeStr(p: PurePath)
    requires WellFormed(p) && !IsAbsolute(p)
    ensures !IsAbs(Str(p))
  {
    if |p.parts| == 0 {
      assert Str(p) == ".";
      assert Str(p)[..1][0] == '.';
    } else {
      assert ValidPart(p.parts[0]);
      var s := Join(p.parts, "/");
      assert s[0] == p.parts[0][0] by {
        if |p.parts| > 1 {
          assert s == p.parts[0] + "/" + Join(p.parts[1..], "/");
        }
      }
      assert Str(p) == s;
      assert s[..1][0] == s[0] != '/';
    }
  }

  /** `os.path.basename`: the text after the last "/". */
  function Basename(s: string): (r: string)
    ensures '/' !in r
    ensures EndsWith(s, r)
  {
    var i := LastIndexOf(s, '/');
    s[i + 1..]
  }

  /** `os.path.join(a, b)` for two arguments. */
  function PosixJoin(a: string, b: string): (r: string)
    ensures IsAbs(b) ==> r == b
    ensures !IsAbs(b) ==> EndsWith(r, b) && StartsWith(r, a)
  {
    if IsAbs(b) then b
    else if a == "" || EndsWith(a, "/") then a + b
    else a + "/" + b
  }

  /** The base name of a path ending in a slash-free name is that name. */
  lemma BasenameAfterSlash(p: string, b: string)
    requires p == "" || p[|p| - 1] == '/'
    requires '/' !in b
    ensures Basename(p + b) == b
  {
    var s := p + b;
    var i := LastIndexOf(s, '/');
    assert forall k :: |p| <= k < |s| ==> s[k] == b[k - |p|];
    assert i < |p|;
    if p != "" {
      assert s[|p| - 1] == '/';
      assert i == |p| - 1;
    }
    assert s[i + 1..] == b;
  }

  /** `os.path.basename(os.path.join(a, b))` is `b` for a relative,
      slash-free `b`. */
  lemma BasenameOfJoin(a: string, b: string)
    requires '/' !in b && b != ""
    ensures Basename(PosixJoin(a, b)) == b
  {
    assert b[0] != '/';
    if a == "" || EndsWith(a, "/") {
      BasenameAfterSlash(a, b);
    } else {
      assert a + "/" + b == (a + "/") + b;
      BasenameAfterSlash(a + "/", b);
    }
  }

  /** One step of `os.path.normpath`: drop empty and "." components, let ".."
      cancel the previous component unless that is itself "..", and drop ".."
      right after the root of an absolute path. */
  function NormStep(acc: seq<string>, comp: string, initial: nat): seq<string> {
    if comp == "" || comp == "." then acc
    else if comp != ".." || (initial == 0 && |acc| == 0) || (|acc| > 0 && acc[|acc| - 1] == "..") then
      acc + [comp]
    else if |acc| > 0 then acc[..|acc| - 1]
    else acc
  }

  function NormFold(acc: seq<string>, comps: seq<string>, initial: nat): seq<string>
    decreases |comps|
  {
    if |comps| == 0 then acc else NormFold(NormStep(acc, comps[0], initial), comps[1..], initial)
  }

  /** Normal form of `os.path.normpath` components: no empty, "." or "/"-holding
      component, and ".." only as a leading run of a relative path. */
  ghost predicate Normal(c: seq<string>, initial: nat) {
    forall i :: 0 <= i < |c| ==>
      ValidPart(c[i]) && (c[i] == ".." ==> initial == 0 && forall j :: 0 <= j < i ==> c[j] == "..")
  }

  lemma {:induction false} NormFoldNormal(acc: seq<string>, comps: seq<string>, initial: nat)
    requires Normal(acc, initial)
    requires forall i :: 0 <= i < |comps| ==> '/' !in comps[i]
    ensures Normal(NormFold(acc, comps, initial), initial)
    decreases |comps|
  {
    if |comps| > 0 {
      var next := NormStep(acc, comps[0], initial);
      assert Normal(next, initial) by {
        if comps[0] == "" || comps[0] == "." {
        } else if comps[0] != ".." || (initial == 0 && |acc| == 0) || (|acc| > 0 && acc[|acc| - 1] == "..") {
          if comps[0] == ".." && |acc| > 0 {
            assert acc[|acc| - 1] == "..";
            forall j | 0 <= j < |acc| ensures acc[j] == ".." {
              if j < |acc| - 1 {
                assert acc[|acc| - 1] == "..";
              }
            }
          }
        } else if |acc| > 0 {
        }
      }
      NormFoldNormal(next, comps[1..], initial);
    }
  }

  /** Components already in normal form are left as they are. */
  lemma {:induction false} NormFoldIdentity(acc: seq<string>, comps: seq<string>, initial: nat)
    requires Normal(acc + comps, initial)
    ensures NormFold(acc, comps, initial) == acc + comps
    decreases |comps|
  {
    if |comps| > 0 {
      var c := acc + comps;
      assert c[|acc|] == comps[0];
      assert NormStep(acc, comps[0], initial) == acc + [comps[0]] by {
        if comps[0] == ".." {
          if |acc| > 0 {
            assert c[|acc| - 1] == acc[|acc| - 1];
          }
        }
      }
      assert acc + [comps[0]] + comps[1..] == c;
      NormFoldIdentity(acc + [comps[0]], comps[1..], initial);
    } else {
      assert acc + comps == acc;
    }
  }

  /** The components `os.path.normpath` keeps. */
  function NormParts(s: string): (c: seq<string>)
    ensures Normal(c, InitialSlashes(s))
  {
    NormFoldNormal([], Split(s, '/'), InitialSlashes(s));
    NormFold([], Split(s, '/'), InitialSlashes(s))
  }

  /** `os.path.normpath` */
  function NormPath(s: string): (r: string)
    ensures r != ""
  {
    if s == "" then "."
    else
      var p := Repeat("/", InitialSlashes(s)) + Join(NormParts(s), "/");
      if p == "" then "." else p
  }

  /** The parts of a path joined with "/" split back into the same parts. */
  lemma SplitJoinParts(c: seq<string>)
    requires |c| >= 1 && forall i :: 0 <= i < |c| ==> ValidPart(c[i])
    ensures Split(Join(c, "/"), '/') == c
  {
    SplitJoin(c, '/');
  }

  lemma {:induction false} JoinValidNonEmpty(c: seq<string>)
    requires |c| >= 1 && forall i :: 0 <= i < |c| ==> ValidPart(c[i])
    ensures |Join(c, "/")| > 0 && Join(c, "/")[0] != '/'
    ensures Join(c, "/") != "."
    decreases |c|
  {
    if |c| > 1 {
      JoinValidNonEmpty(c[1..]);
      assert Join(c, "/") == c[0] + "/" + Join(c[1..], "/");
      assert c[0] != "";
    }
  }

  /** `path_length(path)` (shinylive/_utils.py): ValueError for an absolute
      path, otherwise the number of components of its normal form, 0 for a
      path that normalises to ".". */
  function PathLength(s: string): (r: Result<nat>)
    ensures r.Err? <==> IsAbs(s)
    ensures r.Err? ==> r.error.ValueError?
    ensures r.Ok? ==> r.value == |NormParts(s)|
  {
    if IsAbs(s) then Err(ValueError("path must be relative"))
    else
      var n := NormPath(s);
      PathLengthCount(s);
      if n == "." then Ok(0) else Ok(|Split(n, '/')|)
  }

  lemma PathLengthCount(s: string)
    requires !IsAbs(s)
    ensures NormPath(s) == "." <==> |NormParts(s)| == 0
    ensures NormPath(s) != "." ==> |Split(NormPath(s), '/')| == |NormParts(s)|
  {
    var c := NormParts(s);
    assert InitialSlashes(s) == 0;
    assert Repeat("/", 0) == "";
    if s != "" && |c| > 0 {
      JoinValidNonEmpty(c);
      assert NormPath(s) == Join(c, "/");
      SplitJoinParts(c);
    }
  }

  /** A relative path made of plain names (no "", "." or "..") has one
      element per name; `a` has length 1, `a/b` length 2. */
  lemma PathLengthPlain(names: seq<string>)
    requires forall i :: 0 <= i < |names| ==> ValidPart(names[i]) && names[i] != ".."
    ensures PathLength(Join(names, "/")) == Ok(|names|)
  {
    PlainNormParts(names);
  }

  lemma PlainNormParts(names: seq<string>)
    requires forall i :: 0 <= i < |names| ==> ValidPart(names[i]) && names[i] != ".."
    ensures NormParts(Join(names, "/")) == names
  {
    var s := Join(names, "/");
    if |names| == 0 {
      assert s == "";
      assert Split(s, '/') == [""];
    } else {
      JoinValidNonEmpty(names);
      SplitJoinParts(names);
      assert InitialSlashes(s) == 0;
      NormFoldIdentity([], names, 0);
      assert [] + names == names;
    }
  }

  /** `os.path.normpath` is idempotent. */
  lemma NormPathIdempotent(s: string)
    ensures NormPath(NormPath(s)) == NormPath(s)
  {
    var n := NormPath(s);
    var k := if s == "" then 0 else InitialSlashes(s);
    var c := if s == "" then [] else NormParts(s);
    if n == "." {
      NormOfDot();
    } else {
      assert s != "";
      var slashes := Repeat("/", k);
      assert n == slashes + Join(c, "/");
      if |c| == 0 {
        assert k > 0;
        assert Join(c, "/") == "";
        NormOfSlashes(k);
      } else {
        JoinValidNonEmpty(c);
        NormOfRooted(k, c);
      }
    }
  }

  lemma NormOfDot()
    ensures NormPath(".") == "."
  {
    assert Split(".", '/') == ["."];
    assert NormParts(".") == [];
  }

  lemma RepeatSlash()
    ensures Repeat("/", 0) == "" && Repeat("/", 1) == "/" && Repeat("/", 2) == "//"
  {
  }

  lemma NormOfSlashes(k: nat)
    requires 1 <= k <= 2
    ensures NormPath(Repeat("/", k)) == Repeat("/", k)
  {
    RepeatSlash();
    if k == 1 {
      NormOfOneSlash();
    } else {
      NormOfTwoSlashes();
    }
  }

  lemma NormOfOneSlash()
    ensures NormPath("/") == "/"
  {
    SplitAppend("", "", '/');
    assert "" + ['/'] + "" == "/";
    assert Split("/", '/') == ["", ""];
    assert InitialSlashes("/") == 1;
    assert NormFold([], ["", ""], 1) == [];
    assert NormParts("/") == [];
    RepeatSlash();
  }

  lemma NormOfTwoSlashes()
    ensures NormPath("//") == "//"
  {
    NormPartsOfTwoSlashes();
    RepeatSlash();
    assert InitialSlashes("//") == 2;
    assert Join([], "/") == "";
  }

  lemma NormPartsOfTwoSlashes()
    ensures NormParts("//") == []
  {
    SplitTwoSlashes();
    assert InitialSlashes("//") == 2;
    NormFoldBlanks(2);
  }

  lemma SplitTwoSlashes()
    ensures Split("//", '/') == ["", "", ""]
  {
    SplitOneSlash("/");
    SplitOneSlash("");
    assert "/" + "" == "/";
    assert "/" + "/" == "//";
    assert [""] + ([""] + [""]) == ["", "", ""];
  }

  lemma NormFoldBlanks(k: nat)
    ensures NormFold([], ["", "", ""], k) == []
  {
    assert ["", "", ""][1..] == ["", ""];
    assert ["", ""][1..] == [""];
    assert [""][1..] == [];
  }

  lemma SplitRooted(j: string)
    ensures Split("/" + j, '/') == [""] + Split(j, '/')
    ensures Split("//" + j, '/') == ["", ""] + Split(j, '/')
  {
    SplitOneSlash(j);
    SplitOneSlash("/" + j);
    assert "/" + ("/" + j) == "//" + j;
  }

  lemma SplitOneSlash(j: string)
    ensures Split("/" + j, '/') == [""] + Split(j, '/')
  {
    SplitAppend("", j, '/');
    assert "" + ['/'] + j == "/" + j;
  }

  lemma InitialSlashesOf(j: string)
    requires |j| > 0 && j[0] != '/'
    ensures InitialSlashes(j) == 0
    ensures InitialSlashes("/" + j) == 1
    ensures InitialSlashes("//" + j) == 2
  {
    assert ("/" + j)[..2] != "//" by { assert ("/" + j)[1] == j[0]; }
    assert ("//" + j)[..2] == "//";
    assert ("//" + j)[..3] != "///" by { assert ("//" + j)[2] == j[0]; }
  }

  lemma NormOfRooted(k: nat, c: seq<string>)
    requires k <= 2 && |c| >= 1 && Normal(c, k)
    requires Join(c, "/")[0] != '/' && |Join(c, "/")| > 0
    ensures NormPath(Repeat("/", k) + Join(c, "/")) == Repeat("/", k) + Join(c, "/")
  {
    var j := Join(c, "/");
    var s := Repeat("/", k) + j;
    NormOfPrefixed(k, c, j);
    NormPathOfParts(s, k, c);
  }

  lemma NormOfPrefixed(k: nat, c: seq<string>, j: string)
    requires k <= 2 && |c| >= 1 && Normal(c, k)
    requires j == Join(c, "/") && j[0] != '/' && |j| > 0
    ensures InitialSlashes(Repeat("/", k) + j) == k
    ensures NormParts(Repeat("/", k) + j) == c
  {
    RepeatSlash();
    SplitJoinParts(c);
    InitialSlashesOf(j);
    NormFoldIdentity([], c, k);
    assert [] + c == c;
    if k == 0 {
      assert Repeat("/", k) + j == j;
    } else if k == 1 {
      assert Repeat("/", k) + j == "/" + j;
      NormOfOneRoot(c, j);
    } else {
      assert Repeat("/", k) + j == "//" + j;
      NormOfTwoRoots(c, j);
    }
  }

  lemma NormPathOfParts(s: string, k: nat, c: seq<string>)
    requires |s| > 0 && InitialSlashes(s) == k && NormParts(s) == c && |c| >= 1
    requires |Join(c, "/")| > 0
    ensures NormPath(s) == Repeat("/", k) + Join(c, "/")
  {
  }

  lemma NormOfOneRoot(c: seq<string>, j: string)
    requires j == Join(c, "/") && Split(j, '/') == c && |j| > 0
    requires InitialSlashes("/" + j) == 1 && NormFold([], c, 1) == c
    ensures NormParts("/" + j) == c
  {
    SplitOneSlash(j);
    assert NormFold([], [""] + c, 1) == NormFold([], c, 1);
  }

  lemma NormOfTwoRoots(c: seq<string>, j: string)
    requires j == Join(c, "/") && Split(j, '/') == c && |j| > 0
    requires InitialSlashes("//" + j) == 2 && NormFold([], c, 2) == c
    ensures NormParts("//" + j) == c
  {
    SplitRooted(j);
    assert NormFold([], ["", ""] + c, 2) == NormFold([], [""] + c, 2);
    assert ([""] + c)[1..] == c;
    assert NormFold([], [""] + c, 2) == NormFold([], c, 2);
  }

  // ---------------------------------------------------------------------
  // tar_safe_extractall
  // ---------------------------------------------------------------------

  /** `Path.resolve()` on a path whose components are not symbolic links: make
      it absolute against `cwd` and let ".." cancel the previous component
      (at the root it stays at the root). */
  function Resolve(p: PurePath, cwd: PurePath): (r: PurePath)
    ensures r.root == "/"
    ensures forall i :: 0 <= i < |r.parts| ==> r.parts[i] != ".."
  {
    var parts := if IsAbsolute(p) then p.parts else cwd.parts + p.parts;
    PurePath("/", DropDots([], parts))
  }

  function DropDots(acc: seq<string>, comps: seq<string>): (r: seq<string>)
    requires forall i :: 0 <= i < |acc| ==> acc[i] != ".."
    ensures forall i :: 0 <= i < |r| ==> r[i] != ".."
    decreases |comps|
  {
    if |comps| == 0 then acc
    else if comps[0] == ".." then DropDots(if |acc| > 0 then acc[..|acc| - 1] else acc, comps[1..])
    else DropDots(acc + [comps[0]], comps[1..])
  }

  lemma {:induction false} DropDotsPlain(acc: seq<string>, comps: seq<string>)
    requires forall i :: 0 <= i < |acc| ==> acc[i] != ".."
    requires forall i :: 0 <= i < |comps| ==> comps[i] != ".."
    ensures DropDots(acc, comps) == acc + comps
    decreases |comps|
  {
    if |comps| > 0 {
      DropDotsPlain(acc + [comps[0]], comps[1..]);
      assert acc + [comps[0]] + comps[1..] == acc + comps;
    }
  }

  /** Whether a tar member name stays inside `destdir` once resolved. */
  predicate MemberInside(destdir: PurePath, cwd: PurePath, member: string) {
    var dest := Resolve(destdir, cwd);
    IsRelativeTo(Resolve(JoinPath(dest, Parse(member)), cwd), dest)
  }

  /** The membership check of `tar_safe_extractall` (shinylive/_utils.py):
      RuntimeError before anything is extracted if any member would land
      outside the resolved `destdir`; otherwise every member is extracted,
      and the result lists where each one lands. */
  function TarSafeExtract(destdir: PurePath, cwd: PurePath, members: seq<string>): (r: Result<seq<PurePath>>)
    ensures r.Err? <==> exists i :: 0 <= i < |members| && !MemberInside(destdir, cwd, members[i])
    ensures r.Err? ==> r.error.RuntimeError?
    ensures r.Ok? ==> (|r.value| == |members|
              && forall i :: 0 <= i < |members| ==> IsRelativeTo(r.value[i], Resolve(destdir, cwd)))
  {
    var dest := Resolve(destdir, cwd);
    if exists i :: 0 <= i < |members| && !MemberInside(destdir, cwd, members[i]) then
      Err(RuntimeError("attempted path traversal in tar file"))
    else
      Ok(seq(|members|, i requires 0 <= i < |members| => Resolve(JoinPath(dest, Parse(members[i])), cwd)))
  }

  /** A relative member name without ".." components always stays inside. */
  lemma PlainMemberInside(destdir: PurePath, cwd: PurePath, member: string)
    requires !IsAbs(member) && ".." !in Parse(member).parts
    ensures MemberInside(destdir, cwd, member)
  {
    var dest := Resolve(destdir, cwd);
    var m := Parse(member);
    var j := JoinPath(dest, m);
    assert j == PurePath("/", dest.parts + m.parts);
    DropDotsPlain([], dest.parts + m.parts);
    assert [] + (dest.parts + m.parts) == dest.parts + m.parts;
    assert Resolve(j, cwd).parts[..|dest.parts|] == dest.parts;
  }

  /** A member name that climbs out with ".." is refused. */
  lemma ParentMemberOutside(cwd: PurePath)
    ensures !MemberInside(PurePath("/", ["dest"]), cwd, "../x")
  {
    var dest := PurePath("/", ["dest"]);
    ResolveDest(cwd);
    ParseParentX();
    var j := JoinPath(dest, PurePath("", ["..", "x"]));
    assert j == PurePath("/", ["dest", "..", "x"]);
    DropDotsParentX();
    assert Resolve(j, cwd) == PurePath("/", ["x"]);
  }

  lemma ResolveDest(cwd: PurePath)
    ensures Resolve(PurePath("/", ["dest"]), cwd) == PurePath("/", ["dest"])
  {
    DropDotsPlain([], ["dest"]);
    assert [] + ["dest"] == ["dest"];
  }

  lemma ParseParentX()
    ensures Parse("../x") == PurePath("", ["..", "x"])
  {
    SplitAppend("..", "x", '/');
    assert "../x" == ".." + ['/'] + "x";
    assert IndexOf("x", '/') == 1;
    assert Split("../x", '/') == ["..", "x"];
    assert !StartsWith("../x", "/");
    assert ["..", "x"][1..] == ["x"];
  }

  lemma DropDotsParentX()
    ensures DropDots([], ["dest", "..", "x"]) == ["x"]
  {
    assert ["dest", "..", "x"][1..] == ["..", "x"];
    assert ["..", "x"][1..] == ["x"];
    assert ["x"][1..] == [];
  }
}
