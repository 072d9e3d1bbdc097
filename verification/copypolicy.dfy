/** The copy function `create_copy_fn(overwrite)` returns
    (shinylive/_utils.py), as a transition on a file system that maps file
    paths to their contents. Comparing two files (`filecmp.cmp`) is content
    equality; file metadata that `shutil.copy2` carries over is not part of
    the model. */
module CopyPolicy {
  import opened Outcomes
  import opened Paths

  type Fs = map<PurePath, string>

  /** The file system after one copy, and whether the "Source and
      destination copies differ" warning was written. */
  datatype Copied = Copied(fs: Fs, warned: bool)

  /** `copy_fn(src, dst)` of `create_copy_fn(overwrite)`. A missing source
      is a FileNotFoundError (from the comparison or from the copy); so is
      overwriting a file with itself, which deletes it before copying. */
  function CopyFile(fs: Fs, src: PurePath, dst: PurePath, overwrite: bool): (r: Result<Copied>)
    ensures r.Ok? <==> src in fs && !(overwrite && src == dst)
    ensures r.Err? ==> r == Err(FileNotFoundError(Str(src)))
    ensures r.Ok? ==> && (r.value.warned <==> dst in fs && fs[dst] != fs[src])
                      && r.value.fs.Keys == fs.Keys + {dst}
                      && (forall p :: p in fs && p != dst ==> r.value.fs[p] == fs[p])
                      && (dst !in fs ==> r.value.fs[dst] == fs[src])
                      && (dst in fs && overwrite ==> r.value.fs[dst] == fs[src])
                      && (dst in fs && !overwrite ==> r.value.fs == fs)
  {
    if src !in fs then Err(FileNotFoundError(Str(src)))
    else if dst in fs then
      var warned := fs[dst] != fs[src];
      if !overwrite then Ok(Copied(fs, warned))
      else
        var removed := fs - {dst};
        if src !in removed then Err(FileNotFoundError(Str(src)))
        else Ok(Copied(removed[dst := fs[src]], warned))
    else Ok(Copied(fs[dst := fs[src]], false))
  }

  /** After a copy that succeeded the destination holds the source's
      content, unless it existed and overwriting was off. */
  lemma CopyResult(fs: Fs, src: PurePath, dst: PurePath, overwrite: bool)
    requires src in fs && src != dst
    ensures CopyFile(fs, src, dst, overwrite).value.fs[dst] ==
            (if dst in fs && !overwrite then fs[dst] else fs[src])
  {
  }

  /** Copying again changes nothing and, with overwriting on, warns
      about nothing either. */
  lemma CopyIdempotent(fs: Fs, src: PurePath, dst: PurePath, overwrite: bool)
    requires src in fs && src != dst
    ensures var once := CopyFile(fs, src, dst, overwrite).value;
            var twice := CopyFile(once.fs, src, dst, overwrite).value;
            twice.fs == once.fs && (overwrite ==> !twice.warned)
  {
  }

  /** Copying identical content onto an existing file with overwriting off
      is a silent no-op. */
  lemma SameContentSilent(fs: Fs, src: PurePath, dst: PurePath)
    requires src in fs && dst in fs && fs[src] == fs[dst]
    ensures CopyFile(fs, src, dst, false) == Ok(Copied(fs, false))
  {
  }

  /** A run of copies, as a loop over (source, destination) pairs calls the
      copy function; the first failing copy ends the run. The result lists
      the destinations that drew a warning. */
  datatype Run = Run(fs: Fs, warnings: seq<PurePath>)

  /** Path `p` exists once the first `k` copies of a run have been made:
      it existed before, or one of those copies created it. */
  predicate ExistsBefore(fs: Fs, pairs: seq<(PurePath, PurePath)>, k: int, p: PurePath) {
    p in fs || exists j :: 0 <= j < k && j < |pairs| && pairs[j].1 == p
  }

  /** Every copy of the run can be made: its source exists by the time it
      is made, and it does not overwrite a file with itself. */
  predicate CopiesCanRun(fs: Fs, pairs: seq<(PurePath, PurePath)>, overwrite: bool) {
    forall k {:trigger ExistsBefore(fs, pairs, k, pairs[k].0)} ::
      0 <= k < |pairs| ==> ExistsBefore(fs, pairs, k, pairs[k].0) && !(overwrite && pairs[k].0 == pairs[k].1)
  }

  /** No copy of the run writes to `p`. */
  predicate NotWritten(pairs: seq<(PurePath, PurePath)>, p: PurePath) {
    forall k :: 0 <= k < |pairs| ==> pairs[k].1 != p
  }

  function CopyAll(fs: Fs, pairs: seq<(PurePath, PurePath)>, overwrite: bool): (r: Result<Run>)
    ensures r.Ok? <==> CopiesCanRun(fs, pairs, overwrite)
    ensures r.Err? ==> exists k :: 0 <= k < |pairs| && r.error == FileNotFoundError(Str(pairs[k].0))
    ensures r.Ok? ==> fs.Keys <= r.value.fs.Keys
    ensures r.Ok? ==> forall k :: 0 <= k < |pairs| ==> pairs[k].1 in r.value.fs
    ensures r.Ok? && !overwrite ==> forall p :: p in fs ==> r.value.fs[p] == fs[p]
    ensures r.Ok? ==> forall p :: p in fs && NotWritten(pairs, p) ==> r.value.fs[p] == fs[p]
    decreases |pairs|
  {
    if |pairs| == 0 then Ok(Run(fs, []))
    else
      var c := CopyFile(fs, pairs[0].0, pairs[0].1, overwrite);
      CanRunStep(fs, pairs, overwrite, if c.Ok? then c.value.fs else fs);
      if c.Err? then Err(c.error)
      else
        var rest := CopyAll(c.value.fs, pairs[1..], overwrite);
        assert forall k :: 1 <= k < |pairs| ==> pairs[k] == pairs[1..][k - 1];
        if rest.Err? then Err(rest.error)
        else
          Ok(Run(rest.value.fs, (if c.value.warned then [pairs[0].1] else []) + rest.value.warnings))
  }

  /** The run can go on from the first copy exactly when that copy can be
      made and the rest can run from the file system it leaves. */
  lemma CanRunStep(fs: Fs, pairs: seq<(PurePath, PurePath)>, overwrite: bool, after: Fs)
    requires |pairs| > 0
    requires CopyFile(fs, pairs[0].0, pairs[0].1, overwrite).Ok? ==> after.Keys == fs.Keys + {pairs[0].1}
    ensures CopiesCanRun(fs, pairs, overwrite) <==>
              CopyFile(fs, pairs[0].0, pairs[0].1, overwrite).Ok? && CopiesCanRun(after, pairs[1..], overwrite)
  {
    if CopyFile(fs, pairs[0].0, pairs[0].1, overwrite).Ok? {
      forall k | 0 <= k < |pairs[1..]|
        ensures ExistsBefore(after, pairs[1..], k, pairs[1..][k].0) <==> ExistsBefore(fs, pairs, k + 1, pairs[k + 1].0)
      {
        ShiftExists(fs, pairs, after, k, pairs[k + 1].0);
      }
      if CopiesCanRun(after, pairs[1..], overwrite) {
        forall k | 0 <= k < |pairs| ensures ExistsBefore(fs, pairs, k, pairs[k].0) && !(overwrite && pairs[k].0 == pairs[k].1) {
          if k > 0 {
            assert pairs[1..][k - 1] == pairs[k];
          }
        }
      }
      if CopiesCanRun(fs, pairs, overwrite) {
        forall k | 0 <= k < |pairs[1..]|
          ensures ExistsBefore(after, pairs[1..], k, pairs[1..][k].0) && !(overwrite && pairs[1..][k].0 == pairs[1..][k].1)
        {
          assert pairs[1..][k] == pairs[k + 1];
        }
      }
    } else {
      assert !(ExistsBefore(fs, pairs, 0, pairs[0].0) && !(overwrite && pairs[0].0 == pairs[0].1));
    }
  }

  lemma ShiftExists(fs: Fs, pairs: seq<(PurePath, PurePath)>, after: Fs, k: nat, p: PurePath)
    requires |pairs| > 0 && k < |pairs| && after.Keys == fs.Keys + {pairs[0].1}
    ensures ExistsBefore(after, pairs[1..], k, p) <==> ExistsBefore(fs, pairs, k + 1, p)
  {
    if ExistsBefore(after, pairs[1..], k, p) && p !in after {
      var j :| 0 <= j < k && j < |pairs[1..]| && pairs[1..][j].1 == p;
      assert pairs[j + 1].1 == p;
    }
    if ExistsBefore(fs, pairs, k + 1, p) && p !in fs {
      var j :| 0 <= j < k + 1 && j < |pairs| && pairs[j].1 == p;
      if j > 0 {
        assert pairs[1..][j - 1].1 == p;
      }
    }
  }

  /** What a run writes: a copy whose source no copy of the run writes
      leaves the source's original content at its destination, when it is
      the last copy to that destination (overwriting on), or the first copy
      to a destination that did not exist (overwriting off). */
  lemma CopyAllContents(fs: Fs, pairs: seq<(PurePath, PurePath)>, overwrite: bool, k: nat)
    requires CopyAll(fs, pairs, overwrite).Ok? && k < |pairs|
    requires NotWritten(pairs, pairs[k].0)
    requires overwrite ==> forall j :: k < j < |pairs| ==> pairs[j].1 != pairs[k].1
    requires !overwrite ==> pairs[k].1 !in fs && forall j :: 0 <= j < k ==> pairs[j].1 != pairs[k].1
    ensures pairs[k].0 in fs
    ensures CopyAll(fs, pairs, overwrite).value.fs[pairs[k].1] == fs[pairs[k].0]
  {
    var run := CopyAll(fs, pairs, overwrite).value;
    SourceExisted(fs, pairs, k);
    if overwrite {
      LastCopyWins(fs, pairs, k, run);
    } else {
      FirstCopyStays(fs, pairs, k, run);
    }
  }

  /** Copies that do not overwrite can all run when every source exists
      from the start. */
  lemma SourcesPresentCanRun(fs: Fs, pairs: seq<(PurePath, PurePath)>)
    requires forall k :: 0 <= k < |pairs| ==> pairs[k].0 in fs
    ensures CopiesCanRun(fs, pairs, false)
  {
  }

  /** A source that no copy writes and that exists when its copy is made
      existed from the start. */
  lemma SourceExisted(fs: Fs, pairs: seq<(PurePath, PurePath)>, k: nat)
    requires k < |pairs| && NotWritten(pairs, pairs[k].0) && ExistsBefore(fs, pairs, k, pairs[k].0)
    ensures pairs[k].0 in fs
  {
  }

  lemma {:induction false} LastCopyWins(fs: Fs, pairs: seq<(PurePath, PurePath)>, k: nat, run: Run)
    requires CopyAll(fs, pairs, true) == Ok(run) && k < |pairs| && pairs[k].0 in fs
    requires NotWritten(pairs, pairs[k].0)
    requires forall j :: k < j < |pairs| ==> pairs[j].1 != pairs[k].1
    ensures pairs[k].1 in run.fs && run.fs[pairs[k].1] == fs[pairs[k].0]
    decreases k, 1
  {
    if k == 0 {
      var c, rest := CopyAllUnfold(fs, pairs, true);
      LaterTail(pairs, 0);
      FirstCopyKept(fs, pairs, true, c, rest);
    } else {
      LastCopyWinsLater(fs, pairs, k, run);
    }
  }

  lemma {:induction false} LastCopyWinsLater(fs: Fs, pairs: seq<(PurePath, PurePath)>, k: nat, run: Run)
    requires CopyAll(fs, pairs, true) == Ok(run) && 0 < k < |pairs| && pairs[k].0 in fs
    requires NotWritten(pairs, pairs[k].0)
    requires forall j :: k < j < |pairs| ==> pairs[j].1 != pairs[k].1
    ensures pairs[k].1 in run.fs && run.fs[pairs[k].1] == fs[pairs[k].0]
    decreases k, 0
  {
    var c, rest := CopyAllUnfold(fs, pairs, true);
    NotWrittenTail(pairs, pairs[k].0);
    LaterTail(pairs, k);
    KeptByCopy(fs, pairs[0].0, pairs[0].1, true, c, pairs[k].0);
    var tail := pairs[1..];
    assert tail[k - 1] == pairs[k] && NotWritten(tail, tail[k - 1].0);
    LastCopyWins(c.fs, tail, k - 1, rest);
  }

  lemma {:induction false} FirstCopyStays(fs: Fs, pairs: seq<(PurePath, PurePath)>, k: nat, run: Run)
    requires CopyAll(fs, pairs, false) == Ok(run) && k < |pairs| && pairs[k].0 in fs
    requires NotWritten(pairs, pairs[k].0)
    requires pairs[k].1 !in fs && forall j :: 0 <= j < k ==> pairs[j].1 != pairs[k].1
    ensures pairs[k].1 in run.fs && run.fs[pairs[k].1] == fs[pairs[k].0]
    decreases k, 1
  {
    if k == 0 {
      var c, rest := CopyAllUnfold(fs, pairs, false);
      FirstCopyKept(fs, pairs, false, c, rest);
    } else {
      FirstCopyStaysLater(fs, pairs, k, run);
    }
  }

  lemma {:induction false} FirstCopyStaysLater(fs: Fs, pairs: seq<(PurePath, PurePath)>, k: nat, run: Run)
    requires CopyAll(fs, pairs, false) == Ok(run) && 0 < k < |pairs| && pairs[k].0 in fs
    requires NotWritten(pairs, pairs[k].0)
    requires pairs[k].1 !in fs && forall j :: 0 <= j < k ==> pairs[j].1 != pairs[k].1
    ensures pairs[k].1 in run.fs && run.fs[pairs[k].1] == fs[pairs[k].0]
    decreases k, 0
  {
    var c, rest := CopyAllUnfold(fs, pairs, false);
    NotWrittenTail(pairs, pairs[k].0);
    EarlierTail(pairs, k);
    KeptByCopy(fs, pairs[0].0, pairs[0].1, false, c, pairs[k].0);
    NotAddedByCopy(fs, pairs[0].0, pairs[0].1, false, c, pairs[k].1);
    var tail := pairs[1..];
    assert tail[k - 1] == pairs[k] && NotWritten(tail, tail[k - 1].0) && tail[k - 1].1 !in c.fs;
    FirstCopyStays(c.fs, tail, k - 1, rest);
  }

  /** The first copy's content survives the rest of the run when the rest
      leaves its destination alone. */
  lemma FirstCopyKept(fs: Fs, pairs: seq<(PurePath, PurePath)>, overwrite: bool, c: Copied, rest: Run)
    requires |pairs| > 0 && pairs[0].0 in fs
    requires CopyFile(fs, pairs[0].0, pairs[0].1, overwrite) == Ok(c)
    requires CopyAll(c.fs, pairs[1..], overwrite) == Ok(rest)
    requires overwrite ==> NotWritten(pairs[1..], pairs[0].1)
    requires !overwrite ==> pairs[0].1 !in fs
    ensures pairs[0].1 in rest.fs && rest.fs[pairs[0].1] == fs[pairs[0].0]
  {
    CopiedHere(fs, pairs[0].0, pairs[0].1, overwrite, c);
  }

  lemma NotAddedByCopy(fs: Fs, src: PurePath, dst: PurePath, overwrite: bool, c: Copied, p: PurePath)
    requires CopyFile(fs, src, dst, overwrite) == Ok(c) && p !in fs && p != dst
    ensures p !in c.fs
  {
  }

  /** A run that succeeds is its first copy followed by the rest of the run. */
  lemma CopyAllUnfold(fs: Fs, pairs: seq<(PurePath, PurePath)>, overwrite: bool) returns (c: Copied, rest: Run)
    requires CopyAll(fs, pairs, overwrite).Ok? && |pairs| > 0
    ensures CopyFile(fs, pairs[0].0, pairs[0].1, overwrite) == Ok(c)
    ensures CopyAll(c.fs, pairs[1..], overwrite) == Ok(rest)
    ensures CopyAll(fs, pairs, overwrite).value == Run(rest.fs, (if c.warned then [pairs[0].1] else []) + rest.warnings)
  {
    c := CopyFile(fs, pairs[0].0, pairs[0].1, overwrite).value;
    rest := CopyAll(c.fs, pairs[1..], overwrite).value;
  }

  lemma NotWrittenTail(pairs: seq<(PurePath, PurePath)>, p: PurePath)
    requires |pairs| > 0 && NotWritten(pairs, p)
    ensures pairs[0].1 != p && NotWritten(pairs[1..], p)
  {
    forall j | 0 <= j < |pairs[1..]| ensures pairs[1..][j].1 != p {
      assert pairs[1..][j] == pairs[j + 1];
    }
  }

  lemma LaterTail(pairs: seq<(PurePath, PurePath)>, k: nat)
    requires k < |pairs| && forall j :: k < j < |pairs| ==> pairs[j].1 != pairs[k].1
    ensures k == 0 ==> NotWritten(pairs[1..], pairs[0].1)
    ensures k > 0 ==> pairs[1..][k - 1] == pairs[k] && forall j :: k - 1 < j < |pairs[1..]| ==> pairs[1..][j].1 != pairs[1..][k - 1].1
  {
    forall j | k <= j < |pairs[1..]| ensures pairs[1..][j].1 != pairs[k].1 {
      assert pairs[1..][j] == pairs[j + 1];
    }
  }

  lemma EarlierTail(pairs: seq<(PurePath, PurePath)>, k: nat)
    requires 0 < k < |pairs| && forall j :: 0 <= j < k ==> pairs[j].1 != pairs[k].1
    ensures pairs[1..][k - 1] == pairs[k] && pairs[0].1 != pairs[k].1
    ensures forall j :: 0 <= j < k - 1 ==> pairs[1..][j].1 != pairs[1..][k - 1].1
  {
    forall j | 0 <= j < k - 1 ensures pairs[1..][j].1 != pairs[1..][k - 1].1 {
      assert pairs[1..][j] == pairs[j + 1];
    }
  }

  /** A warning names the destination of some copy that found that file
      already there. */
  lemma {:induction false} CopyAllWarned(fs: Fs, pairs: seq<(PurePath, PurePath)>, overwrite: bool)
    requires CopyAll(fs, pairs, overwrite).Ok?
    ensures forall w :: w in CopyAll(fs, pairs, overwrite).value.warnings ==>
              exists k :: 0 <= k < |pairs| && pairs[k].1 == w && ExistsBefore(fs, pairs, k, w)
    decreases |pairs|
  {
    if |pairs| > 0 {
      var c, rest := CopyAllUnfold(fs, pairs, overwrite);
      CopyAllWarned(c.fs, pairs[1..], overwrite);
      forall w | w in CopyAll(fs, pairs, overwrite).value.warnings
        ensures exists k :: 0 <= k < |pairs| && pairs[k].1 == w && ExistsBefore(fs, pairs, k, w)
      {
        if c.warned && w == pairs[0].1 {
          assert ExistsBefore(fs, pairs, 0, w);
        } else {
          assert w in rest.warnings;
          var k :| 0 <= k < |pairs[1..]| && pairs[1..][k].1 == w && ExistsBefore(c.fs, pairs[1..], k, w);
          ShiftExists(fs, pairs, c.fs, k, w);
          assert pairs[k + 1].1 == w;
        }
      }
    }
  }

  /** A copy whose source and destination no earlier copy wrote warns
      exactly as a single copy on the original file system does: when the
      destination existed with different content. */
  lemma {:induction false} CopyAllWarns(fs: Fs, pairs: seq<(PurePath, PurePath)>, overwrite: bool, k: nat)
    requires CopyAll(fs, pairs, overwrite).Ok? && k < |pairs|
    requires forall j :: 0 <= j < k ==> pairs[j].1 != pairs[k].0 && pairs[j].1 != pairs[k].1
    requires pairs[k].1 in fs && pairs[k].0 in fs && fs[pairs[k].1] != fs[pairs[k].0]
    ensures pairs[k].1 in CopyAll(fs, pairs, overwrite).value.warnings
    decreases k
  {
    var c, rest := CopyAllUnfold(fs, pairs, overwrite);
    var head := if c.warned then [pairs[0].1] else [];
    if k == 0 {
      assert c.warned;
      assert pairs[0].1 in head;
    } else {
      var src, dst := pairs[k].0, pairs[k].1;
      assert pairs[0].1 != src && pairs[0].1 != dst;
      KeptByCopy(fs, pairs[0].0, pairs[0].1, overwrite, c, src);
      KeptByCopy(fs, pairs[0].0, pairs[0].1, overwrite, c, dst);
      ShiftPairs(pairs, k);
      var tail := pairs[1..];
      assert tail[k - 1].1 in c.fs && tail[k - 1].0 in c.fs && c.fs[tail[k - 1].1] != c.fs[tail[k - 1].0];
      CopyAllWarns(c.fs, tail, overwrite, k - 1);
      assert dst in rest.warnings;
    }
  }

  /** A copy that writes leaves the source's content at the destination. */
  lemma CopiedHere(fs: Fs, src: PurePath, dst: PurePath, overwrite: bool, c: Copied)
    requires CopyFile(fs, src, dst, overwrite) == Ok(c) && (overwrite || dst !in fs)
    ensures dst in c.fs && c.fs[dst] == fs[src]
  {
  }

  /** A copy leaves every other path as it was. */
  lemma KeptByCopy(fs: Fs, src: PurePath, dst: PurePath, overwrite: bool, c: Copied, p: PurePath)
    requires CopyFile(fs, src, dst, overwrite) == Ok(c) && p in fs && p != dst
    ensures p in c.fs && c.fs[p] == fs[p]
  {
  }

  lemma ShiftPairs(pairs: seq<(PurePath, PurePath)>, k: nat)
    requires 0 < k < |pairs|
    requires forall j :: 0 <= j < k ==> pairs[j].1 != pairs[k].0 && pairs[j].1 != pairs[k].1
    ensures pairs[1..][k - 1] == pairs[k]
    ensures forall j :: 0 <= j < k - 1 ==> pairs[1..][j].1 != pairs[1..][k - 1].0 && pairs[1..][j].1 != pairs[1..][k - 1].1
  {
    forall j | 0 <= j < k - 1 ensures pairs[1..][j].1 != pairs[1..][k - 1].0 && pairs[1..][j].1 != pairs[1..][k - 1].1 {
      assert pairs[1..][j] == pairs[j + 1];
    }
  }

  /** With overwriting off, a run only adds files: a path is changed only if
      it did not exist and is some pair's destination. */
  lemma {:induction false} CopyAllOnlyAdds(fs: Fs, pairs: seq<(PurePath, PurePath)>)
    requires CopyAll(fs, pairs, false).Ok?
    ensures forall p :: p in CopyAll(fs, pairs, false).value.fs ==>
              p in fs || exists k :: 0 <= k < |pairs| && pairs[k].1 == p
    decreases |pairs|
  {
    if |pairs| > 0 {
      var c := CopyFile(fs, pairs[0].0, pairs[0].1, false).value;
      CopyAllOnlyAdds(c.fs, pairs[1..]);
      forall p | p in CopyAll(fs, pairs, false).value.fs
        ensures p in fs || exists k :: 0 <= k < |pairs| && pairs[k].1 == p
      {
        if p !in fs && p != pairs[0].1 {
          var k :| 0 <= k < |pairs[1..]| && pairs[1..][k].1 == p;
          assert pairs[k + 1].1 == p;
        }
      }
    }
  }
}
