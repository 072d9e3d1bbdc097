/** The dependency closure of `_find_recursive_deps` (shinylive/_deps.py):
    a work list that starts as the seed names, walks it with an index,
    drops names that do not resolve to a lock entry and appends each
    resolved entry's dependencies that are not yet listed.

    The bookkeeping is stated over an abstract dependency graph; `LockGraph`
    instantiates it with the lock's name resolution. */
module Closure {
  import opened Lock

  /** Which names resolve, what each resolvable name depends on, and a finite
      set holding every dependency (which bounds how far the list can grow). */
  datatype Graph = Graph(resolves: string -> bool, depends: string -> seq<string>, universe: set<string>)

  ghost predicate Bounded(g: Graph) {
    forall n, d :: d in g.depends(n) ==> d in g.universe
  }

  function LockGraph(lock: LockFile): (g: Graph)
    ensures Bounded(g)
    ensures forall n :: g.resolves(n) == Resolves(lock, n) && g.depends(n) == Depends(lock, n)
  {
    Graph(n => Resolves(lock, n), n => Depends(lock, n), AllDepends(lock))
  }

  /** One step of the work list reads the lock exactly as the graph does. */
  lemma LockGraphStep(lock: LockFile, name: string)
    ensures var key := DepNameToDepKey(lock, name);
      && (LockGraph(lock).resolves(name) <==> key.Some? && key.value in lock.packages)
      && (key.Some? && key.value in lock.packages ==>
            LockGraph(lock).depends(name) == lock.packages[key.value].depends)
  {
  }

  ghost predicate Distinct(xs: seq<string>) {
    forall i, j :: 0 <= i < j < |xs| ==> xs[i] != xs[j]
  }

  /** `xs.remove(x)`: drop the first occurrence of `x`. */
  function RemoveFirst(xs: seq<string>, x: string): (r: seq<string>)
    requires x in xs
    ensures |r| == |xs| - 1
  {
    if xs[0] == x then xs[1..] else [xs[0]] + RemoveFirst(xs[1..], x)
  }

  /** When the first occurrence of `x` is at `i`, removing it drops index `i`. */
  lemma {:induction false} RemoveFirstAt(xs: seq<string>, x: string, i: nat)
    requires i < |xs| && xs[i] == x && x !in xs[..i]
    ensures RemoveFirst(xs, x) == xs[..i] + xs[i + 1..]
    decreases i
  {
    if i > 0 {
      assert xs[0] != x by { assert xs[..i][0] == xs[0]; }
      assert xs[1..][..i - 1] == xs[..i][1..];
      RemoveFirstAt(xs[1..], x, i - 1);
      assert xs[..i] + xs[i + 1..] == [xs[0]] + (xs[1..][..i - 1] + xs[1..][i..]);
    }
  }

  /** `set(deps).difference(excluded)` as a list: each dependency that is not
      excluded, once. Python iterates the set in an unspecified order; this
      lists the names in order of first appearance. */
  function NewNames(deps: seq<string>, excluded: seq<string>): (r: seq<string>)
    ensures Distinct(r)
    ensures forall x :: x in r <==> x in deps && x !in excluded
    decreases |deps|
  {
    if |deps| == 0 then []
    else if deps[0] in excluded then NewNames(deps[1..], excluded)
    else
      var rest := NewNames(deps[1..], excluded + [deps[0]]);
      assert deps[0] !in rest;
      assert forall x :: x in deps <==> x == deps[0] || x in deps[1..];
      [deps[0]] + rest
  }

  /** The seeds that resolve, in seed order. */
  function ResolvableSeeds(g: Graph, seeds: seq<string>): (r: seq<string>)
    ensures forall x :: x in r <==> x in seeds && g.resolves(x)
    ensures |r| <= |seeds|
  {
    if |seeds| == 0 then []
    else
      var init := ResolvableSeeds(g, seeds[..|seeds| - 1]);
      var x := seeds[|seeds| - 1];
      assert forall y :: y in seeds <==> y in seeds[..|seeds| - 1] || y == x;
      if g.resolves(x) then init + [x] else init
  }

  lemma ResolvableSeedsStep(g: Graph, seeds: seq<string>, k: nat)
    requires k < |seeds|
    ensures ResolvableSeeds(g, seeds[..k + 1]) ==
            ResolvableSeeds(g, seeds[..k]) + (if g.resolves(seeds[k]) then [seeds[k]] else [])
  {
    assert seeds[..k + 1][..k] == seeds[..k];
  }

  lemma {:induction false} ResolvableSeedsDistinct(g: Graph, seeds: seq<string>)
    requires Distinct(seeds)
    ensures Distinct(ResolvableSeeds(g, seeds))
    decreases |seeds|
  {
    if |seeds| > 0 {
      ResolvableSeedsDistinct(g, seeds[..|seeds| - 1]);
    }
  }

  // ---------------------------------------------------------------------
  // Loop invariant of the work list, in six parts
  // ---------------------------------------------------------------------

  /** The first `s` entries are the resolvable consumed seeds (the first
      `sk`) followed by the unconsumed seeds; while seeds remain, the index
      sits on the first unconsumed one. */
  ghost predicate SeedPart(g: Graph, seeds: seq<string>, names: seq<string>, i: int, s: int, sk: int) {
    && 0 <= sk <= |seeds|
    && 0 <= i <= |names| && 0 <= s <= |names|
    && s == |ResolvableSeeds(g, seeds[..sk])| + (|seeds| - sk)
    && names[..s] == ResolvableSeeds(g, seeds[..sk]) + seeds[sk..]
    && (sk < |seeds| ==> i == |ResolvableSeeds(g, seeds[..sk])|)
    && (sk == |seeds| ==> s <= i)
  }

  ghost predicate ProcessedResolve(g: Graph, names: seq<string>, i: int) {
    forall j :: 0 <= j < i <= |names| ==> g.resolves(names[j])
  }

  /** Appended entries are listed once. */
  ghost predicate TailDistinct(names: seq<string>, s: int) {
    forall j, k :: 0 <= s <= j < |names| && 0 <= k < |names| && j != k ==> names[j] != names[k]
  }

  ghost predicate TailWithin(g: Graph, names: seq<string>, s: int) {
    forall j :: 0 <= s <= j < |names| ==> names[j] in g.universe
  }

  /** Every resolvable dependency of a processed entry is listed. */
  ghost predicate ProcessedClosed(g: Graph, names: seq<string>, i: int) {
    forall j, d :: 0 <= j < i <= |names| && d in g.depends(names[j]) && g.resolves(d) ==> d in names
  }

  /** Entry `j` is a dependency of an entry before it and before `i`. */
  ghost predicate DerivedAt(g: Graph, names: seq<string>, i: int, j: int)
    requires 0 <= j < |names|
  {
    exists k :: 0 <= k < i && k < j && names[j] in g.depends(names[k])
  }

  /** Every appended entry depends from a processed entry before it. */
  ghost predicate TailDerived(g: Graph, names: seq<string>, i: int, s: int) {
    forall j :: 0 <= s <= j < |names| ==> DerivedAt(g, names, i, j)
  }

  ghost predicate Inv(g: Graph, seeds: seq<string>, names: seq<string>, i: int, s: int, sk: int) {
    && SeedPart(g, seeds, names, i, s, sk)
    && ProcessedResolve(g, names, i)
    && TailDistinct(names, s)
    && TailWithin(g, names, s)
    && ProcessedClosed(g, names, i)
    && TailDerived(g, names, i, s)
  }

  lemma InvInit(g: Graph, seeds: seq<string>)
    ensures Inv(g, seeds, seeds, 0, |seeds|, 0)
  {
    assert seeds[..0] == [];
    assert seeds[0..] == seeds;
  }

  /** A list without repeats, drawn from a set, is no longer than the set. */
  lemma {:induction false} DistinctWithin(xs: seq<string>, S: set<string>)
    requires Distinct(xs)
    requires forall j :: 0 <= j < |xs| ==> xs[j] in S
    ensures |xs| <= |S|
    decreases |xs|
  {
    if |xs| > 0 {
      var x := xs[|xs| - 1];
      var init := xs[..|xs| - 1];
      assert x !in init;
      DistinctWithin(init, S - {x});
    }
  }

  /** The list never outgrows the seeds plus the graph's universe. */
  lemma InvBound(g: Graph, names: seq<string>, s: int)
    requires 0 <= s <= |names|
    requires TailDistinct(names, s) && TailWithin(g, names, s)
    ensures |names| - s <= |g.universe|
  {
    var tail := names[s..];
    forall a, b | 0 <= a < b < |tail| ensures tail[a] != tail[b] {
      assert tail[a] == names[s + a] && tail[b] == names[s + b];
    }
    forall j | 0 <= j < |tail| ensures tail[j] in g.universe {
      assert tail[j] == names[s + j];
    }
    DistinctWithin(tail, g.universe);
  }

  // ---------------------------------------------------------------------
  // Dropping an unresolvable entry
  // ---------------------------------------------------------------------

  function Drop(names: seq<string>, i: nat): (r: seq<string>)
    requires i < |names|
    ensures |r| == |names| - 1
    ensures forall j :: 0 <= j < |r| ==> r[j] == if j < i then names[j] else names[j + 1]
  {
    names[..i] + names[i + 1..]
  }

  lemma RemoveSeed(g: Graph, seeds: seq<string>, names: seq<string>, i: nat, s: int, sk: int)
    requires SeedPart(g, seeds, names, i, s, sk)
    requires i < |names| && !g.resolves(names[i])
    ensures SeedPart(g, seeds, Drop(names, i), i, if i < s then s - 1 else s, if i < s then sk + 1 else sk)
  {
    var names' := Drop(names, i);
    if i < s {
      var rs := ResolvableSeeds(g, seeds[..sk]);
      assert names[..s][i] == names[i];
      assert names[i] == seeds[sk];
      ResolvableSeedsStep(g, seeds, sk);
      assert names'[..s - 1] == names[..i] + names[i + 1..s];
      assert names[..i] == names[..s][..i] == rs;
      assert names[i + 1..s] == names[..s][i + 1..] == seeds[sk + 1..];
    } else {
      assert names'[..s] == names[..s];
    }
  }

  lemma RemoveTail(g: Graph, names: seq<string>, i: nat, s: int)
    requires 0 <= s <= |names| && i < |names|
    requires TailDistinct(names, s) && TailWithin(g, names, s) && TailDerived(g, names, i, s)
    ensures TailDistinct(Drop(names, i), if i < s then s - 1 else s)
    ensures TailWithin(g, Drop(names, i), if i < s then s - 1 else s)
    ensures TailDerived(g, Drop(names, i), i, if i < s then s - 1 else s)
  {
    var names' := Drop(names, i);
    var s' := if i < s then s - 1 else s;
    forall j | s' <= j < |names'| ensures DerivedAt(g, names', i, j) {
      var J := if j < i then j else j + 1;
      assert s <= J < |names| && names'[j] == names[J];
      assert DerivedAt(g, names, i, J);
      var k :| 0 <= k < i && k < J && names[J] in g.depends(names[k]);
      assert names'[k] == names[k];
      assert 0 <= k < i && k < j && names'[j] in g.depends(names'[k]);
    }
  }

  lemma RemoveProcessed(g: Graph, names: seq<string>, i: nat)
    requires i < |names| && !g.resolves(names[i])
    requires ProcessedResolve(g, names, i) && ProcessedClosed(g, names, i)
    ensures names[i] !in names[..i]
    ensures ProcessedResolve(g, Drop(names, i), i)
    ensures ProcessedClosed(g, Drop(names, i), i)
  {
    var names' := Drop(names, i);
    forall j, d | 0 <= j < i && d in g.depends(names'[j]) && g.resolves(d) ensures d in names' {
      assert names'[j] == names[j];
      var m :| 0 <= m < |names| && names[m] == d;
      if m < i { assert names'[m] == d; } else { assert names'[m - 1] == d; }
    }
  }

  lemma InvRemove(g: Graph, seeds: seq<string>, names: seq<string>, i: nat, s: int, sk: int)
    requires Inv(g, seeds, names, i, s, sk)
    requires i < |names| && !g.resolves(names[i])
    ensures names[i] !in names[..i]
    ensures Inv(g, seeds, Drop(names, i), i, if i < s then s - 1 else s, if i < s then sk + 1 else sk)
  {
    RemoveSeed(g, seeds, names, i, s, sk);
    RemoveTail(g, names, i, s);
    RemoveProcessed(g, names, i);
  }

  // ---------------------------------------------------------------------
  // Appending the new dependencies of a resolvable entry
  // ---------------------------------------------------------------------

  lemma AppendSeed(g: Graph, seeds: seq<string>, names: seq<string>, added: seq<string>, i: nat, s: int, sk: int)
    requires SeedPart(g, seeds, names, i, s, sk)
    requires i < |names| && g.resolves(names[i])
    ensures SeedPart(g, seeds, names + added, i + 1, s, if i < s then sk + 1 else sk)
  {
    if i < s {
      assert names[..s][i] == names[i];
      assert names[i] == seeds[sk];
      ResolvableSeedsStep(g, seeds, sk);
      assert seeds[sk..] == [seeds[sk]] + seeds[sk + 1..];
    }
    assert (names + added)[..s] == names[..s];
  }

  lemma AppendTail(g: Graph, names: seq<string>, i: nat, s: int)
    requires 0 <= s <= |names| && i < |names|
    requires TailDistinct(names, s) && TailWithin(g, names, s) && TailDerived(g, names, i, s)
    requires Bounded(g)
    ensures var names' := names + NewNames(g.depends(names[i]), names);
      TailDistinct(names', s) && TailWithin(g, names', s) && TailDerived(g, names', i + 1, s)
  {
    var added := NewNames(g.depends(names[i]), names);
    var names' := names + added;
    forall j | s <= j < |names'| ensures names'[j] in g.universe {
      if j >= |names| {
        assert names'[j] == added[j - |names|];
      }
    }
    forall j, k | s <= j < |names'| && 0 <= k < |names'| && j != k ensures names'[j] != names'[k] {
      if j >= |names| && k >= |names| {
        assert names'[j] == added[j - |names|] && names'[k] == added[k - |names|];
      } else if j >= |names| {
        assert names'[j] == added[j - |names|];
        assert names'[k] in names;
      } else if k >= |names| {
        assert names'[k] == added[k - |names|];
        assert names'[j] in names;
      }
    }
    var next := i + 1;
    forall j | s <= j < |names'| ensures DerivedAt(g, names', next, j) {
      if j >= |names| {
        assert names'[j] == added[j - |names|];
        assert names'[i] == names[i];
      } else {
        assert DerivedAt(g, names, i, j);
        var k :| 0 <= k < i && k < j && names[j] in g.depends(names[k]);
        assert names'[k] == names[k];
      }
    }
  }

  lemma AppendProcessed(g: Graph, names: seq<string>, i: nat)
    requires i < |names| && g.resolves(names[i])
    requires ProcessedResolve(g, names, i) && ProcessedClosed(g, names, i)
    ensures var names' := names + NewNames(g.depends(names[i]), names);
      ProcessedResolve(g, names', i + 1) && ProcessedClosed(g, names', i + 1)
  {
    var added := NewNames(g.depends(names[i]), names);
    var names' := names + added;
    forall j, d | 0 <= j < i + 1 && d in g.depends(names'[j]) && g.resolves(d) ensures d in names' {
      assert names'[j] == names[j];
      if j < i {
        assert d in names;
      } else if d !in names {
        assert d in added;
      }
    }
  }

  lemma InvAppend(g: Graph, seeds: seq<string>, names: seq<string>, i: nat, s: int, sk: int)
    requires Inv(g, seeds, names, i, s, sk) && Bounded(g)
    requires i < |names| && g.resolves(names[i])
    ensures Inv(g, seeds, names + NewNames(g.depends(names[i]), names), i + 1,
                s, if i < s then sk + 1 else sk)
  {
    AppendSeed(g, seeds, names, NewNames(g.depends(names[i]), names), i, s, sk);
    AppendTail(g, names, i, s);
    AppendProcessed(g, names, i);
  }

  // ---------------------------------------------------------------------
  // The closure as a set
  // ---------------------------------------------------------------------

  /** Every resolvable dependency of a member is a member. */
  ghost predicate Closed(g: Graph, S: set<string>) {
    forall n, d :: n in S && d in g.depends(n) && g.resolves(d) ==> d in S
  }

  ghost predicate CoversSeeds(g: Graph, seeds: set<string>, S: set<string>) {
    forall n :: n in seeds && g.resolves(n) ==> n in S
  }

  /** `R` is the least set of resolvable names that holds every resolvable
      seed and is closed under dependencies: exactly the resolvable seeds and
      their transitive resolvable dependencies. */
  ghost predicate IsLeastClosure(g: Graph, seeds: set<string>, R: set<string>) {
    && (forall n :: n in R ==> g.resolves(n))
    && CoversSeeds(g, seeds, R)
    && Closed(g, R)
    && (forall S :: Closed(g, S) && CoversSeeds(g, seeds, S) ==> R <= S)
  }

  /** Entries that are resolvable seeds or dependencies of earlier entries
      lie in every closed set covering the seeds. */
  lemma {:induction false} DerivedWithin(g: Graph, seeds: seq<string>, names: seq<string>, S: set<string>, j: nat)
    requires forall n :: n in names ==> g.resolves(n)
    requires |ResolvableSeeds(g, seeds)| <= |names|
    requires names[..|ResolvableSeeds(g, seeds)|] == ResolvableSeeds(g, seeds)
    requires forall j :: |ResolvableSeeds(g, seeds)| <= j < |names| ==>
               exists k :: 0 <= k < j && names[j] in g.depends(names[k])
    requires Closed(g, S) && CoversSeeds(g, (set x | x in seeds), S)
    requires j < |names|
    ensures names[j] in S
    decreases j
  {
    var rs := ResolvableSeeds(g, seeds);
    if j < |rs| {
      assert names[j] == rs[j];
      assert rs[j] in rs;
    } else {
      var k :| 0 <= k < j && names[j] in g.depends(names[k]);
      DerivedWithin(g, seeds, names, S, k);
      assert names[j] in names;
    }
  }

  /** What the finished work list is: the resolvable seeds first, in seed
      order, then dependencies each derived from an earlier entry and listed
      once; every entry resolves and the list is closed under dependencies. */
  ghost predicate IsRecursiveDeps(g: Graph, seeds: seq<string>, names: seq<string>) {
    var rs := ResolvableSeeds(g, seeds);
    && (forall n :: n in names ==> g.resolves(n))
    && (forall j, d :: 0 <= j < |names| && d in g.depends(names[j]) && g.resolves(d) ==> d in names)
    && |rs| <= |names|
    && names[..|rs|] == rs
    && (forall j :: |rs| <= j < |names| ==> exists k :: 0 <= k < j && names[j] in g.depends(names[k]))
    && (forall j, k :: |rs| <= j < |names| && 0 <= k < |names| && j != k ==> names[j] != names[k])
  }

  lemma FinishedList(g: Graph, seeds: seq<string>, names: seq<string>, s: int)
    requires Inv(g, seeds, names, |names|, s, |seeds|)
    ensures IsRecursiveDeps(g, seeds, names)
  {
    assert seeds[..|seeds|] == seeds;
    assert seeds[|seeds|..] == [];
    assert s == |ResolvableSeeds(g, seeds)|;
    forall n | n in names ensures g.resolves(n) {
      var j :| 0 <= j < |names| && names[j] == n;
    }
    forall j | s <= j < |names| ensures exists k :: 0 <= k < j && names[j] in g.depends(names[k]) {
      assert DerivedAt(g, names, |names|, j);
    }
  }

  /** A finished list is the least closure of its seeds, and has no repeats
      when the seeds have none. */
  lemma {:induction false} RecursiveDepsIsLeastClosure(g: Graph, seeds: seq<string>, names: seq<string>)
    requires IsRecursiveDeps(g, seeds, names)
    ensures IsLeastClosure(g, (set x | x in seeds), (set x | x in names))
    ensures Distinct(seeds) ==> Distinct(names)
  {
    var rs := ResolvableSeeds(g, seeds);
    if Distinct(seeds) {
      ResolvableSeedsDistinct(g, seeds);
      forall a, b | 0 <= a < b < |names| ensures names[a] != names[b] {
        if b < |rs| {
          assert names[..|rs|][a] == names[a] && names[..|rs|][b] == names[b];
        }
      }
    }
    var R := set x | x in names;
    var seedSet := set x | x in seeds;
    forall S | Closed(g, S) && CoversSeeds(g, seedSet, S) ensures R <= S {
      forall n | n in R ensures n in S {
        var j :| 0 <= j < |names| && names[j] == n;
        DerivedWithin(g, seeds, names, S, j);
      }
    }
    forall n | n in seedSet && g.resolves(n) ensures n in R {
      assert n in rs;
      var j :| 0 <= j < |rs| && rs[j] == n;
      assert names[..|rs|][j] == n;
    }
  }

  /** `_find_recursive_deps(seeds)` (shinylive/_deps.py) over the lock's
      name resolution; `LockGraphStep` shows the graph answers exactly the
      lookups the loop makes. */
  method FindRecursiveDeps(lock: LockFile, seeds: seq<string>) returns (names: seq<string>)
    ensures IsRecursiveDeps(LockGraph(lock), seeds, names)
    ensures IsLeastClosure(LockGraph(lock), (set x | x in seeds), (set x | x in names))
    ensures Distinct(seeds) ==> Distinct(names)
  {
    names := Walk(LockGraph(lock), seeds);
  }

  /** One turn of the loop: an unresolvable name is removed where it stands;
      a resolvable one is kept and its new dependencies are appended. */
  method Step(g: Graph, seeds: seq<string>, names: seq<string>, i: nat, ghost s: int, ghost sk: int)
    returns (names': seq<string>, i': nat, ghost s': int, ghost sk': int)
    requires Bounded(g) && Inv(g, seeds, names, i, s, sk) && i < |names|
    ensures Inv(g, seeds, names', i', s', sk')
    ensures !g.resolves(names[i]) ==> i' == i && names' == names[..i] + names[i + 1..]
    ensures g.resolves(names[i]) ==> i' == i + 1 && names[..i + 1] <= names'
  {
    var name := names[i];
    if !g.resolves(name) {
      InvRemove(g, seeds, names, i, s, sk);
      RemoveFirstAt(names, name, i);
      names' := RemoveFirst(names, name);
      i' := i;
      s', sk' := if i < s then s - 1 else s, if i < s then sk + 1 else sk;
    } else {
      InvAppend(g, seeds, names, i, s, sk);
      names' := names + NewNames(g.depends(name), names);
      i' := i + 1;
      s', sk' := s, if i < s then sk + 1 else sk;
    }
  }

  /** The work-list loop. Seeds that do not resolve are dropped (the first
      occurrence, as `list.remove` does), never fatal; the resolvable seeds
      stay first in their own order; every appended name is a dependency of
      an earlier entry and is listed once; and the listed names are exactly
      the least dependency-closed set over the resolvable seeds. */
  method Walk(g: Graph, seeds: seq<string>) returns (names: seq<string>)
    requires Bounded(g)
    ensures IsRecursiveDeps(g, seeds, names)
    ensures IsLeastClosure(g, (set x | x in seeds), (set x | x in names))
    ensures Distinct(seeds) ==> Distinct(names)
  {
    names := seeds;
    var i := 0;
    ghost var s := |seeds|;
    ghost var sk := 0;
    InvInit(g, seeds);
    while i < |names|
      invariant Inv(g, seeds, names, i, s, sk)
      decreases |seeds| + |g.universe| - i, |names| - i
    {
      InvBound(g, names, s);
      names, i, s, sk := Step(g, seeds, names, i, s, sk);
    }
    FinishedList(g, seeds, names, s);
    RecursiveDepsIsLeastClosure(g, seeds, names);
  }

  /** There is only one least closure of a seed set. */
  lemma LeastClosureUnique(g: Graph, seeds: set<string>, R1: set<string>, R2: set<string>)
    requires IsLeastClosure(g, seeds, R1) && IsLeastClosure(g, seeds, R2)
    ensures R1 == R2
  {
    assert R1 <= R2;
    assert R2 <= R1;
  }

  /** Closing a closure again changes nothing (as sets). */
  lemma ClosureIdempotent(g: Graph, seeds: set<string>, R: set<string>, R2: set<string>)
    requires IsLeastClosure(g, seeds, R) && IsLeastClosure(g, R, R2)
    ensures R2 == R
  {
    assert CoversSeeds(g, R, R);
    assert R2 <= R;
    assert CoversSeeds(g, seeds, R2) by {
      forall n | n in seeds && g.resolves(n) ensures n in R2 {
        assert n in R;
      }
    }
    assert R <= R2;
  }

  /** A two-package cycle a -> b -> a closes to exactly {a, b}: a cycle in
      the dependencies neither loops nor loses a member. */
  lemma CycleClosure(R: set<string>)
    requires IsLeastClosure(CycleGraph(), {"a"}, R)
    ensures R == {"a", "b"}
  {
    var g := CycleGraph();
    var ab: set<string> := {"a", "b"};
    assert Closed(g, ab);
    assert CoversSeeds(g, {"a"}, ab);
    assert R <= ab;
    assert "a" in R;
    assert g.depends("a") == ["b"];
    assert "b" in R;
  }

  function CycleGraph(): Graph {
    Graph(n => n == "a" || n == "b",
          n => if n == "a" then ["b"] else if n == "b" then ["a"] else [],
          {"a", "b"})
  }
}
