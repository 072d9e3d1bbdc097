/** A stable sort by a small integer key (0, 1 or 2), as Python's
    `list.sort(key=...)` performs it when the key takes three values. The
    key is a parameter so that the sort is stated once, whatever it ranks. */
module RankSort {

  /** The items of rank `k`, in input order. */
  function WithRank<T>(items: seq<T>, rank: T -> nat, k: nat): (r: seq<T>)
    ensures forall i :: 0 <= i < |r| ==> rank(r[i]) == k
    ensures |r| <= |items|
  {
    if |items| == 0 then []
    else (if rank(items[0]) == k then [items[0]] else []) + WithRank(items[1..], rank, k)
  }

  ghost predicate RankSorted<T>(items: seq<T>, rank: T -> nat) {
    forall i, j :: 0 <= i < j < |items| ==> rank(items[i]) <= rank(items[j])
  }

  predicate RanksBelow3<T>(items: seq<T>, rank: T -> nat) {
    forall i :: 0 <= i < |items| ==> rank(items[i]) <= 2
  }

  /** The stable sort: ordered by rank and, within a rank, in input order. */
  function SortByRank<T>(items: seq<T>, rank: T -> nat): (r: seq<T>)
    requires RanksBelow3(items, rank)
    ensures RankSorted(r, rank)
    ensures forall k :: WithRank(r, rank, k) == WithRank(items, rank, k)
  {
    var r0, r1, r2 := WithRank(items, rank, 0), WithRank(items, rank, 1), WithRank(items, rank, 2);
    var r := r0 + r1 + r2;
    ConcatRankSorted(r0, r1, r2, rank);
    forall k ensures WithRank(r, rank, k) == WithRank(items, rank, k) {
      RegroupKeeps(items, rank, k);
    }
    r
  }

  /** Regrouping the items by rank keeps the items of each rank. */
  lemma RegroupKeeps<T>(items: seq<T>, rank: T -> nat, k: nat)
    requires RanksBelow3(items, rank)
    ensures WithRank(WithRank(items, rank, 0) + WithRank(items, rank, 1) + WithRank(items, rank, 2), rank, k)
            == WithRank(items, rank, k)
  {
    var r0, r1, r2 := WithRank(items, rank, 0), WithRank(items, rank, 1), WithRank(items, rank, 2);
    WithRankConcat(r0 + r1, r2, rank, k);
    WithRankConcat(r0, r1, rank, k);
    WithRankOfRanked(items, rank, 0, k);
    WithRankOfRanked(items, rank, 1, k);
    WithRankOfRanked(items, rank, 2, k);
    if k > 2 {
      NoHigherRank(items, rank, k);
    }
  }

  lemma ConcatRankSorted<T>(r0: seq<T>, r1: seq<T>, r2: seq<T>, rank: T -> nat)
    requires forall i :: 0 <= i < |r0| ==> rank(r0[i]) == 0
    requires forall i :: 0 <= i < |r1| ==> rank(r1[i]) == 1
    requires forall i :: 0 <= i < |r2| ==> rank(r2[i]) == 2
    ensures RankSorted(r0 + r1 + r2, rank)
  {
    var r := r0 + r1 + r2;
    forall i, j | 0 <= i < j < |r| ensures rank(r[i]) <= rank(r[j]) {
      var a, b := |r0|, |r1|;
      if i < a {
        assert r[i] == r0[i];
      } else if i < a + b {
        assert r[i] == r1[i - a];
        if j < a + b {
          assert r[j] == r1[j - a];
        } else {
          assert r[j] == r2[j - a - b];
        }
      } else {
        assert r[i] == r2[i - a - b];
        assert r[j] == r2[j - a - b];
      }
    }
  }

  lemma {:induction false} WithRankConcat<T>(a: seq<T>, b: seq<T>, rank: T -> nat, k: nat)
    ensures WithRank(a + b, rank, k) == WithRank(a, rank, k) + WithRank(b, rank, k)
    decreases |a|
  {
    if |a| > 0 {
      assert (a + b)[1..] == a[1..] + b;
      WithRankConcat(a[1..], b, rank, k);
    } else {
      assert a + b == b;
    }
  }

  lemma {:induction false} WithRankOfRanked<T>(items: seq<T>, rank: T -> nat, k: nat, k': nat)
    ensures WithRank(WithRank(items, rank, k), rank, k') == if k == k' then WithRank(items, rank, k) else []
    decreases |items|
  {
    if |items| > 0 {
      WithRankOfRanked(items[1..], rank, k, k');
      var head := if rank(items[0]) == k then [items[0]] else [];
      WithRankConcat(head, WithRank(items[1..], rank, k), rank, k');
    }
  }

  /** There are no items of a rank above 2. */
  lemma {:induction false} NoHigherRank<T>(items: seq<T>, rank: T -> nat, k: nat)
    requires RanksBelow3(items, rank) && k > 2
    ensures WithRank(items, rank, k) == []
    decreases |items|
  {
    if |items| > 0 {
      assert rank(items[0]) <= 2;
      NoHigherRank(items[1..], rank, k);
    }
  }

  /** A stable sort by rank has only one possible result: any list ordered by
      rank that keeps each rank's items in input order is `SortByRank`. */
  lemma StableSortUnique<T>(items: seq<T>, ys: seq<T>, rank: T -> nat)
    requires RanksBelow3(items, rank)
    requires RankSorted(ys, rank)
    requires forall k :: WithRank(ys, rank, k) == WithRank(items, rank, k)
    ensures ys == SortByRank(items, rank)
  {
    forall i | 0 <= i < |ys| ensures rank(ys[i]) <= 2 {
      var k := rank(ys[i]);
      MemberRanked(ys, rank, i);
      var j := RankedMember(items, rank, k, 0);
      assert rank(items[j]) == k;
    }
    SortedByRank(ys, rank);
  }

  /** Every item appears among the items of its rank. */
  lemma {:induction false} MemberRanked<T>(items: seq<T>, rank: T -> nat, i: nat)
    requires i < |items|
    ensures |WithRank(items, rank, rank(items[i]))| > 0
    decreases |items|
  {
    if i > 0 {
      assert items[1..][i - 1] == items[i];
      MemberRanked(items[1..], rank, i - 1);
    }
  }

  /** A list ordered by rank is its rank-0 items, then rank 1, then rank 2
      (when no rank exceeds 2). */
  lemma {:induction false} SortedByRank<T>(ys: seq<T>, rank: T -> nat)
    requires RankSorted(ys, rank) && RanksBelow3(ys, rank)
    ensures ys == WithRank(ys, rank, 0) + WithRank(ys, rank, 1) + WithRank(ys, rank, 2)
    decreases |ys|
  {
    if |ys| > 0 {
      var t := ys[1..];
      TailRanked(ys, rank);
      SortedByRank(t, rank);
      var k := rank(ys[0]);
      forall k': nat | k' < k ensures WithRank(t, rank, k') == [] {
        RanksAbove(t, rank, k, k');
      }
      PrependRanked(ys, rank);
    }
  }

  /** The tail of a list ordered by rank is ordered by rank, and ranks no
      lower than the head. */
  lemma TailRanked<T>(ys: seq<T>, rank: T -> nat)
    requires |ys| > 0 && RankSorted(ys, rank) && RanksBelow3(ys, rank)
    ensures RankSorted(ys[1..], rank) && RanksBelow3(ys[1..], rank)
    ensures forall i :: 0 <= i < |ys[1..]| ==> rank(ys[1..][i]) >= rank(ys[0])
  {
    var t := ys[1..];
    forall i, j | 0 <= i < j < |t| ensures rank(t[i]) <= rank(t[j]) {
      assert t[i] == ys[i + 1] && t[j] == ys[j + 1];
    }
    forall i | 0 <= i < |t| ensures rank(t[i]) <= 2 && rank(t[i]) >= rank(ys[0]) {
      assert t[i] == ys[i + 1];
    }
  }

  /** Putting the head back in front of a split tail whose ranks below the
      head's are empty. */
  lemma PrependRanked<T>(ys: seq<T>, rank: T -> nat)
    requires |ys| > 0 && rank(ys[0]) <= 2
    requires ys[1..] == WithRank(ys[1..], rank, 0) + WithRank(ys[1..], rank, 1) + WithRank(ys[1..], rank, 2)
    requires forall k': nat :: k' < rank(ys[0]) ==> WithRank(ys[1..], rank, k') == []
    ensures ys == WithRank(ys, rank, 0) + WithRank(ys, rank, 1) + WithRank(ys, rank, 2)
  {
    var y, t := ys[0], ys[1..];
    var t0, t1, t2 := WithRank(t, rank, 0), WithRank(t, rank, 1), WithRank(t, rank, 2);
    HeadRank(ys, rank, 0);
    HeadRank(ys, rank, 1);
    HeadRank(ys, rank, 2);
    assert rank(y) > 0 ==> t0 == [];
    assert rank(y) > 1 ==> t1 == [];
    PrependParts(ys, y, t, t0, t1, t2, WithRank(ys, rank, 0), WithRank(ys, rank, 1), WithRank(ys, rank, 2), rank(y));
  }

  /** The list algebra behind `PrependRanked`, free of `WithRank`. */
  lemma PrependParts<T>(ys: seq<T>, y: T, t: seq<T>, t0: seq<T>, t1: seq<T>, t2: seq<T>,
                        w0: seq<T>, w1: seq<T>, w2: seq<T>, k: nat)
    requires |ys| > 0 && y == ys[0] && t == ys[1..] && t == t0 + t1 + t2 && k <= 2
    requires w0 == (if k == 0 then [y] else []) + t0
    requires w1 == (if k == 1 then [y] else []) + t1
    requires w2 == (if k == 2 then [y] else []) + t2
    requires k > 0 ==> t0 == []
    requires k > 1 ==> t1 == []
    ensures ys == w0 + w1 + w2
  {
    assert ys == [y] + t;
  }

  lemma HeadRank<T>(ys: seq<T>, rank: T -> nat, k: nat)
    requires |ys| > 0
    ensures WithRank(ys, rank, k) == (if rank(ys[0]) == k then [ys[0]] else []) + WithRank(ys[1..], rank, k)
  {
  }

  /** No item ranks `k` when every item ranks above it. */
  lemma {:induction false} RanksAbove<T>(items: seq<T>, rank: T -> nat, m: nat, k: nat)
    requires forall i :: 0 <= i < |items| ==> rank(items[i]) >= m
    requires k < m
    ensures WithRank(items, rank, k) == []
    decreases |items|
  {
    if |items| > 0 {
      assert rank(items[0]) >= m;
      RanksAbove(items[1..], rank, m, k);
    }
  }

  /** Every item of rank `k` comes from the input. */
  lemma {:induction false} RankedMember<T>(items: seq<T>, rank: T -> nat, k: nat, i: nat) returns (j: nat)
    requires i < |WithRank(items, rank, k)|
    ensures j < |items| && items[j] == WithRank(items, rank, k)[i]
    decreases |items|
  {
    if rank(items[0]) == k && i == 0 {
      j := 0;
    } else if rank(items[0]) == k {
      var j' := RankedMember(items[1..], rank, k, i - 1);
      j := j' + 1;
    } else {
      var j' := RankedMember(items[1..], rank, k, i);
      j := j' + 1;
    }
  }
}
