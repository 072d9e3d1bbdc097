/** Text helpers shared by the model: the handful of Python `str` operations
    the modelled code relies on, each with a contract that characterises it
    independently of how it is computed. Characters are Unicode code points
    (Dafny `char`); lower-casing is ASCII only. */
module Strings {

  /** Python's `str.isspace` for one code point. */
  predicate IsSpace(c: char) {
    c == ' ' || ('\t' <= c <= '\r') || ('\U{1C}' <= c <= '\U{1F}')
    || c == '\U{85}' || c == '\U{A0}' || c == '\U{1680}'
    || ('\U{2000}' <= c <= '\U{200A}') || c == '\U{2028}' || c == '\U{2029}'
    || c == '\U{202F}' || c == '\U{205F}' || c == '\U{3000}'
  }

  predicate IsUpperAscii(c: char) { 'A' <= c <= 'Z' }

  function LowerChar(c: char): char {
    if IsUpperAscii(c) then (c as int + 32) as char else c
  }

  /** `str.lower` restricted to ASCII letters. */
  function Lower(s: string): (r: string)
    ensures |r| == |s|
    ensures forall i :: 0 <= i < |s| ==> r[i] == LowerChar(s[i])
    ensures forall i :: 0 <= i < |r| ==> !IsUpperAscii(r[i])
  {
    seq(|s|, i requires 0 <= i < |s| => LowerChar(s[i]))
  }

  predicate StartsWith(s: string, prefix: string) {
    |prefix| <= |s| && s[..|prefix|] == prefix
  }

  predicate EndsWith(s: string, suffix: string) {
    |suffix| <= |s| && s[|s| - |suffix|..] == suffix
  }

  /** A string starts with its own first part. */
  lemma StartsWithConcat(a: string, b: string)
    ensures StartsWith(a + b, a)
  {
    assert (a + b)[..|a|] == a;
  }

  lemma StartsWithExtend(s: string, p: string, t: string)
    requires StartsWith(s, p)
    ensures StartsWith(s + t, p)
  {
    assert (s + t)[..|p|] == s[..|p|];
  }

  lemma EndsWithConcat(a: string, b: string)
    ensures EndsWith(a + b, b)
  {
    assert (a + b)[|a|..] == b;
  }

  /** `t in s` for strings: `t` occurs somewhere in `s`. */
  predicate Contains(s: string, t: string)
    decreases |s|
  {
    StartsWith(s, t) || (|s| > 0 && Contains(s[1..], t))
  }

  lemma {:induction false} ContainsAt(s: string, t: string, i: nat)
    requires i + |t| <= |s| && s[i..i + |t|] == t
    ensures Contains(s, t)
    decreases i
  {
    if i > 0 {
      assert s[1..][i - 1..i - 1 + |t|] == s[i..i + |t|];
      ContainsAt(s[1..], t, i - 1);
    }
  }

  lemma {:induction false} ContainsWitness(s: string, t: string) returns (i: nat)
    requires Contains(s, t)
    ensures i + |t| <= |s| && s[i..i + |t|] == t
    decreases |s|
  {
    if StartsWith(s, t) {
      i := 0;
    } else {
      var j := ContainsWitness(s[1..], t);
      i := j + 1;
      assert s[i..i + |t|] == s[1..][j..j + |t|];
    }
  }

  /** An occurrence inside the middle piece is an occurrence in the whole. */
  lemma ContainsInside(a: string, x: string, y: string, t: string)
    requires Contains(x, t)
    ensures Contains(a + x + y, t)
  {
    var i := ContainsWitness(x, t);
    assert (a + x + y)[|a| + i..|a| + i + |t|] == x[i..i + |t|];
    ContainsAt(a + x + y, t, |a| + i);
  }

  /** A string without the character `c` contains no string holding `c`. */
  lemma {:induction false} ContainsNeedsChar(s: string, t: string, k: nat, c: char)
    requires k < |t| && t[k] == c && c !in s
    ensures !Contains(s, t)
    decreases |s|
  {
    if |t| <= |s| {
      assert s[..|t|][k] == s[k];
      assert s[k] != c;
      assert s[..|t|] != t;
    }
    if |s| > 0 {
      ContainsNeedsChar(s[1..], t, k, c);
    }
  }

  /** Index of the first occurrence of the non-empty string `t` in `s`, or
      `|s|` when there is none (`str.find`, with `|s|` for -1). */
  function Find(s: string, t: string): (i: nat)
    requires |t| > 0
    ensures i <= |s|
    ensures i < |s| ==> StartsWith(s[i..], t)
    ensures forall j :: 0 <= j < i ==> !StartsWith(s[j..], t)
    ensures i == |s| <==> !Contains(s, t)
    decreases |s|
  {
    if StartsWith(s, t) then 0
    else if |s| == 0 then 0
    else
      var k := Find(s[1..], t);
      FindStep(s, t, k);
      1 + k
  }

  lemma FindStep(s: string, t: string, k: nat)
    requires |s| > 0 && !StartsWith(s, t) && k <= |s| - 1
    requires k < |s| - 1 ==> StartsWith(s[1..][k..], t)
    requires forall j :: 0 <= j < k ==> !StartsWith(s[1..][j..], t)
    ensures 1 + k < |s| ==> StartsWith(s[1 + k..], t)
    ensures forall j :: 0 <= j < 1 + k ==> !StartsWith(s[j..], t)
  {
    assert s[1 + k..] == s[1..][k..];
    forall j | 0 <= j < 1 + k ensures !StartsWith(s[j..], t) {
      if j > 0 {
        assert s[j..] == s[1..][j - 1..];
      }
    }
  }

  /** An occurrence of `t` whose last character `y` lacks lies within `x`. */
  lemma ContainsBeforeCut(x: string, y: string, t: string)
    requires |t| > 0 && t[|t| - 1] !in y
    ensures Contains(x + y, t) ==> Contains(x, t)
  {
    if Contains(x + y, t) {
      var s := x + y;
      var i := ContainsWitness(s, t);
      var last := i + |t| - 1;
      assert s[last] == s[i..i + |t|][|t| - 1];
      assert forall j :: |x| <= j < |s| ==> s[j] == y[j - |x|];
      assert last < |x|;
      assert x[i..i + |t|] == s[i..i + |t|];
      ContainsAt(x, t, i);
    }
  }

  /** When the character `t[k]` occurs in `s` only at index `p`, every
      occurrence of `t` in `s` is the one that puts `t[k]` there. */
  lemma AnchoredOccurrence(s: string, t: string, k: nat, p: nat)
    requires k < |t| && p < |s|
    requires forall j :: 0 <= j < |s| && s[j] == t[k] ==> j == p
    ensures Contains(s, t) ==> k <= p && p - k + |t| <= |s| && s[p - k..p - k + |t|] == t
  {
    if Contains(s, t) {
      var i := ContainsWitness(s, t);
      assert s[i + k] == s[i..i + |t|][k];
    }
  }

  /** `c` occurs in `a + [c] + b` only between the two when neither holds it. */
  lemma OnlyAt(a: string, c: char, b: string)
    requires c !in a && c !in b
    ensures forall j :: 0 <= j < |a + [c] + b| && (a + [c] + b)[j] == c ==> j == |a|
  {
    var s := a + [c] + b;
    assert forall j :: 0 <= j < |a| ==> s[j] == a[j];
    assert forall j :: |a| < j < |s| ==> s[j] == b[j - |a| - 1];
  }

  /** Index of the first occurrence of `c` in `s`, or `|s|` when there is none. */
  function IndexOf(s: string, c: char): (k: nat)
    ensures k <= |s|
    ensures c !in s[..k]
    ensures k < |s| ==> s[k] == c
    ensures k == |s| <==> c !in s
  {
    if |s| == 0 then 0
    else if s[0] == c then 0
    else 1 + IndexOf(s[1..], c)
  }

  /** `list.index(x)`: the first position of `x`. */
  function FirstIndex<T(==)>(xs: seq<T>, x: T): (i: nat)
    requires x in xs
    ensures i < |xs| && xs[i] == x && x !in xs[..i]
  {
    if xs[0] == x then 0 else 1 + FirstIndex(xs[1..], x)
  }

  /** `sep.join(parts)`. */
  function Join(parts: seq<string>, sep: string): (r: string)
  {
    if |parts| == 0 then ""
    else if |parts| == 1 then parts[0]
    else parts[0] + sep + Join(parts[1..], sep)
  }

  /** A character that is in no piece and not in the separator is not in
      the join. */
  lemma {:induction false} JoinAvoids(parts: seq<string>, sep: string, c: char)
    requires c !in sep && forall i :: 0 <= i < |parts| ==> c !in parts[i]
    ensures c !in Join(parts, sep)
    decreases |parts|
  {
    if |parts| > 1 {
      JoinAvoids(parts[1..], sep, c);
    }
  }

  /** Joining two non-empty lists of pieces puts one separator between the
      two joins. */
  lemma {:induction false} JoinAppend(a: seq<string>, b: seq<string>, sep: string)
    requires |a| > 0 && |b| > 0
    ensures Join(a + b, sep) == Join(a, sep) + sep + Join(b, sep)
    decreases |a|
  {
    if |a| == 1 {
      assert (a + b)[1..] == b;
    } else {
      assert (a + b)[1..] == a[1..] + b;
      JoinAppend(a[1..], b, sep);
    }
  }

  /** `s.split(c)` for a one-character separator: the pieces between the
      occurrences of `c`, empty pieces included. */
  function Split(s: string, c: char): (r: seq<string>)
    ensures |r| >= 1
    ensures forall i :: 0 <= i < |r| ==> c !in r[i]
    decreases |s|
  {
    var k := IndexOf(s, c);
    if k == |s| then [s] else [s[..k]] + Split(s[k + 1..], c)
  }

  /** Splitting and joining on the same separator are inverse: joining the
      pieces gives the original text back. */
  lemma {:induction false} JoinSplit(s: string, c: char)
    ensures Join(Split(s, c), [c]) == s
    decreases |s|
  {
    var k := IndexOf(s, c);
    if k < |s| {
      var rest := Split(s[k + 1..], c);
      JoinSplit(s[k + 1..], c);
      JoinCons(s[..k], rest, [c]);
      CutAt(s, k);
    }
  }

  lemma JoinCons(x: string, rest: seq<string>, sep: string)
    requires |rest| >= 1
    ensures Join([x] + rest, sep) == x + sep + Join(rest, sep)
  {
    assert ([x] + rest)[1..] == rest;
  }

  lemma DropFront(a: string, b: string, c: string)
    ensures (a + b + c)[|a|..] == b + c
  {
  }

  lemma HeadTail<T>(xs: seq<T>)
    requires |xs| > 0
    ensures xs == [xs[0]] + xs[1..]
  {
  }

  lemma CutAt(s: string, k: nat)
    requires k < |s|
    ensures s == s[..k] + [s[k]] + s[k + 1..]
  {
  }

  /** ... and pieces that do not hold the separator come back from a join unchanged. */
  lemma {:induction false} SplitJoin(parts: seq<string>, c: char)
    requires |parts| >= 1
    requires forall i :: 0 <= i < |parts| ==> c !in parts[i]
    ensures Split(Join(parts, [c]), c) == parts
    decreases |parts|
  {
    if |parts| == 1 {
      assert IndexOf(parts[0], c) == |parts[0]|;
    } else {
      var tail := Join(parts[1..], [c]);
      assert Join(parts, [c]) == parts[0] + [c] + tail;
      SplitAppend(parts[0], tail, c);
      SplitJoin(parts[1..], c);
      HeadTail(parts);
    }
  }

  lemma {:induction false} IndexOfAfterFree(a: string, b: string, c: char)
    requires c !in a && |b| > 0 && b[0] == c
    ensures IndexOf(a + b, c) == |a|
    decreases |a|
  {
    if |a| > 0 {
      assert (a + b)[1..] == a[1..] + b;
      IndexOfAfterFree(a[1..], b, c);
    } else {
      assert a + b == b;
    }
  }

  /** Splitting `a + [c] + b` splits at the first separator, so the pieces of
      the two halves are concatenated when `a` holds none. */
  lemma {:induction false} SplitAppend(a: string, b: string, c: char)
    requires c !in a
    ensures Split(a + [c] + b, c) == [a] + Split(b, c)
  {
    IndexOfAfterFree(a, [c] + b, c);
    assert a + [c] + b == a + ([c] + b);
    assert (a + [c] + b)[..|a|] == a;
    assert (a + [c] + b)[|a| + 1..] == b;
  }

  /** Number of leading characters of `s` that are whitespace. */
  function LeadingSpace(s: string): (k: nat)
    ensures k <= |s|
    ensures forall i :: 0 <= i < k ==> IsSpace(s[i])
    ensures k < |s| ==> !IsSpace(s[k])
  {
    if |s| == 0 || !IsSpace(s[0]) then 0 else 1 + LeadingSpace(s[1..])
  }

  /** Number of trailing characters of `s` that are whitespace. */
  function TrailingSpace(s: string): (k: nat)
    ensures k <= |s|
    ensures forall i :: |s| - k <= i < |s| ==> IsSpace(s[i])
    ensures k < |s| ==> !IsSpace(s[|s| - k - 1])
  {
    if |s| == 0 || !IsSpace(s[|s| - 1]) then 0 else 1 + TrailingSpace(s[..|s| - 1])
  }

  /** `str.strip()`: the slice of `s` between its leading and trailing runs of
      whitespace. The result neither starts nor ends with whitespace, and
      everything cut off is whitespace. */
  function Strip(s: string): (r: string)
    ensures |r| > 0 ==> !IsSpace(r[0]) && !IsSpace(r[|r| - 1])
    ensures exists a, b :: 0 <= a <= b <= |s| && r == s[a..b]
              && (forall i :: 0 <= i < a ==> IsSpace(s[i]))
              && (forall i :: b <= i < |s| ==> IsSpace(s[i]))
  {
    var a := LeadingSpace(s);
    var t := s[a..];
    var k := TrailingSpace(t);
    var r := t[..|t| - k];
    assert r == s[a..|s| - k];
    r
  }

  /** A string that neither starts nor ends with whitespace is its own strip. */
  lemma StripTrimmed(s: string)
    requires |s| > 0 ==> !IsSpace(s[0]) && !IsSpace(s[|s| - 1])
    ensures Strip(s) == s
  {
    if |s| > 0 {
      assert LeadingSpace(s) == 0;
      assert s[0..] == s;
      assert TrailingSpace(s) == 0;
    }
  }

  /** `s.replace(a, b)` for single characters. */
  function ReplaceChar(s: string, a: char, b: char): (r: string)
    ensures |r| == |s|
    ensures forall i :: 0 <= i < |s| ==> r[i] == (if s[i] == a then b else s[i])
  {
    seq(|s|, i requires 0 <= i < |s| => if s[i] == a then b else s[i])
  }

  /** `s * n` */
  function Repeat(s: string, n: nat): (r: string)
    ensures |r| == n * |s|
  {
    if n == 0 then "" else s + Repeat(s, n - 1)
  }

  /** Decimal rendering of an integer, as `str(int)` writes it. */
  function IntToString(n: int): (r: string)
    ensures |r| > 0
    ensures forall i :: 0 <= i < |r| ==> r[i] == '-' || '0' <= r[i] <= '9'
  {
    if n < 0 then "-" + NatToString(-n) else NatToString(n)
  }

  function NatToString(n: nat): (r: string)
    ensures |r| > 0
    ensures forall i :: 0 <= i < |r| ==> '0' <= r[i] <= '9'
  {
    if n < 10 then [Digit(n)] else NatToString(n / 10) + [Digit(n % 10)]
  }

  function Digit(d: nat): (c: char)
    requires d < 10
    ensures '0' <= c <= '9'
  {
    ('0' as int + d) as char
  }
}
