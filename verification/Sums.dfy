/** Finite sums, and what reordering or splitting their terms does to them. */
module Sums {

  ghost function Sum(s: seq<nat>): nat {
    if s == [] then 0 else Sum(s[..|s| - 1]) + s[|s| - 1]
  }

  lemma {:induction false} SumUpdate(s: seq<nat>, i: nat, x: nat)
    requires i < |s|
    ensures Sum(s[i := x]) + s[i] == Sum(s) + x
  {
    var k := |s| - 1;
    if i == k {
      assert s[i := x][..k] == s[..k];
    } else {
      assert s[i := x][..k] == s[..k][i := x];
      SumUpdate(s[..k], i, x);
    }
  }

  lemma {:induction false} SumLinear(a: seq<nat>, b: seq<nat>, c: seq<nat>, d: seq<nat>)
    requires |a| == |b| == |c| == |d|
    requires forall i :: 0 <= i < |a| ==> a[i] + b[i] == 2 * c[i] + d[i]
    ensures Sum(a) + Sum(b) == 2 * Sum(c) + Sum(d)
  {
    if |a| > 0 {
      var k := |a| - 1;
      SumLinear(a[..k], b[..k], c[..k], d[..k]);
    }
  }

  lemma {:induction false} SumZero(s: seq<nat>)
    requires forall i :: 0 <= i < |s| ==> s[i] == 0
    ensures Sum(s) == 0
  {
    if s != [] {
      SumZero(s[..|s| - 1]);
    }
  }

  lemma {:induction false} SumAtMost(a: seq<nat>, b: seq<nat>)
    requires |a| == |b| && forall i :: 0 <= i < |a| ==> a[i] <= b[i]
    ensures Sum(a) <= Sum(b)
  {
    if a != [] {
      SumAtMost(a[..|a| - 1], b[..|b| - 1]);
    }
  }

  lemma {:induction false} SumAdds(a: seq<nat>, b: seq<nat>, c: seq<nat>)
    requires |a| == |b| == |c| && forall i :: 0 <= i < |a| ==> a[i] + b[i] == c[i]
    ensures Sum(a) + Sum(b) == Sum(c)
  {
    if a != [] {
      var k := |a| - 1;
      SumAdds(a[..k], b[..k], c[..k]);
    }
  }

  ghost predicate Distinct(p: seq<nat>) {
    forall i, j :: 0 <= i < j < |p| ==> p[i] != p[j]
  }

  /** A list of distinct numbers below `n` has at most `n` entries. */
  lemma {:induction false} DistinctBound(p: seq<nat>, n: nat)
    requires Distinct(p) && forall i :: 0 <= i < |p| ==> p[i] < n
    ensures |p| <= n
  {
    if |p| > 0 {
      assert p[0] < n;
      if i :| 0 <= i < |p| && p[i] == n - 1 {
        DistinctBound(p[..i] + p[i + 1..], n - 1);
      } else {
        DistinctBound(p, n - 1);
      }
    }
  }

  /** A list in which every number below `n` occurs has at least `n` entries. */
  lemma {:induction false} CoverBound(p: seq<nat>, n: nat)
    requires forall v: nat :: v < n ==> v in p
    ensures |p| >= n
  {
    if n > 0 {
      assert n - 1 in p;
      var i :| 0 <= i < |p| && p[i] == n - 1;
      var q := p[..i] + p[i + 1..];
      forall v: nat | v < n - 1
        ensures v in q
      {
        assert v in p;
        var k :| 0 <= k < |p| && p[k] == v;
        assert q[if k < i then k else k - 1] == v;
      }
      CoverBound(q, n - 1);
    }
  }

  lemma {:induction false} SubsetSize(a: set<nat>, b: set<nat>)
    requires a <= b
    ensures |a| <= |b| && (a != b ==> |a| < |b|)
  {
    if v :| v in a {
      SubsetSize(a - {v}, b - {v});
    }
  }

  lemma {:induction false} BelowSize(b: set<nat>, n: nat)
    requires forall v :: v in b ==> v < n
    ensures |b| <= n
  {
    if n > 0 {
      BelowSize(b - {n - 1}, n - 1);
    } else if v :| v in b {
      assert false;
    }
  }

  /** `s` lists each number below its own length once. */
  ghost predicate Permutation(s: seq<nat>) {
    Distinct(s) && forall i :: 0 <= i < |s| ==> s[i] < |s|
  }

  function Identity(n: nat): (p: seq<nat>)
    ensures |p| == n && forall i :: 0 <= i < n ==> p[i] == i
  {
    seq(n, i => i)
  }

  lemma PermutationHits(s: seq<nat>, v: nat)
    requires Permutation(s) && v < |s|
    ensures v in s
  {
    if v !in s {
      var t := s + [v];
      forall i, j | 0 <= i < j < |t|
        ensures t[i] != t[j]
      {
        assert t[i] == s[i] && s[i] in s;
      }
      DistinctBound(t, |s|);
    }
  }

  ghost function Pick(f: seq<nat>, s: seq<nat>): (r: seq<nat>)
    requires forall i :: 0 <= i < |s| ==> s[i] < |f|
    ensures |r| == |s|
  {
    seq(|s|, i requires 0 <= i < |s| => f[s[i]])
  }

  ghost function Moved(s: seq<nat>, i: nat): seq<nat>
    requires i < |s|
  {
    s[i := s[|s| - 1]][..|s| - 1]
  }

  /** Taking the largest index out, wherever it stands, takes exactly its term out of the sum. */
  lemma PickWithout(f: seq<nat>, s: seq<nat>, i: nat)
    requires |f| == |s| && i < |s| && s[i] == |s| - 1
    requires forall x :: 0 <= x < |s| ==> s[x] < |s|
    requires forall x :: 0 <= x < |s| - 1 ==> Moved(s, i)[x] < |s| - 1
    ensures Sum(Pick(f, s)) == Sum(Pick(f[..|s| - 1], Moved(s, i))) + f[|s| - 1]
  {
    var k := |s| - 1;
    var a := Pick(f, s);
    var b := a[i := f[s[k]]];
    SumUpdate(a, i, f[s[k]]);
    assert b[..k] == Pick(f[..k], Moved(s, i));
  }

  /** Reading the terms in another order gives the same sum. */
  lemma {:induction false} PermutedSum(f: seq<nat>, s: seq<nat>)
    requires Permutation(s) && |s| == |f|
    ensures Sum(Pick(f, s)) == Sum(f)
    decreases |s|
  {
    hide Distinct, Pick;
    if s != [] {
      var k := |s| - 1;
      PermutationHits(s, k);
      var i :| 0 <= i < |s| && s[i] == k;
      DropLargest(s, i);
      PickWithout(f, s, i);
      PermutedSum(f[..k], Moved(s, i));
    }
  }

  lemma DropLargest(s: seq<nat>, i: nat)
    requires Permutation(s) && i < |s| && s[i] == |s| - 1
    ensures Permutation(Moved(s, i))
  {
  }
}
