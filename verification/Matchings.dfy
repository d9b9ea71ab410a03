/** The rounds of the Hungarian algorithm, and why the matching they end with cannot be beaten. */
module Matchings {
  import opened Sums
  import opened Networks
  import H = Hungarian
  import A = Augmenting
  import opened Graphs

  ghost function Count(flags: seq<bool>): nat {
    Sum(seq(|flags|, i requires 0 <= i < |flags| => if flags[i] then 0 else 1))
  }

  lemma CountDrops(flags: seq<bool>, v: nat)
    requires v < |flags| && !flags[v]
    ensures Count(flags[v := true]) + 1 == Count(flags)
  {
    var s := seq(|flags|, i requires 0 <= i < |flags| => if flags[i] then 0 else 1);
    var flags' := flags[v := true];
    assert seq(|flags'|, i requires 0 <= i < |flags'| => if flags'[i] then 0 else 1) == s[v := 0];
    SumUpdate(s, v, 0);
  }

  ghost function MatchedRows(M: H.Matching): (r: seq<bool>)
    ensures |r| == |M.row| && forall x :: 0 <= x < |r| ==> r[x] == (M.row[x] != UNDEF)
  {
    seq(|M.row|, x requires 0 <= x < |M.row| => M.row[x] != UNDEF)
  }

  method GetUndefVertex(row: seq<nat>) returns (u: nat)
    ensures (u < |row| && row[u] == UNDEF) || (u == |row| && forall x :: 0 <= x < |row| ==> row[x] != UNDEF)
  {
    u := 0;
    while u < |row| && row[u] != UNDEF
      invariant u <= |row| && forall x :: 0 <= x < u ==> row[x] != UNDEF
    {
      u := u + 1;
    }
  }

  /** A round matches the free row `u` and keeps every other row matched or free as it was. */
  method Round(w: H.Weights, ghost maxw: nat, l: H.Labels, M: H.Matching, u: nat) returns (l': H.Labels, M': H.Matching)
    requires H.Balanced(w, maxw, l, M) && u < |w| && M.row[u] == UNDEF
    ensures A.Augmented(w, maxw, l', M, M', u)
  {
    hide H.Searching, H.Balanced, H.Tight, A.Augmented, A.IsAlternating, Count;
    l', M' := l, M;
    var t := H.Root(w, maxw, l, M, u);
    ghost var order: seq<nat>, link: seq<nat> := [u], [0];
    while true
      invariant t.u == u && H.Searching(w, maxw, l', M, t, order, link)
      decreases Count(t.T), t.NS == t.T
    {
      Facts(w, maxw, l', M, t, order, link);
      if t.NS == t.T {
        l', t := H.LowerLabels(w, maxw, l', M, t, order, link);
      } else {
        var v := H.FirstUnused(t.T, t.NS);
        if M.col[v] == UNDEF {
          var alt := A.BuildAlternating(w, maxw, l', M);
          var g := Net(alt.succ);
          AlternatingNet(w, l', M, alt);
          A.ColumnReached(w, maxw, l', M, t, order, link, g, v);
          A.AlternatingWellFormed(w, l', M, g);
          assert |g.adj| == 2 * |w| by { A.AlternatingSize(w, l', M, g); }
          var pi := A.SearchFrom(g, u, |w| + v);
          M' := A.Flip(w, maxw, l', M, g, u, v, pi);
          return;
        } else {
          CountDrops(t.T, v);
          t, order, link := H.Grow(w, maxw, l', M, t, v, order, link);
        }
      }
    }
  }

  lemma Facts(w: H.Weights, maxw: nat, l: H.Labels, M: H.Matching, t: H.Tree, order: seq<nat>, link: seq<nat>)
    requires H.Searching(w, maxw, l, M, t, order, link)
    ensures H.Balanced(w, maxw, l, M) && H.Feasible(w, maxw, l) && A.Fit(w, l, M) && H.Sized(|w|, t)
    ensures |w| == |M.row| == |M.col| && t.u < |w| && M.row[t.u] == UNDEF
    ensures forall j: nat :: j < |w| && t.T[j] ==> t.NS[j]
  {
  }

  lemma AlternatingNet(w: H.Weights, l: H.Labels, M: H.Matching, alt: Graph)
    requires A.Fit(w, l, M) && alt.Valid() && alt.n == 2 * |w|
    requires forall a: nat, b: nat :: alt.Edge(a, b) <==> A.AltEdge(w, l, M, a, b)
    ensures A.IsAlternating(w, l, M, Net(alt.succ))
  {
  }

  ghost predicate Perfect(w: H.Weights, maxw: nat, l: H.Labels, M: H.Matching) {
    H.Balanced(w, maxw, l, M) && forall x: nat :: x < |w| ==> M.row[x] != UNDEF
  }

  method BestMatching(w: H.Weights, ghost maxw: nat, l: H.Labels) returns (l': H.Labels, M: H.Matching)
    requires H.Feasible(w, maxw, l) && forall j: nat :: j < |w| ==> l.col[j] == 0
    ensures Perfect(w, maxw, l', M)
  {
    hide Count, A.Augmented, H.Feasible, H.MatchedTight, H.FreeZero, H.TwoSided;
    var k := |w|;
    l' := l;
    M := H.Matching(seq(k, _ => UNDEF), seq(k, _ => UNDEF));
    assert H.Balanced(w, maxw, l', M) by { NothingMatched(w, maxw, l, M); }
    while true
      invariant H.Balanced(w, maxw, l', M)
      decreases Count(MatchedRows(M))
    {
      H.Shapes(w, maxw, l', M);
      var u := GetUndefVertex(M.row);
      if u == k {
        break;
      }
      ghost var M0 := M;
      l', M := Round(w, maxw, l', M, u);
      OneMore(w, maxw, l', M0, M, u);
    }
  }

  lemma NothingMatched(w: H.Weights, maxw: nat, l: H.Labels, M: H.Matching)
    requires H.Feasible(w, maxw, l) && |M.row| == |M.col| == |w|
    requires forall j: nat :: j < |w| ==> l.col[j] == 0 && M.row[j] == UNDEF && M.col[j] == UNDEF
    ensures H.Balanced(w, maxw, l, M)
  {
  }

  /** Exactly one more row is matched after a round. */
  lemma OneMore(w: H.Weights, maxw: nat, l: H.Labels, M0: H.Matching, M: H.Matching, u: nat)
    requires A.Augmented(w, maxw, l, M0, M, u) && u < |w| && M0.row[u] == UNDEF
    ensures H.Balanced(w, maxw, l, M) && Count(MatchedRows(M)) + 1 == Count(MatchedRows(M0))
  {
    H.Shapes(w, maxw, l, M);
    assert MatchedRows(M) == MatchedRows(M0)[u := true];
    CountDrops(MatchedRows(M0), u);
  }

  // Optimality, from the labels alone.

  ghost function Entries(w: H.Weights, s: seq<nat>): (r: seq<nat>)
    requires |s| == |w| && (forall x :: 0 <= x < |w| ==> |w[x]| == |w|) && forall x :: 0 <= x < |s| ==> s[x] < |w|
    ensures |r| == |w| && forall x :: 0 <= x < |w| ==> r[x] == w[x][s[x]]
  {
    seq(|w|, x requires 0 <= x < |w| => w[x][s[x]])
  }

  /** The weight of assigning column s[x] to each row x. */
  ghost function Value(w: H.Weights, s: seq<nat>): nat
    requires |s| == |w| && (forall x :: 0 <= x < |w| ==> |w[x]| == |w|) && forall x :: 0 <= x < |s| ==> s[x] < |w|
  {
    Sum(Entries(w, s))
  }

  ghost function Covers(l: H.Labels, s: seq<nat>): (r: seq<nat>)
    requires |s| == |l.row| == |l.col| && forall x :: 0 <= x < |s| ==> s[x] < |s|
    ensures |r| == |s| && forall x :: 0 <= x < |s| ==> r[x] == l.row[x] + l.col[s[x]]
  {
    seq(|s|, x requires 0 <= x < |s| => l.row[x] + l.col[s[x]])
  }

  /** Every assignment picks up each row label and each column label once. */
  lemma CoversSum(l: H.Labels, s: seq<nat>)
    requires |s| == |l.row| == |l.col| && Permutation(s)
    ensures Sum(Covers(l, s)) == Sum(l.row) + Sum(l.col)
  {
    hide Distinct, Sum;
    PermutedSum(l.col, s);
    SumAdds(l.row, Pick(l.col, s), Covers(l, s));
  }

  lemma PerfectIsPermutation(w: H.Weights, maxw: nat, l: H.Labels, M: H.Matching)
    requires Perfect(w, maxw, l, M)
    ensures |M.row| == |w| && Permutation(M.row)
  {
  }

  lemma EntryCovered(w: H.Weights, maxw: nat, l: H.Labels, x: nat, j: nat)
    requires H.Feasible(w, maxw, l) && x < |w| && j < |w|
    ensures w[x][j] <= l.row[x] + l.col[j]
    ensures H.Tight(w, l, x, j) ==> w[x][j] == l.row[x] + l.col[j]
  {
  }

  /** No assignment weighs more than the labels add up to; one along tight edges weighs just that. */
  lemma LabelsBound(w: H.Weights, maxw: nat, l: H.Labels, s: seq<nat>)
    requires H.Feasible(w, maxw, l) && |s| == |l.row| == |l.col| == |w| && Permutation(s)
    requires forall x :: 0 <= x < |w| ==> |w[x]| == |w|
    ensures Value(w, s) <= Sum(l.row) + Sum(l.col)
    ensures (forall x: nat :: x < |w| ==> H.Tight(w, l, x, s[x])) ==> Value(w, s) == Sum(l.row) + Sum(l.col)
  {
    hide Distinct, Sum, H.Feasible, H.Tight;
    var a, b := Entries(w, s), Covers(l, s);
    forall x | 0 <= x < |w|
      ensures a[x] <= b[x] && (H.Tight(w, l, x, s[x]) ==> a[x] == b[x])
    {
      EntryCovered(w, maxw, l, x, s[x]);
    }
    CoversSum(l, s);
    SumAtMost(a, b);
    if forall x: nat :: x < |w| ==> H.Tight(w, l, x, s[x]) {
      assert forall x :: 0 <= x < |w| ==> H.Tight(w, l, x, s[x]);
      assert a == b;
    }
  }

  /** Complementary slackness: the matching found weighs at least as much as any other assignment. */
  lemma PerfectIsBest(w: H.Weights, maxw: nat, l: H.Labels, M: H.Matching, s: seq<nat>)
    requires Perfect(w, maxw, l, M) && |s| == |w| && Permutation(s)
    ensures |M.row| == |w| && Permutation(M.row) && Value(w, s) <= Value(w, M.row)
  {
    hide H.Tight, Value, Permutation;
    PerfectIsPermutation(w, maxw, l, M);
    LabelsBound(w, maxw, l, s);
    LabelsBound(w, maxw, l, M.row);
  }
}
