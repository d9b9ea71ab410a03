/** The two kinds of move the swap loop makes, and what each does to the sums over all tokens. */
module Moves {
  import opened Networks
  import opened Sums
  import opened Placements

  // A cycle is listed against its edges: the token on c[i + 1] wants to go to c[i].

  ghost predicate HappyChain(g: Net, to: Placement, p: Placement, c: seq<nat>) {
    && |c| >= 2 && Distinct(c)
    && (forall i :: 0 <= i < |c| ==> c[i] < |p|)
    && (forall i :: 0 <= i < |c| - 1 ==> Hop(g, to, p, c[i + 1], c[i]))
    && Hop(g, to, p, c[0], c[|c| - 1])
  }

  /** The placement after swapping along the first `j` links of `c`. */
  ghost function Rotated(p: Placement, c: seq<nat>, j: nat): (r: Placement)
    requires j < |c| && forall i :: 0 <= i < |c| ==> c[i] < |p|
    ensures |r| == |p|
  {
    if j == 0 then p else Exchange(Rotated(p, c, j - 1), c[j - 1], c[j])
  }

  /** The first token rides along the chain; each token it passes shifts back by one place. */
  lemma {:induction false} RotatedAt(p: Placement, c: seq<nat>, j: nat)
    requires j < |c| && Distinct(c) && forall i :: 0 <= i < |c| ==> c[i] < |p|
    ensures forall i :: 0 <= i < j ==> Rotated(p, c, j)[c[i]] == p[c[i + 1]]
    ensures Rotated(p, c, j)[c[j]] == p[c[0]]
    ensures forall x: nat :: x < |p| && x !in c[..j + 1] ==> Rotated(p, c, j)[x] == p[x]
    decreases j
  {
    if j > 0 {
      RotatedAt(p, c, j - 1);
      var q := Rotated(p, c, j - 1);
      assert c[j] !in c[..j];
      forall x: nat | x < |p| && x !in c[..j + 1]
        ensures Rotated(p, c, j)[x] == p[x]
      {
        assert x != c[j] && x != c[j - 1] && x !in c[..j] by {
          assert c[..j + 1][j] == c[j] && c[..j + 1][j - 1] == c[j - 1];
          assert c[..j] == c[..j + 1][..j];
        }
      }
    }
  }

  /** Vertex `c[i]` received the token of its predecessor on the cycle, for which that is one step closer. */
  ghost predicate Shifted(g: Net, to: Placement, p: Placement, r: Placement, c: seq<nat>, i: nat) {
    && i < |c|
    && var s := if i + 1 < |c| then c[i + 1] else c[0];
       && c[i] < |r| && s < |p| && r[c[i]] == p[s]
       && p[s] in to && Dist(g, s, Home(to, p[s])) == 1 + Dist(g, c[i], Home(to, p[s]))
  }

  ghost predicate AllShifted(g: Net, to: Placement, p: Placement, r: Placement, c: seq<nat>) {
    && |r| == |p|
    && (forall x: nat :: x < |p| && x !in c ==> r[x] == p[x])
    && forall i: nat :: i < |c| ==> Shifted(g, to, p, r, c, i)
  }

  /** A happy chain moves every token on it one step closer to home and no other token. */
  lemma ChainMoves(g: Net, to: Placement, p: Placement, c: seq<nat>)
    requires HappyChain(g, to, p, c)
    ensures AllShifted(g, to, p, Rotated(p, c, |c| - 1), c)
  {
    hide Dist, Rotated, Distinct;
    var k := |c| - 1;
    RotatedAt(p, c, k);
    assert c[..k + 1] == c;
    forall i: nat | i < |c|
      ensures Shifted(g, to, p, Rotated(p, c, k), c, i)
    {
      if i < k {
        assert Hop(g, to, p, c[i + 1], c[i]);
      }
    }
  }

  /** After `j` links the total differs by `j` and by how far the riding token has strayed. */
  lemma {:induction false} ChainTotals(g: Net, to: Placement, p: Placement, c: seq<nat>, j: nat)
    requires HappyChain(g, to, p, c) && j < |c|
    ensures var t, r := p[c[0]], Rotated(p, c, j);
            && Total(g, to, Plain, r) + j + TokenShare(g, to, Plain, t, c[0])
               == Total(g, to, Plain, p) + TokenShare(g, to, Plain, t, c[j])
            && Total(g, to, Phi, r) + j + TokenShare(g, to, Phi, t, c[0])
               <= Total(g, to, Phi, p) + TokenShare(g, to, Phi, t, c[j])
    decreases j
  {
    hide Total, Dist;
    if j > 0 {
      ChainTotals(g, to, p, c, j - 1);
      RotatedAt(p, c, j - 1);
      var q := Rotated(p, c, j - 1);
      assert q[c[j]] == p[c[j]] by {
        assert c[j] !in c[..j];
      }
      TotalExchange(g, to, Plain, q, c[j - 1], c[j]);
      TotalExchange(g, to, Phi, q, c[j - 1], c[j]);
      assert Hop(g, to, p, c[(j - 1) + 1], c[j - 1]);
    }
  }

  /** A whole chain of `k` vertices costs `k - 1` swaps and takes `k` off the total distance. */
  lemma ChainProgress(g: Net, to: Placement, p: Placement, c: seq<nat>)
    requires HappyChain(g, to, p, c)
    ensures var r := Rotated(p, c, |c| - 1);
            && Total(g, to, Plain, r) + |c| == Total(g, to, Plain, p)
            && Total(g, to, Phi, r) + |c| <= Total(g, to, Phi, p)
  {
    hide Total, Dist;
    ChainTotals(g, to, p, c, |c| - 1);
  }

  /** The fallback move: a token steps onto a vertex that is blank or whose token is home. */
  ghost predicate UnhappySwap(g: Net, to: Placement, p: Placement, u: nat, v: nat) {
    u < |p| && u != v && Hop(g, to, p, u, v) && InPlace(to, p, v)
  }

  /** Against a placed token it keeps the total distance and lowers the number in place by one. */
  lemma UnhappyProgress(g: Net, to: Placement, p: Placement, u: nat, v: nat)
    requires Coupling(g) && IsPlacement(p, |g.adj|) && IsPlacement(to, |g.adj|)
    requires UnhappySwap(g, to, p, u, v)
    ensures var r := Exchange(p, u, v);
            && Total(g, to, Phi, r) + 1 <= Total(g, to, Phi, p)
            && (p[v] == UNDEF ==> Total(g, to, Plain, r) + 1 == Total(g, to, Plain, p))
            && (p[v] != UNDEF ==> Total(g, to, Plain, r) == Total(g, to, Plain, p))
            && (p[v] != UNDEF ==> Total(g, to, Away, r) == Total(g, to, Away, p) + 1)
  {
    hide Total, Steps, Shortest, Connected;
    TotalExchange(g, to, Plain, p, u, v);
    TotalExchange(g, to, Phi, p, u, v);
    TotalExchange(g, to, Away, p, u, v);
    var h := Home(to, p[u]);
    Meet(g, v, h);
    if p[v] != UNDEF {
      HomeUnique(to, v);
      assert h != v;
      Meet(g, v, v);
      Meet(g, u, v);
      DistAcrossEdge(g, u, v, v);
    }
  }

  lemma Meet(g: Net, u: nat, v: nat)
    requires Coupling(g) && u < |g.adj| && v < |g.adj|
    ensures Dist(g, u, v) == 0 <==> u == v
  {
    assert Reach(g, u, v);
    DistZero(g, u, v);
  }

  /** No swap along an edge lowers the total distance by more than two. */
  lemma SwapLowersByTwo(g: Net, to: Placement, p: Placement, u: nat, v: nat)
    requires Coupling(g) && IsPlacement(to, |g.adj|) && |p| == |g.adj|
    requires u < |p| && v < |p| && v in g.adj[u]
    ensures Total(g, to, Plain, p) <= Total(g, to, Plain, Exchange(p, u, v)) + 2
  {
    hide Total, Dist, Connected, Symmetric;
    if u == v {
      assert Exchange(p, u, v) == p;
    } else {
      TotalExchange(g, to, Plain, p, u, v);
      if p[u] in to {
        DistAcrossEdge(g, u, v, Home(to, p[u]));
      }
      if p[v] in to {
        DistAcrossEdge(g, u, v, Home(to, p[v]));
      }
    }
  }

  /** Hence whatever solves the problem takes at least half the total distance in swaps. */
  lemma {:induction false} AnySolutionIsLong(g: Net, to: Placement, from: Placement, s: seq<Swap>)
    requires Coupling(g) && IsPlacement(to, |g.adj|) && |from| == |g.adj| && OnEdges(g, s)
    ensures Total(g, to, Plain, from) <= Total(g, to, Plain, Apply(from, s)) + 2 * |s|
    ensures Solved(to, Apply(from, s)) ==> Total(g, to, Plain, from) <= 2 * |s|
  {
    if s != [] {
      var k := |s| - 1;
      AnySolutionIsLong(g, to, from, s[..k]);
      SwapLowersByTwo(g, to, Apply(from, s[..k]), s[k].u, s[k].v);
    }
    if Solved(to, Apply(from, s)) {
      SolvedTotals(g, to, Apply(from, s));
    }
  }
}
