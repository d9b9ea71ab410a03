/**
  Token placements, swaps, and the potential that bounds every run of the swap loop.
  A placement lists the token on each vertex; `UNDEF` is a blank.
 */
module Placements {
  import opened Networks
  import opened Sums

  datatype Swap = Swap(u: nat, v: nat)

  type Placement = seq<nat>

  ghost predicate Injective(p: Placement) {
    forall i, j :: 0 <= i < j < |p| && p[i] != UNDEF ==> p[i] != p[j]
  }

  ghost predicate IsPlacement(p: Placement, n: nat) {
    && |p| == n
    && (forall i :: 0 <= i < n && p[i] != UNDEF ==> p[i] < n)
    && Injective(p)
  }

  /** What a finder is asked: every token on the board must have a place to go. */
  ghost predicate Problem(g: Net, from: Placement, to: Placement) {
    && Coupling(g)
    && IsPlacement(from, |g.adj|) && IsPlacement(to, |g.adj|)
    && forall i :: 0 <= i < |from| && from[i] != UNDEF ==> from[i] in to
  }

  function Exchange(p: Placement, u: nat, v: nat): (r: Placement)
    requires u < |p| && v < |p|
  {
    p[u := p[v]][v := p[u]]
  }

  ghost predicate OnBoard(s: seq<Swap>, n: nat) {
    forall k :: 0 <= k < |s| ==> s[k].u < n && s[k].v < n
  }

  /** Every swap joins two vertices that share a coupling edge. */
  ghost predicate OnEdges(g: Net, s: seq<Swap>) {
    forall k :: 0 <= k < |s| ==> s[k].u < |g.adj| && s[k].v < |g.adj| && s[k].v in g.adj[s[k].u]
  }

  ghost function Apply(p: Placement, s: seq<Swap>): (r: Placement)
    requires OnBoard(s, |p|)
    ensures |r| == |p|
  {
    if s == [] then p else Exchange(Apply(p, s[..|s| - 1]), s[|s| - 1].u, s[|s| - 1].v)
  }

  lemma {:induction false} ApplyConcat(p: Placement, s: seq<Swap>, t: seq<Swap>)
    requires OnBoard(s, |p|) && OnBoard(t, |p|)
    ensures OnBoard(s + t, |p|) && Apply(p, s + t) == Apply(Apply(p, s), t)
  {
    if t == [] {
      assert s + t == s;
    } else {
      ApplyConcat(p, s, t[..|t| - 1]);
      assert (s + t)[..|s + t| - 1] == s + t[..|t| - 1];
    }
  }

  lemma EdgesConcat(g: Net, s: seq<Swap>, t: seq<Swap>)
    requires OnEdges(g, s) && OnEdges(g, t)
    ensures OnEdges(g, s + t)
  {
  }

  lemma NoSwaps(g: Net, from: Placement)
    ensures OnEdges(g, []) && OnBoard([], |from|) && Apply(from, []) == from
  {
  }

  lemma EdgesOnBoard(g: Net, s: seq<Swap>)
    requires OnEdges(g, s)
    ensures OnBoard(s, |g.adj|)
  {
  }

  /** Where token `t` has to end up. */
  ghost function Home(to: Placement, t: nat): (i: nat)
    requires t in to
    ensures i < |to| && to[i] == t
  {
    var i: nat :| i < |to| && to[i] == t;
    i
  }

  lemma HomeUnique(to: Placement, i: nat)
    requires Injective(to) && i < |to| && to[i] != UNDEF
    ensures Home(to, to[i]) == i
  {
  }

  /** `v` is a neighbour of `s` that lies on a shortest walk from `s` to `t`. */
  ghost predicate Closer(g: Net, s: nat, t: nat, v: nat)
    requires s < |g.adj|
  {
    v in g.adj[s] && Dist(g, s, t) == 1 + Dist(g, v, t)
  }

  /** The token on `u` gets one step closer to its home by moving to `v`. */
  ghost predicate Hop(g: Net, to: Placement, p: Placement, u: nat, v: nat) {
    u < |p| == |g.adj| && p[u] != UNDEF && p[u] in to && Closer(g, u, Home(to, p[u]), v)
  }

  ghost predicate InPlace(to: Placement, p: Placement, i: nat) {
    i < |p| == |to| && (p[i] == UNDEF || p[i] == to[i])
  }

  ghost predicate Solved(to: Placement, p: Placement) {
    forall i: nat :: i < |p| ==> InPlace(to, p, i)
  }

  // Sums over the tokens on the board.

  ghost function Plain(d: nat): nat { d }

  ghost function One(d: nat): nat { 1 }

  ghost function Away(d: nat): nat { if d == 0 then 0 else 1 }

  /** Twice the distance, and one more for a token that is home: it may have to be moved again. */
  ghost function Phi(d: nat): nat { if d == 0 then 1 else 2 * d }

  /** What token `t` adds to a sum while it stands on vertex `x`. */
  ghost function TokenShare(g: Net, to: Placement, f: nat -> nat, t: nat, x: nat): nat {
    if t == UNDEF || t !in to then 0 else f(Dist(g, x, Home(to, t)))
  }

  ghost function TokenShares(g: Net, to: Placement, f: nat -> nat, p: Placement): (r: seq<nat>)
    ensures |r| == |p|
  {
    seq(|p|, i requires 0 <= i < |p| => TokenShare(g, to, f, p[i], i))
  }

  ghost function Total(g: Net, to: Placement, f: nat -> nat, p: Placement): nat {
    Sum(TokenShares(g, to, f, p))
  }

  lemma TotalExchange(g: Net, to: Placement, f: nat -> nat, p: Placement, u: nat, v: nat)
    requires u < |p| && v < |p| && u != v
    ensures Total(g, to, f, Exchange(p, u, v)) + TokenShare(g, to, f, p[u], u) + TokenShare(g, to, f, p[v], v)
         == Total(g, to, f, p) + TokenShare(g, to, f, p[v], u) + TokenShare(g, to, f, p[u], v)
  {
    hide TokenShare;
    var s := TokenShares(g, to, f, p);
    var a, b := TokenShare(g, to, f, p[v], u), TokenShare(g, to, f, p[u], v);
    assert TokenShares(g, to, f, Exchange(p, u, v)) == s[u := a][v := b];
    SumUpdate(s, u, a);
    SumUpdate(s[u := a], v, b);
  }

  /** Moving tokens about neither adds nor removes any. */
  lemma ExchangeKeeps(p: Placement, u: nat, v: nat)
    requires u < |p| && v < |p|
    ensures multiset(Exchange(p, u, v)) == multiset(p)
    ensures forall n: nat :: IsPlacement(p, n) ==> IsPlacement(Exchange(p, u, v), n)
  {
  }

  /** The potential is twice the total distance plus the number of tokens at home. */
  lemma PhiSplit(g: Net, to: Placement, p: Placement)
    ensures Total(g, to, Phi, p) + Total(g, to, Away, p)
         == 2 * Total(g, to, Plain, p) + Total(g, to, One, p)
  {
    SumLinear(TokenShares(g, to, Phi, p), TokenShares(g, to, Away, p), TokenShares(g, to, Plain, p), TokenShares(g, to, One, p));
  }

  lemma SolvedTotals(g: Net, to: Placement, p: Placement)
    requires Coupling(g) && IsPlacement(to, |g.adj|) && |p| == |g.adj|
    requires Solved(to, p)
    ensures Total(g, to, Phi, p) == Total(g, to, One, p)
    ensures Total(g, to, Plain, p) == 0
  {
    forall i: nat | i < |p| && p[i] != UNDEF
      ensures p[i] in to && Dist(g, i, Home(to, p[i])) == 0
    {
      assert InPlace(to, p, i);
      DistZero(g, i, i);
    }
    assert TokenShares(g, to, Phi, p) == TokenShares(g, to, One, p);
    SumZero(TokenShares(g, to, Plain, p));
  }
}
