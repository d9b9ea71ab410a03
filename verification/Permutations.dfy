/** Permutations as a graph: one edge per swap along a coupling edge. */
module Permutations {
  import opened Sums
  import opened Networks
  import opened Placements

  ghost predicate PermutationOf(p: seq<nat>, n: nat) {
    |p| == n && Permutation(p)
  }

  /** Every permutation once, the identity first. */
  ghost predicate Enumeration(perms: seq<seq<nat>>, n: nat) {
    && |perms| > 0 && perms[0] == Identity(n)
    && (forall a: nat :: a < |perms| ==> PermutationOf(perms[a], n))
    && (forall a: nat, b: nat :: a < b < |perms| ==> perms[a] != perms[b])
    && forall p :: PermutationOf(p, n) ==> p in perms
  }

  ghost predicate OneSwap(g: Net, p: seq<nat>, q: seq<nat>) {
    |p| == |q| == |g.adj| && exists u: nat, v: nat :: u < |p| && v < |p| && v in g.adj[u] && q == Exchange(p, u, v)
  }

  /** Vertex `a` stands for perms[a]. */
  ghost function Cayley(g: Net, perms: seq<seq<nat>>): (c: Net)
    ensures |c.adj| == |perms|
    ensures forall a: nat, b: nat :: a < |perms| ==> (b in c.adj[a] <==> b < |perms| && OneSwap(g, perms[a], perms[b]))
    ensures |perms| <= UNDEF ==> WellFormed(c)
  {
    Net(seq(|perms|, a requires 0 <= a < |perms| => set b: nat | b < |perms| && OneSwap(g, perms[a], perms[b])))
  }

  lemma ExchangePermutation(p: seq<nat>, u: nat, v: nat)
    requires Permutation(p) && u < |p| && v < |p|
    ensures Permutation(Exchange(p, u, v))
  {
  }

  /** Swapping positions commutes with renaming the tokens. */
  lemma {:induction false} ApplyRenamed(f: seq<nat>, p: seq<nat>, s: seq<Swap>)
    requires OnBoard(s, |p|) && forall i :: 0 <= i < |p| ==> p[i] < |f|
    ensures forall i :: 0 <= i < |Apply(p, s)| ==> Apply(p, s)[i] < |f|
    ensures Apply(Pick(f, p), s) == Pick(f, Apply(p, s))
  {
    if s != [] {
      ApplyRenamed(f, p, s[..|s| - 1]);
    }
  }

  lemma {:induction false} ApplyPermutation(p: seq<nat>, s: seq<Swap>)
    requires Permutation(p) && OnBoard(s, |p|)
    ensures Permutation(Apply(p, s))
  {
    if s != [] {
      var k := |s| - 1;
      ApplyPermutation(p, s[..k]);
      ExchangePermutation(Apply(p, s[..k]), s[k].u, s[k].v);
    }
  }

  lemma IndexOf(g: Net, perms: seq<seq<nat>>, s: seq<Swap>) returns (c: nat)
    requires Enumeration(perms, |g.adj|) && OnBoard(s, |g.adj|)
    ensures c < |perms| && perms[c] == Apply(Identity(|g.adj|), s)
  {
    hide Apply, OnBoard;
    ApplyPermutation(Identity(|g.adj|), s);
    assert PermutationOf(Apply(Identity(|g.adj|), s), |g.adj|);
    c :| 0 <= c < |perms| && perms[c] == Apply(Identity(|g.adj|), s);
  }

  lemma StepOn(c: Net, s: nat, u: nat, v: nat, k: nat)
    requires u < |c.adj| && Steps(c, s, u, k) && v in c.adj[u]
    ensures Steps(c, s, v, k + 1)
  {
  }

  /** A swap sequence of length m is a walk of m edges from the identity. */
  lemma {:induction false} SwapsAreSteps(g: Net, perms: seq<seq<nat>>, s: seq<Swap>) returns (c: nat)
    requires Enumeration(perms, |g.adj|) && OnEdges(g, s) && OnBoard(s, |g.adj|)
    ensures c < |perms| && perms[c] == Apply(Identity(|g.adj|), s)
    ensures Steps(Cayley(g, perms), 0, c, |s|)
  {
    hide Enumeration, Cayley;
    c := IndexOf(g, perms, s);
    if s == [] {
      StartsAtIdentity(g, perms, c);
    } else {
      var k := |s| - 1;
      var b := SwapsAreSteps(g, perms, s[..k]);
      assert OneSwap(g, perms[b], perms[c]);
      StepOn(Cayley(g, perms), 0, b, c, k);
    }
  }

  lemma StartsAtIdentity(g: Net, perms: seq<seq<nat>>, c: nat)
    requires Enumeration(perms, |g.adj|) && c < |perms| && perms[c] == Identity(|g.adj|)
    ensures c == 0 && Steps(Cayley(g, perms), 0, c, 0)
  {
  }

  // On a coupling graph every permutation can be reached.

  /** Two tokens can be exchanged by carrying one along a shortest walk and back. */
  lemma {:induction false} Transpose(g: Net, p: seq<nat>, u: nat, v: nat) returns (s: seq<Swap>)
    requires Coupling(g) && |p| == |g.adj| && u < |p| && v < |p|
    ensures OnEdges(g, s) && OnBoard(s, |p|) && Apply(p, s) == Exchange(p, u, v)
    decreases Dist(g, u, v)
  {
    hide Steps, Shortest, Apply, OnEdges, Connected;
    if u == v {
      s := [];
      NoSwaps(g, p);
    } else {
      assert Reach(g, u, v) by { CouplingShape(g); }
      var w := DistFirstEdge(g, u, v);
      var hop := Swap(u, w);
      OneEdge(g, p, hop);
      if w == v {
        s := [hop];
      } else {
        var p1 := Exchange(p, u, w);
        var back := Transpose(g, p1, w, v);
        var p2 := Exchange(p1, w, v);
        OneEdge(g, p2, hop);
        Chain(g, p, [hop], back);
        Chain(g, p, [hop] + back, [hop]);
        s := [hop] + back + [hop];
        assert u != w by { CouplingShape(g); }
        assert Exchange(p2, u, w) == Exchange(p, u, v);
      }
    }
  }

  lemma OneEdge(g: Net, p: seq<nat>, e: Swap)
    requires |p| == |g.adj| && e.u < |p| && e.v < |p| && e.v in g.adj[e.u]
    ensures OnEdges(g, [e]) && OnBoard([e], |p|) && Apply(p, [e]) == Exchange(p, e.u, e.v)
  {
    assert Apply(p, [e][..0]) == p;
  }

  lemma Chain(g: Net, p: seq<nat>, s: seq<Swap>, t: seq<Swap>)
    requires |p| == |g.adj| && OnEdges(g, s) && OnEdges(g, t) && OnBoard(s, |p|) && OnBoard(t, |p|)
    ensures OnEdges(g, s + t) && OnBoard(s + t, |p|) && Apply(p, s + t) == Apply(Apply(p, s), t)
  {
    EdgesConcat(g, s, t);
    ApplyConcat(p, s, t);
  }

  /** Any permutation is turned into any other, one position at a time from the top. */
  lemma {:induction false} Sortable(g: Net, p: seq<nat>, q: seq<nat>, k: nat) returns (s: seq<Swap>)
    requires Coupling(g) && PermutationOf(p, |g.adj|) && PermutationOf(q, |g.adj|)
    requires k <= |p| && forall i :: k <= i < |p| ==> p[i] == q[i]
    ensures OnEdges(g, s) && OnBoard(s, |p|) && Apply(p, s) == q
    decreases k
  {
    hide Coupling, Apply, OnEdges;
    if k == 0 {
      s := [];
      NoSwaps(g, p);
    } else {
      PermutationHits(p, q[k - 1]);
      var x :| 0 <= x < |p| && p[x] == q[k - 1];
      assert x < k;
      var p' := Exchange(p, x, k - 1);
      var first := Transpose(g, p, x, k - 1);
      ExchangePermutation(p, x, k - 1);
      var rest := Sortable(g, p', q, k - 1);
      Chain(g, p, first, rest);
      s := first + rest;
    }
  }

  lemma EveryPermutationReached(g: Net, perms: seq<seq<nat>>, c: nat)
    requires Coupling(g) && Enumeration(perms, |g.adj|) && c < |perms|
    ensures Reach(Cayley(g, perms), 0, c)
  {
    var s := Sortable(g, Identity(|g.adj|), perms[c], |g.adj|);
    var b := SwapsAreSteps(g, perms, s);
    assert b == c;
  }
}
