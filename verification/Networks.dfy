/**
  The adjacency a `Graph` object offers its readers, as a value, and the one distance function
  that every search in the project is measured against.
 */
module Networks {
  import opened Sums

  /** Vertex numbers, distances and labels are `uint32_t`; its largest value marks "undefined". */
  const UNDEF: nat := 0xFFFF_FFFF

  /** Storing into a `Word` obliges the proof to show that no sum wraps and no difference underflows. */
  type Word = w: nat | w <= UNDEF

  /** One more wraps to zero in 32 bits. */
  lemma UndefIsLast()
    ensures 0 < UNDEF < 0x1_0000_0000 && (UNDEF + 1) % 0x1_0000_0000 == 0
  {
  }

  /** `adj[u]` is the set of vertices one step away from `u`. */
  datatype Net = Net(adj: seq<set<nat>>)

  ghost predicate WellFormed(g: Net) {
    && |g.adj| <= UNDEF
    && forall u, v :: 0 <= u < |g.adj| && v in g.adj[u] ==> v < |g.adj|
  }

  ghost predicate Symmetric(g: Net)
    requires WellFormed(g)
  {
    forall u, v :: 0 <= u < |g.adj| && v in g.adj[u] ==> u in g.adj[v]
  }

  /** Some walk of exactly `k` edges leads from `u` to `v`. */
  ghost predicate Steps(g: Net, u: nat, v: nat, k: nat)
    decreases k
  {
    if k == 0 then
      u == v < |g.adj|
    else
      exists w: nat :: w < |g.adj| && Steps(g, u, w, k - 1) && v in g.adj[w]
  }

  ghost predicate Reach(g: Net, u: nat, v: nat) {
    exists k: nat :: Steps(g, u, v, k)
  }

  ghost predicate Connected(g: Net) {
    forall u: nat, v: nat :: u < |g.adj| && v < |g.adj| ==> Reach(g, u, v)
  }

  ghost predicate Undirected(g: Net) {
    WellFormed(g) && Symmetric(g)
  }

  /** An undirected, connected coupling graph: what the token swap finders are built for. */
  ghost predicate Coupling(g: Net) {
    WellFormed(g) && Symmetric(g) && Connected(g)
  }

  lemma CouplingShape(g: Net)
    requires Coupling(g)
    ensures WellFormed(g) && Undirected(g) && forall u: nat, v: nat :: u < |g.adj| && v < |g.adj| ==> Reach(g, u, v)
  {
  }

  ghost predicate Shortest(g: Net, u: nat, v: nat, d: nat) {
    Steps(g, u, v, d) && forall k: nat :: k < d ==> !Steps(g, u, v, k)
  }

  /** The number of edges on a shortest walk; `UNDEF` when there is no walk at all. */
  ghost function Dist(g: Net, u: nat, v: nat): (d: nat)
    ensures Reach(g, u, v) ==> Shortest(g, u, v, d)
    ensures !Reach(g, u, v) ==> d == UNDEF
  {
    if Reach(g, u, v) then
      var k: nat :| Steps(g, u, v, k);
      LeastSteps(g, u, v, k);
      var d: nat :| Shortest(g, u, v, d);
      d
    else
      UNDEF
  }

  lemma {:induction false} LeastSteps(g: Net, u: nat, v: nat, k: nat)
    requires Steps(g, u, v, k)
    ensures exists d: nat :: Shortest(g, u, v, d)
    decreases k
  {
    if Shortest(g, u, v, k) {
    } else {
      var j: nat :| j < k && Steps(g, u, v, j);
      LeastSteps(g, u, v, j);
    }
  }

  lemma {:induction false} StepsInside(g: Net, u: nat, v: nat, k: nat)
    requires WellFormed(g) && Steps(g, u, v, k)
    ensures u < |g.adj| && v < |g.adj|
    decreases k
  {
    if k > 0 {
      var w: nat :| w < |g.adj| && Steps(g, u, w, k - 1) && v in g.adj[w];
      StepsInside(g, u, w, k - 1);
    }
  }

  lemma {:induction false} StepsConcat(g: Net, u: nat, v: nat, w: nat, j: nat, k: nat)
    requires Steps(g, u, v, j) && Steps(g, v, w, k)
    ensures Steps(g, u, w, j + k)
    decreases k
  {
    if k > 0 {
      var x: nat :| x < |g.adj| && Steps(g, v, x, k - 1) && w in g.adj[x];
      StepsConcat(g, u, v, x, j, k - 1);
    }
  }

  lemma {:induction false} StepsReverse(g: Net, u: nat, v: nat, k: nat)
    requires WellFormed(g) && Symmetric(g) && Steps(g, u, v, k)
    ensures Steps(g, v, u, k)
    decreases k
  {
    if k > 0 {
      StepsInside(g, u, v, k);
      var w: nat :| w < |g.adj| && Steps(g, u, w, k - 1) && v in g.adj[w];
      StepsReverse(g, u, w, k - 1);
      assert Steps(g, v, v, 0) && w in g.adj[v];
      assert Steps(g, v, w, 1);
      StepsConcat(g, v, w, u, 1, k - 1);
    }
  }

  lemma DistSymmetric(g: Net, u: nat, v: nat)
    requires WellFormed(g) && Symmetric(g)
    ensures Reach(g, u, v) == Reach(g, v, u)
    ensures Dist(g, u, v) == Dist(g, v, u)
  {
    if Reach(g, u, v) {
      StepsReverse(g, u, v, Dist(g, u, v));
    }
    if Reach(g, v, u) {
      StepsReverse(g, v, u, Dist(g, v, u));
    }
  }

  lemma DistZero(g: Net, u: nat, v: nat)
    requires u < |g.adj| && Reach(g, u, v)
    ensures Dist(g, u, v) == 0 <==> u == v
  {
    assert Steps(g, u, v, 0) <==> u == v;
  }

  /** One more edge lengthens a shortest walk by at most one. */
  lemma DistExtend(g: Net, s: nat, u: nat, v: nat)
    requires WellFormed(g) && Reach(g, s, u) && u < |g.adj| && v in g.adj[u]
    ensures Reach(g, s, v) && Dist(g, s, v) <= Dist(g, s, u) + 1
  {
    assert Steps(g, s, v, Dist(g, s, u) + 1);
  }

  /** A shortest walk of positive length has a last edge, and what precedes it is shortest too. */
  lemma DistLastEdge(g: Net, s: nat, v: nat) returns (w: nat)
    requires WellFormed(g) && Reach(g, s, v) && s != v
    ensures w < |g.adj| && v in g.adj[w] && Reach(g, s, w) && Dist(g, s, v) == Dist(g, s, w) + 1
  {
    var d := Dist(g, s, v);
    w :| w < |g.adj| && Steps(g, s, w, d - 1) && v in g.adj[w];
    DistExtend(g, s, w, v);
  }

  /** The same from the other end: some neighbour of `u` is one step closer to `t`. */
  lemma DistFirstEdge(g: Net, u: nat, t: nat) returns (w: nat)
    requires WellFormed(g) && Symmetric(g) && Reach(g, u, t) && u != t && u < |g.adj|
    ensures w < |g.adj| && w in g.adj[u] && Dist(g, u, t) == Dist(g, w, t) + 1
  {
    DistSymmetric(g, u, t);
    w := DistLastEdge(g, t, u);
    DistSymmetric(g, w, t);
  }

  lemma DistTriangle(g: Net, u: nat, v: nat, w: nat)
    requires Reach(g, u, v) && Reach(g, v, w)
    ensures Reach(g, u, w) && Dist(g, u, w) <= Dist(g, u, v) + Dist(g, v, w)
  {
    StepsConcat(g, u, v, w, Dist(g, u, v), Dist(g, v, w));
  }

  /** On a coupling graph, crossing an edge changes the distance to a target by at most one. */
  lemma DistAcrossEdge(g: Net, u: nat, v: nat, t: nat)
    requires Coupling(g) && u < |g.adj| && t < |g.adj| && v in g.adj[u]
    ensures Dist(g, u, t) <= Dist(g, v, t) + 1 && Dist(g, v, t) <= Dist(g, u, t) + 1
  {
    DistSymmetric(g, u, t);
    DistSymmetric(g, v, t);
    DistExtend(g, t, u, v);
    DistExtend(g, t, v, u);
  }

  /** A listed walk: consecutive vertices are joined by edges. */
  ghost predicate Walk(g: Net, p: seq<nat>) {
    && |p| > 0
    && (forall i :: 0 <= i < |p| ==> p[i] < |g.adj|)
    && forall i :: 0 <= i < |p| - 1 ==> p[i + 1] in g.adj[p[i]]
  }

  lemma {:induction false} WalkSteps(g: Net, p: seq<nat>)
    requires Walk(g, p)
    ensures Steps(g, p[0], p[|p| - 1], |p| - 1)
  {
    if |p| > 1 {
      WalkSteps(g, p[..|p| - 1]);
      assert p[|p| - 1] in g.adj[p[|p| - 2]];
    }
  }

  /** No shortest walk is longer than the graph has vertices. */
  lemma {:induction false} DistBound(g: Net, s: nat, v: nat)
    requires WellFormed(g) && Reach(g, s, v)
    ensures Dist(g, s, v) < |g.adj|
  {
    var p := ShortestWalk(g, s, v);
    forall i, j | 0 <= i < j < |p|
      ensures p[i] != p[j]
    {
      assert Dist(g, s, p[i]) == i && Dist(g, s, p[j]) == j;
    }
    DistinctBound(p, |g.adj|);
  }

  lemma {:induction false} ShortestWalk(g: Net, s: nat, v: nat) returns (p: seq<nat>)
    requires WellFormed(g) && Reach(g, s, v)
    ensures Walk(g, p) && p[0] == s && p[|p| - 1] == v && |p| == Dist(g, s, v) + 1
    ensures forall i :: 0 <= i < |p| ==> Dist(g, s, p[i]) == i
    decreases Dist(g, s, v)
  {
    StepsInside(g, s, v, Dist(g, s, v));
    DistZero(g, s, v);
    if s == v {
      p := [v];
    } else {
      var w := DistLastEdge(g, s, v);
      p := ShortestWalk(g, s, w);
      p := p + [v];
    }
  }
}
