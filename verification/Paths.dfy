/** The breadth-first path finder. */
module Paths {
  import opened Sums
  import opened Networks
  import opened Frontiers
  import opened Graphs

  /** Pushes the unmarked members of `nbrs`, all of them neighbours of `x`. */
  method Push(ghost g: Net, ghost s: nat, ghost seen: set<nat>, nbrs: set<nat>, n: nat, x: nat,
              q: seq<nat>, marked: seq<bool>, parent: seq<nat>)
    returns (q': seq<nat>, marked': seq<bool>, parent': seq<nat>)
    requires WellFormed(g) && |g.adj| == n == |marked| && x < n && nbrs <= g.adj[x]
    requires Expanding(g, s, Marked(marked), q, x, 0) && Parents(g, s, Marked(marked), parent)
    requires marked[x] && s in Marked(marked)
    ensures |marked'| == n && marked'[x] && Marked(marked) <= Marked(marked') && nbrs <= Marked(marked')
    ensures Expanding(g, s, Marked(marked'), q', x, 0) && Parents(g, s, Marked(marked'), parent')
    ensures marked' == marked ==> q' == q
  {
    hide Expanding, Marked, Dist;
    q', marked', parent' := q, marked, parent;
    for k := 0 to n
      invariant |marked'| == n == |parent'| && marked'[x] && Marked(marked) <= Marked(marked')
      invariant forall y: nat :: y < k && y in nbrs ==> marked'[y]
      invariant Expanding(g, s, Marked(marked'), q', x, 0) && Parents(g, s, Marked(marked'), parent')
      invariant Marked(marked') == Marked(marked) ==> q' == q
    {
      if k in nbrs && !marked'[k] {
        Discover(g, s, Marked(marked'), q', x, 0, k);
        MarkedUpdate(marked', k);
        q' := q' + [k];
        marked' := marked'[k := true];
        parent' := parent'[k := x];
      }
    }
  }

  /** A walk from `u` to `v` visiting no vertex twice, as short as any. */
  ghost predicate ShortestPath(g: Net, u: nat, v: nat, path: seq<nat>) {
    && Walk(g, path) && Distinct(path) && path[0] == u && path[|path| - 1] == v
    && forall p :: Walk(g, p) && p[0] == u && p[|p| - 1] == v ==> |path| <= |p|
  }

  /** Searches from `u` until `v` is popped; a vertex that is never reached keeps no parent. */
  method Search(g: Graph, u: nat, v: nat) returns (parent: seq<nat>)
    requires g.Valid() && u < g.n && v < g.n
    ensures Parents(g.Ways(), u, Found(u, parent), parent)
    ensures v in Found(u, parent) <==> Reach(g.Ways(), u, v)
  {
    hide Resting, Expanding, Queued, SeenUpTo, Marked, Steps, Shortest, Reach, Dist;
    ghost var net := g.Ways();
    parent := seq(g.n, _ => UNDEF);
    var marked: seq<bool> := seq(g.n, _ => false);
    var q: seq<nat> := [u];
    marked := marked[u := true];
    Start(net, u);
    assert Marked(marked) == {u};
    while q != []
      invariant |marked| == g.n && Resting(net, u, Marked(marked), q)
      invariant Parents(net, u, Marked(marked), parent) && u in Marked(marked)
      decreases g.n - |Marked(marked)|, |q|
    {
      Pop(net, u, Marked(marked), q);
      var x := q[0];
      q := q[1..];
      if x == v {
        ParentsFound(net, u, Marked(marked), parent);
        return;
      }
      ghost var before := Marked(marked);
      q, marked, parent := Push(net, u, Marked(marked), g.succ[x], g.n, x, q, marked, parent);
      q, marked, parent := Push(net, u, Marked(marked), g.pred[x], g.n, x, q, marked, parent);
      SkipAll(net, u, Marked(marked), q, x, 0);
      Finish(net, u, Marked(marked), q, x, g.n);
      MoreMarked(net, before, Marked(marked));
    }
    Exhausted(net, u, Marked(marked));
    ParentsFound(net, u, Marked(marked), parent);
  }

  /** `path` climbs from `v` along the parents, one step closer to `u` each time. */
  ghost predicate Climb(g: Net, u: nat, v: nat, parent: seq<nat>, path: seq<nat>)
    requires |parent| == |g.adj|
  {
    && |path| > 0 && path[0] == v
    && (forall i: nat :: i < |path| ==> path[i] < |g.adj| && Dist(g, u, path[i]) + i == Dist(g, u, v))
    && forall i: nat :: i + 1 < |path| ==> path[i + 1] == parent[path[i]] && path[i] in g.adj[path[i + 1]]
  }

  function Reversed(p: seq<nat>): (r: seq<nat>)
    ensures |r| == |p| && forall i: nat :: i < |p| ==> r[i] == p[|p| - 1 - i]
  {
    seq(|p|, i requires 0 <= i < |p| => p[|p| - 1 - i])
  }

  lemma ClimbIsShortest(g: Net, u: nat, v: nat, parent: seq<nat>, path: seq<nat>)
    requires WellFormed(g) && Reach(g, u, v) && |parent| == |g.adj| && Climb(g, u, v, parent, path)
    requires path[|path| - 1] == u && Dist(g, u, u) == 0
    ensures ShortestPath(g, u, v, Reversed(path))
  {
    hide Steps, Shortest, Reach;
    var r := Reversed(path);
    forall i | 0 <= i < |r| - 1
      ensures r[i + 1] in g.adj[r[i]]
    {
      var k := |r| - 2 - i;
      assert path[k] in g.adj[path[k + 1]];
    }
    forall i, j | 0 <= i < j < |r|
      ensures r[i] != r[j]
    {
      assert Dist(g, u, r[i]) == i && Dist(g, u, r[j]) == j;
    }
    forall p | Walk(g, p) && p[0] == u && p[|p| - 1] == v
      ensures |path| <= |p|
    {
      NoShorterWalk(g, p);
    }
  }

  lemma NoShorterWalk(g: Net, p: seq<nat>)
    requires Walk(g, p)
    ensures Dist(g, p[0], p[|p| - 1]) + 1 <= |p|
  {
    WalkSteps(g, p);
  }

  method Find(g: Graph, u: nat, v: nat) returns (path: seq<nat>)
    requires g.Valid() && u < g.n && v < g.n
    ensures Reach(g.Ways(), u, v) ==> ShortestPath(g.Ways(), u, v, path)
    ensures !Reach(g.Ways(), u, v) ==> path == [v]
  {
    hide Steps, Shortest, Reach, Dist, ShortestPath, Found;
    var parent := Search(g, u, v);
    ghost var seen := Found(u, parent);
    ghost var net := g.Ways();
    assert Dist(net, u, u) == 0 by { Start(net, u); }
    var x := v;
    path := [];
    while true
      invariant x < g.n && (path == [] ==> x == v) && (v in seen ==> x in seen)
      invariant path != [] ==> v in seen && Climb(net, u, v, parent, path + [x])
      decreases g.n + Dist(net, u, v) - |path|
    {
      path := path + [x];
      x := parent[x];
      if x == UNDEF {
        break;
      }
      assert v in seen && Dist(net, u, path[|path| - 1]) + (|path| - 1) == Dist(net, u, v);
      assert Climb(net, u, v, parent, path + [x]);
    }
    if v in seen {
      ClimbIsShortest(net, u, v, parent, path);
    }
    path := Reversed(path);
    assert v !in seen ==> path == [v];
  }
}
