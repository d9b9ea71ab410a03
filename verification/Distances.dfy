/** Breadth-first distances, and the cache that computes a row of them on demand. */
module Distances {
  import opened Networks
  import opened Frontiers

  method DistancesFrom(g: Net, s: nat) returns (d: seq<Word>)
    requires WellFormed(g) && s < |g.adj|
    ensures |d| == |g.adj| && forall v: nat :: v < |d| ==> d[v] == Dist(g, s, v)
  {
    hide Resting, Expanding, Queued, SeenUpTo, Marked, Steps, Shortest, Reach, Dist;
    var n := |g.adj|;
    var visited: seq<bool> := seq(n, _ => false);
    d := seq(n, _ => UNDEF);
    var q: seq<nat> := [s];
    visited := visited[s := true];
    d := d[s := 0];

    Start(g, s);
    assert Marked(visited) == {s};
    while q != []
      invariant |visited| == n
      invariant Resting(g, s, Marked(visited), q)
      invariant Recorded(g, s, Marked(visited), d)
      decreases n - |Marked(visited)|, |q|
    {
      Pop(g, s, Marked(visited), q);
      ghost var before := Marked(visited);
      ghost var rest := q[1..];
      var u := q[0];
      q := q[1..];
      for v := 0 to n
        invariant |visited| == n && visited[u] && before <= Marked(visited)
        invariant Expanding(g, s, Marked(visited), q, u, v)
        invariant Recorded(g, s, Marked(visited), d)
        invariant q == rest || before != Marked(visited)
      {
        if v in g.adj[u] && !visited[v] {
          Discover(g, s, Marked(visited), q, u, v, v);
          DistBound(g, s, v);
          MarkedUpdate(visited, v);
          visited := visited[v := true];
          d := d[v := d[u] + 1];
          q := q + [v];
        }
        Skip(g, s, Marked(visited), q, u, v);
      }
      Finish(g, s, Marked(visited), q, u, n);
      MoreMarked(g, before, Marked(visited));
    }
    Exhausted(g, s, Marked(visited));
  }

  /** BFSCachedDistance: one row of distances per source vertex, filled when first asked for. */
  class CachedDistance {
    const g: Net
    var rows: seq<seq<Word>>

    /** Whatever was asked before, a row is either empty or the row of true distances. */
    ghost predicate Valid()
      reads this
    {
      && WellFormed(g) && Symmetric(g)
      && |rows| == |g.adj|
      && forall u: nat :: u < |rows| && rows[u] != [] ==>
           |rows[u]| == |g.adj| && forall v: nat :: v < |g.adj| ==> rows[u][v] == Dist(g, u, v)
    }

    constructor (g: Net)
      requires WellFormed(g) && Symmetric(g)
      ensures Valid() && this.g == g
    {
      this.g := g;
      rows := seq(|g.adj|, _ => []);
    }

    method CacheDistanceFrom(u: nat)
      requires Valid() && u < |g.adj|
      modifies this
      ensures Valid() && rows[u] != [] && forall w: nat :: w < |rows| && w != u ==> rows[w] == old(rows[w])
    {
      var d := DistancesFrom(g, u);
      rows := rows[u := d];
    }

    method Get(u: nat, v: nat) returns (d: Word)
      requires Valid() && u < |g.adj| && v < |g.adj|
      modifies this
      ensures Valid()
      ensures d == Dist(g, u, v)
      ensures forall w: nat :: w < |rows| && old(rows[w]) != [] ==> rows[w] == old(rows[w])
      ensures rows == old(rows) || (old(rows[u]) == [] && old(rows[v]) == [] && rows == old(rows)[u := rows[u]])
    {
      if rows[u] != [] {
        return rows[u][v];
      }
      if rows[v] != [] {
        DistSymmetric(g, u, v);
        return rows[v][u];
      }
      CacheDistanceFrom(u);
      d := rows[u][v];
    }
  }
}
