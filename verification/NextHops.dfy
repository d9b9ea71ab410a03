/** The next-hop sets: from each source, the neighbours that begin a shortest walk to each target. */
module NextHops {
  import opened Networks
  import opened Frontiers
  import opened Placements

  /** `i` is not the source and lies on a shortest walk from it to `v`. */
  ghost predicate Between(g: Net, s: nat, i: nat, v: nat) {
    && i != s && i < |g.adj| && Reach(g, s, i) && Reach(g, i, v)
    && Dist(g, s, i) + Dist(g, i, v) == Dist(g, s, v)
  }

  type Table = seq<seq<bool>>

  ghost predicate Square(t: Table, n: nat) {
    |t| == n && forall v :: 0 <= v < n ==> |t[v]| == n
  }

  ghost predicate Sound(g: Net, s: nat, good: Table)
    requires Square(good, |g.adj|)
  {
    forall v: nat, i: nat :: v < |good| && i < |good| && good[v][i] ==> Between(g, s, i, v)
  }

  /** What expanding `w` has to contribute to its neighbour `v` one level further out. */
  ghost predicate HandedOn(g: Net, s: nat, good: Table, w: nat, v: nat)
    requires Square(good, |g.adj|) && w < |g.adj|
  {
    v in g.adj[w] && v < |good| && Dist(g, s, v) == Dist(g, s, w) + 1 ==>
      forall i: nat :: i < |good| && (i == v || Between(g, s, i, w)) ==> good[v][i]
  }

  ghost predicate Complete(g: Net, s: nat, good: Table, seen: set<nat>, q: seq<nat>, u: nat, k: nat)
    requires Square(good, |g.adj|)
  {
    forall w: nat, v: nat :: w < |good| && w in seen && w !in q && (w != u || v < k) ==> HandedOn(g, s, good, w, v)
  }

  ghost predicate RowExact(g: Net, s: nat, good: Table, u: nat)
    requires Square(good, |g.adj|)
  {
    u < |good| && forall i: nat :: i < |good| ==> (good[u][i] <==> Between(g, s, i, u))
  }

  lemma BothWays(g: Net, u: nat, v: nat)
    requires Undirected(g) && u < |g.adj| && v < |g.adj|
    ensures Reach(g, u, v) == Reach(g, v, u) && Dist(g, u, v) == Dist(g, v, u)
    ensures Reach(g, u, v) ==> (Dist(g, u, v) == 0 <==> u == v)
  {
    if Reach(g, u, v) {
      DistZero(g, u, v);
    }
    DistSymmetric(g, u, v);
  }

  lemma Self(g: Net, u: nat)
    requires u < |g.adj|
    ensures Reach(g, u, u) && Dist(g, u, u) == 0
  {
    assert Steps(g, u, u, 0);
  }

  /** A vertex between `s` and `u` is also between `s` and the last vertex before `u`. */
  lemma BetweenLast(g: Net, s: nat, i: nat, u: nat) returns (w: nat)
    requires Undirected(g) && s < |g.adj| && u < |g.adj| && Between(g, s, i, u)
    ensures w < |g.adj| && u in g.adj[w] && Reach(g, s, w) && Dist(g, s, u) == Dist(g, s, w) + 1
    ensures i == u || Between(g, s, i, w)
  {
    hide Steps, Shortest;
    BothWays(g, s, i);
    BothWays(g, i, u);
    DistTriangle(g, s, i, u);
    BothWays(g, s, u);
    if i == u {
      w := DistLastEdge(g, s, u);
    } else {
      w := DistLastEdge(g, i, u);
      DistTriangle(g, s, i, w);
      DistExtend(g, s, w, u);
    }
  }

  /** Conversely it stays between when the walk is prolonged away from `s`. */
  lemma BetweenExtend(g: Net, s: nat, i: nat, u: nat, v: nat)
    requires Undirected(g) && s < |g.adj| && u < |g.adj| && v in g.adj[u]
    requires Reach(g, s, u) && Dist(g, s, v) == Dist(g, s, u) + 1
    ensures Between(g, s, v, v)
    ensures Between(g, s, i, u) ==> Between(g, s, i, v)
  {
    hide Steps, Shortest;
    DistExtend(g, s, u, v);
    BothWays(g, s, v);
    Self(g, v);
    if Between(g, s, i, u) {
      BothWays(g, s, i);
      BothWays(g, i, u);
      DistExtend(g, i, u, v);
      DistTriangle(g, s, i, v);
    }
  }

  /** By the time `u` is popped, everything its row will ever hold has been passed to it. */
  lemma RowSettled(g: Net, s: nat, good: Table, seen: set<nat>, q: seq<nat>, u: nat)
    requires Undirected(g) && s < |g.adj| && u < |g.adj| && Square(good, |g.adj|)
    requires Expanding(g, s, seen, q, u, 0)
    requires Sound(g, s, good) && Complete(g, s, good, seen, q, u, 0)
    ensures RowExact(g, s, good, u)
  {
    hide Steps, Shortest, Reach, Undirected;
    forall i: nat | i < |good| && Between(g, s, i, u)
      ensures good[u][i]
    {
      var w := BetweenLast(g, s, i, u);
      assert w in seen && w !in q && w != u;
      assert HandedOn(g, s, good, w, u);
    }
  }

  /** Merges the row of `u` into the row of its neighbour `v`. */
  method Merge(good: Table, u: nat, v: nat) returns (good': Table)
    requires Square(good, |good|) && u < |good| && v < |good| && u != v
    ensures Square(good', |good|)
    ensures forall w: nat :: w < |good| && w != v ==> good'[w] == good[w]
    ensures forall i: nat :: i < |good| ==> good'[v][i] == (good[v][i] || i == v || good[u][i])
  {
    var row := good[v][v := true];
    for i := 0 to |good|
      invariant |row| == |good|
      invariant forall k: nat :: k < i ==> row[k] == (good[v][k] || k == v || good[u][k])
      invariant forall k: nat :: i <= k < |good| ==> row[k] == (good[v][k] || k == v)
    {
      row := row[i := row[i] || good[u][i]];
    }
    good' := good[v := row];
  }

  lemma MergeKeeps(g: Net, s: nat, good: Table, good': Table, seen: set<nat>, q: seq<nat>, u: nat, v: nat)
    requires Undirected(g) && s < |g.adj| && u < |g.adj| && v in g.adj[u] && v < |g.adj| && u != v
    requires Square(good, |g.adj|) && Square(good', |g.adj|)
    requires Sound(g, s, good) && RowExact(g, s, good, u) && Complete(g, s, good, seen, q, u, v)
    requires Reach(g, s, u) && Dist(g, s, v) == Dist(g, s, u) + 1
    requires forall w: nat :: w < |good| && w != v ==> good'[w] == good[w]
    requires forall i: nat :: i < |good| ==> good'[v][i] == (good[v][i] || i == v || good[u][i])
    ensures Sound(g, s, good') && RowExact(g, s, good', u) && Complete(g, s, good', seen, q, u, v + 1)
  {
    hide Steps, Shortest, Reach, Undirected, Dist;
    forall x: nat, i: nat | x < |good| && i < |good| && good'[x][i]
      ensures Between(g, s, i, x)
    {
      if x == v {
        BetweenExtend(g, s, i, u, v);
      }
    }
    forall w: nat, x: nat | w < |good| && w in seen && w !in q && (w != u || x < v + 1)
      ensures HandedOn(g, s, good', w, x)
    {
      if w != u || x < v {
        assert HandedOn(g, s, good, w, x);
      }
    }
  }

  /** Breadth-first search from `src`, handing every good vertex of a node on to the next level. */
  method GoodVertices(g: Net, src: nat) returns (good: Table)
    requires Undirected(g) && src < |g.adj|
    ensures Square(good, |g.adj|)
    ensures forall u: nat :: u < |g.adj| ==> RowExact(g, src, good, u)
  {
    hide Undirected, Resting, Expanding, Queued, SeenUpTo, Sound, Complete, RowExact, Steps, Shortest, Reach, Dist;
    var n := |g.adj|;
    assert WellFormed(g) by { UndirectedShape(g); }
    good := seq(n, _ => seq(n, _ => false));
    var d: seq<Word> := seq(n, _ => UNDEF);
    ghost var seen: set<nat> := {src};
    d := d[src := 0];
    var q: seq<nat> := [src];
    Start(g, src);
    BeginTable(g, src, good);
    while q != []
      invariant Square(good, n)
      invariant Resting(g, src, seen, q) && Recorded(g, src, seen, d)
      invariant Sound(g, src, good) && Complete(g, src, good, seen, q, n, 0)
      decreases n - |seen|, |q|
    {
      var u := q[0];
      Pop(g, src, seen, q);
      CompletePop(g, src, good, seen, q);
      q := q[1..];
      ghost var before, rest := seen, q;
      RowSettled(g, src, good, seen, q, u);
      assert Reach(g, src, u) by { SeenReached(g, src, seen, q, u); }
      for v := 0 to n
        invariant Square(good, n) && u in seen && Reach(g, src, u)
        invariant before <= seen && (seen == before ==> q == rest)
        invariant Expanding(g, src, seen, q, u, v) && Recorded(g, src, seen, d)
        invariant Sound(g, src, good) && RowExact(g, src, good, u) && Complete(g, src, good, seen, q, u, v)
      {
        if v in g.adj[u] {
          if d[v] == UNDEF {
            Discover(g, src, seen, q, u, v, v);
            DistBound(g, src, v);
            CompletePush(g, src, good, seen, q, u, v);
            q := q + [v];
            d := d[v := d[u] + 1];
            seen := seen + {v};
          }
          Skip(g, src, seen, q, u, v);
          if d[v] == d[u] + 1 {
            var good' := Merge(good, u, v);
            MergeKeeps(g, src, good, good', seen, q, u, v);
            good := good';
          } else {
            CompleteSkip(g, src, good, seen, q, u, v);
          }
        } else {
          Skip(g, src, seen, q, u, v);
          CompleteSkip(g, src, good, seen, q, u, v);
        }
      }
      Finish(g, src, seen, q, u, n);
      CompleteFinish(g, src, good, seen, q, u);
      QueuedBound(g, src, seen, q);
      MoreMarked(g, before, seen);
    }
    AllExact(g, src, good, seen);
  }

  lemma UndirectedShape(g: Net)
    requires Undirected(g)
    ensures WellFormed(g)
  {
  }

  lemma SeenReached(g: Net, s: nat, seen: set<nat>, q: seq<nat>, u: nat)
    requires Expanding(g, s, seen, q, u, 0)
    ensures Reach(g, s, u)
  {
  }

  lemma QueuedBound(g: Net, s: nat, seen: set<nat>, q: seq<nat>)
    requires Resting(g, s, seen, q)
    ensures forall v :: v in seen ==> v < |g.adj|
  {
  }

  lemma BeginTable(g: Net, s: nat, good: Table)
    requires Square(good, |g.adj|) && forall v: nat, i: nat :: v < |good| && i < |good| ==> !good[v][i]
    ensures Sound(g, s, good) && Complete(g, s, good, {s}, [s], |g.adj|, 0)
  {
    assert [s][0] == s;
  }

  lemma CompletePop(g: Net, s: nat, good: Table, seen: set<nat>, q: seq<nat>)
    requires Square(good, |g.adj|) && q != [] && Complete(g, s, good, seen, q, |g.adj|, 0)
    ensures Complete(g, s, good, seen, q[1..], q[0], 0)
  {
  }

  lemma CompletePush(g: Net, s: nat, good: Table, seen: set<nat>, q: seq<nat>, u: nat, v: nat)
    requires Square(good, |g.adj|) && Complete(g, s, good, seen, q, u, v)
    ensures Complete(g, s, good, seen + {v}, q + [v], u, v)
  {
  }

  lemma CompleteSkip(g: Net, s: nat, good: Table, seen: set<nat>, q: seq<nat>, u: nat, v: nat)
    requires Square(good, |g.adj|) && u < |g.adj| && Complete(g, s, good, seen, q, u, v)
    requires v !in g.adj[u] || Dist(g, s, v) != Dist(g, s, u) + 1
    ensures Complete(g, s, good, seen, q, u, v + 1)
  {
  }

  lemma CompleteFinish(g: Net, s: nat, good: Table, seen: set<nat>, q: seq<nat>, u: nat)
    requires Square(good, |g.adj|) && Complete(g, s, good, seen, q, u, |g.adj|)
    ensures Complete(g, s, good, seen, q, |g.adj|, 0)
  {
  }

  lemma AllExact(g: Net, s: nat, good: Table, seen: set<nat>)
    requires Undirected(g) && s < |g.adj| && Square(good, |g.adj|)
    requires Resting(g, s, seen, [])
    requires Sound(g, s, good) && Complete(g, s, good, seen, [], |g.adj|, 0)
    ensures forall u: nat :: u < |g.adj| ==> RowExact(g, s, good, u)
  {
    hide Steps, Shortest, Reach, Resting, Undirected;
    UndirectedShape(g);
    Exhausted(g, s, seen);
    forall u: nat, i: nat | u < |good| && i < |good| && Between(g, s, i, u)
      ensures good[u][i]
    {
      var w := BetweenLast(g, s, i, u);
      assert Reach(g, s, w) && w in seen;
      assert HandedOn(g, s, good, w, u);
    }
  }

  /** The neighbours of `s`, ascending, that begin a shortest walk to `t`. */
  ghost predicate Hops(g: Net, s: nat, t: nat, hops: seq<nat>)
    requires s < |g.adj|
  {
    && (forall v: nat :: v in hops <==> Closer(g, s, t, v))
    && forall i, j :: 0 <= i < j < |hops| ==> hops[i] < hops[j]
  }

  /** Reads the next hops from `src` to `u` off the finished table. */
  method Collect(g: Net, src: nat, good: Table, u: nat) returns (hops: seq<nat>)
    requires Undirected(g) && src < |g.adj| && u < |g.adj|
    requires Square(good, |g.adj|) && RowExact(g, src, good, u)
    ensures Hops(g, src, u, hops)
  {
    hide Steps, Shortest, Reach, Undirected;
    hops := [];
    for v := 0 to |g.adj|
      invariant forall x: nat :: x in hops <==> x < v && Closer(g, src, u, x)
      invariant forall i :: 0 <= i < |hops| ==> hops[i] < v
      invariant forall i, j :: 0 <= i < j < |hops| ==> hops[i] < hops[j]
    {
      CloserBetween(g, src, u, v);
      if v in g.adj[src] && good[u][v] {
        hops := hops + [v];
      }
    }
    UndirectedShape(g);
  }

  lemma CloserBetween(g: Net, s: nat, t: nat, v: nat)
    requires Undirected(g) && s < |g.adj| && t < |g.adj| && v < |g.adj|
    ensures Closer(g, s, t, v) <==> v in g.adj[s] && Between(g, s, v, t)
  {
    hide Steps, Shortest;
    if v in g.adj[s] {
      Self(g, s);
      DistExtend(g, s, s, v);
      BothWays(g, s, v);
      if Reach(g, v, t) {
        DistTriangle(g, s, v, t);
      } else if Reach(g, s, t) {
        DistBound(g, s, t);
      }
    }
  }

  type HopMatrix = seq<seq<seq<nat>>>

  ghost predicate HopsExact(g: Net, m: HopMatrix) {
    && |m| == |g.adj|
    && (forall s: nat :: s < |m| ==> |m[s]| == |g.adj|)
    && forall s: nat, t: nat :: s < |m| && t < |m| ==> Hops(g, s, t, m[s][t])
  }

  method FindGoodVertices(g: Net, src: nat) returns (rows: seq<seq<nat>>)
    requires Undirected(g) && src < |g.adj|
    ensures |rows| == |g.adj| && forall t: nat :: t < |g.adj| ==> Hops(g, src, t, rows[t])
  {
    hide Undirected, RowExact, Hops;
    var good := GoodVertices(g, src);
    rows := [];
    for u := 0 to |g.adj|
      invariant |rows| == u && forall t: nat :: t < u ==> Hops(g, src, t, rows[t])
    {
      var hops := Collect(g, src, good, u);
      rows := rows + [hops];
    }
  }

  /** preprocess(): one table of next hops per source. */
  method Preprocess(g: Net) returns (m: HopMatrix)
    requires Undirected(g)
    ensures HopsExact(g, m)
  {
    hide Undirected, Hops;
    m := [];
    for u := 0 to |g.adj|
      invariant |m| == u && forall s: nat :: s < u ==> |m[s]| == |g.adj|
      invariant forall s: nat, t: nat :: s < u && t < |g.adj| ==> Hops(g, s, t, m[s][t])
    {
      var rows := FindGoodVertices(g, u);
      m := m + [rows];
    }
  }
}
