/** Augmenting the matching: a free tight column is reached in the alternating graph and the path is flipped. */
module Augmenting {
  import opened Networks
  import opened Frontiers
  import opened Graphs
  import H = Hungarian

  // In the alternating graph row x is vertex x and column j is vertex k + j.

  ghost predicate Fit(w: H.Weights, l: H.Labels, M: H.Matching) {
    |l.row| == |l.col| == |M.row| == |M.col| == |w| && forall x: nat :: x < |w| ==> |w[x]| == |w|
  }

  /** Tight edges lead from rows to columns when unmatched and back when matched. */
  ghost predicate AltEdge(w: H.Weights, l: H.Labels, M: H.Matching, a: nat, b: nat)
    requires Fit(w, l, M)
  {
    var k := |w|;
    if a < k then k <= b < 2 * k && H.Tight(w, l, a, b - k) && M.row[a] != b - k
    else a < 2 * k && b < k && H.Tight(w, l, b, a - k) && M.row[b] == a - k
  }

  method BuildAlternating(w: H.Weights, ghost maxw: nat, l: H.Labels, M: H.Matching) returns (alt: Graph)
    requires H.Feasible(w, maxw, l) && |M.row| == |M.col| == |w|
    ensures fresh(alt) && alt.Valid() && alt.n == 2 * |w|
    ensures forall a: nat, b: nat :: alt.Edge(a, b) <==> AltEdge(w, l, M, a, b)
  {
    hide Graph.Ways, Mutual;
    var k := |w|;
    alt := new Graph(2 * k, true);
    for x := 0 to k
      invariant alt.Valid() && fresh(alt) && alt.n == 2 * k && alt.directed
      invariant forall a: nat, b: nat :: alt.Edge(a, b) <==> AltEdge(w, l, M, a, b) && (if a < k then a else b) < x
    {
      for j := 0 to k
        invariant alt.Valid() && fresh(alt) && alt.n == 2 * k && alt.directed
        invariant forall a: nat, b: nat :: alt.Edge(a, b) <==>
          && AltEdge(w, l, M, a, b)
          && var r, c := if a < k then a else b, if a < k then b - k else a - k;
             (r < x || (r == x && c < j))
      {
        var sum: Word := l.row[x] + l.col[j];
        if sum == w[x][j] {
          if M.row[x] == j {
            alt.PutEdge(k + j, x);
          } else {
            alt.PutEdge(x, k + j);
          }
        }
      }
    }
  }

  /** Breadth-first search along successors, stopping when `v` is popped. */
  method SearchFrom(g: Net, u: nat, v: nat) returns (pi: seq<nat>)
    requires WellFormed(g) && u < |g.adj| && v < |g.adj|
    ensures Parents(g, u, Found(u, pi), pi)
    ensures v in Found(u, pi) <==> Reach(g, u, v)
  {
    hide Resting, Expanding, Queued, SeenUpTo, Marked, Steps, Shortest, Reach, Dist;
    var n := |g.adj|;
    pi := seq(n, _ => UNDEF);
    var visited: seq<bool> := seq(n, _ => false);
    var q: seq<nat> := [u];
    visited := visited[u := true];
    Start(g, u);
    assert Marked(visited) == {u};
    while q != []
      invariant |visited| == n && Resting(g, u, Marked(visited), q)
      invariant Parents(g, u, Marked(visited), pi) && u in Marked(visited)
      decreases n - |Marked(visited)|, |q|
    {
      Pop(g, u, Marked(visited), q);
      var a := q[0];
      q := q[1..];
      if a == v {
        ParentsFound(g, u, Marked(visited), pi);
        return;
      }
      ghost var before, rest := Marked(visited), q;
      for b := 0 to n
        invariant |visited| == n && visited[a] && before <= Marked(visited) && u in Marked(visited)
        invariant Expanding(g, u, Marked(visited), q, a, b) && Parents(g, u, Marked(visited), pi)
        invariant q == rest || before != Marked(visited)
      {
        if b in g.adj[a] && !visited[b] {
          Discover(g, u, Marked(visited), q, a, b, b);
          MarkedUpdate(visited, b);
          pi := pi[b := a];
          q := q + [b];
          visited := visited[b := true];
        }
        Skip(g, u, Marked(visited), q, a, b);
      }
      Finish(g, u, Marked(visited), q, a, n);
      MoreMarked(g, before, Marked(visited));
    }
    Exhausted(g, u, Marked(visited));
    ParentsFound(g, u, Marked(visited), pi);
  }

  ghost predicate IsAlternating(w: H.Weights, l: H.Labels, M: H.Matching, g: Net)
    requires Fit(w, l, M)
  {
    && |g.adj| == 2 * |w| <= UNDEF
    && forall a: nat, b: nat :: a < 2 * |w| ==> (b in g.adj[a] <==> AltEdge(w, l, M, a, b))
  }

  lemma AlternatingWellFormed(w: H.Weights, l: H.Labels, M: H.Matching, g: Net)
    requires Fit(w, l, M)
    requires IsAlternating(w, l, M, g)
    ensures WellFormed(g)
  {
  }

  lemma EdgeToColumn(w: H.Weights, l: H.Labels, M: H.Matching, g: Net, x: nat, j: nat)
    requires Fit(w, l, M) && IsAlternating(w, l, M, g) && x < |w| && j < |w|
    ensures |w| + j in g.adj[x] <==> H.Tight(w, l, x, j) && M.row[x] != j
  {
    assert (|w| + j) - |w| == j;
  }

  lemma EdgeToRow(w: H.Weights, l: H.Labels, M: H.Matching, g: Net, x: nat, j: nat)
    requires Fit(w, l, M) && IsAlternating(w, l, M, g) && x < |w| && j < |w|
    ensures x in g.adj[|w| + j] <==> H.Tight(w, l, x, j) && M.row[x] == j
  {
    assert (|w| + j) - |w| == j;
  }

  lemma EdgeSides(w: H.Weights, l: H.Labels, M: H.Matching, g: Net, a: nat, b: nat)
    requires Fit(w, l, M) && IsAlternating(w, l, M, g) && a < 2 * |w| && b in g.adj[a]
    ensures if a < |w| then |w| <= b < 2 * |w| else b < |w|
  {
  }

  /** A tight edge from a reachable row makes its column, and the column's partner, reachable. */
  lemma ReachAlong(w: H.Weights, l: H.Labels, M: H.Matching, g: Net, u: nat, x: nat, j: nat)
    requires Fit(w, l, M) && IsAlternating(w, l, M, g) && x < |w| && j < |w|
    requires Reach(g, u, x) && H.Tight(w, l, x, j) && M.row[x] != j
    ensures Reach(g, u, |w| + j)
    ensures forall z: nat :: z < |w| && M.row[z] == j && H.Tight(w, l, z, j) ==> Reach(g, u, z)
  {
    hide Steps, Shortest, Dist, IsAlternating, H.Tight;
    AlternatingWellFormed(w, l, M, g);
    AlternatingSize(w, l, M, g);
    EdgeToColumn(w, l, M, g, x, j);
    DistExtend(g, u, x, |w| + j);
    forall z: nat | z < |w| && M.row[z] == j && H.Tight(w, l, z, j)
      ensures Reach(g, u, z)
    {
      EdgeToRow(w, l, M, g, z, j);
      DistExtend(g, u, |w| + j, z);
    }
  }

  lemma LinkFacts(w: H.Weights, maxw: nat, l: H.Labels, M: H.Matching, t: H.Tree, order: seq<nat>, link: seq<nat>, a: nat)
    returns (b: nat, j: nat)
    requires H.Balanced(w, maxw, l, M) && H.Sized(|w|, t) && H.Grown(w, maxw, l, M, t, order, link)
    requires 0 < a < |order|
    ensures b < a && order[a] < |w| && order[b] < |w| && j < |w| && M.row[order[a]] == j
    ensures Fit(w, l, M) && H.Tight(w, l, order[a], j) && H.Tight(w, l, order[b], j)
    ensures order[b] != order[a] ==> M.row[order[b]] != j
  {
    hide H.Tight, H.FreeZero;
    b, j := link[a], M.row[order[a]];
    assert M.row[order[a]] != UNDEF;
    assert M.col[j] == order[a];
  }

  lemma FirstRow(w: H.Weights, maxw: nat, l: H.Labels, M: H.Matching, t: H.Tree, order: seq<nat>, link: seq<nat>)
    requires H.Balanced(w, maxw, l, M) && H.Sized(|w|, t) && H.Grown(w, maxw, l, M, t, order, link)
    ensures |order| > 0 && order[0] == t.u < |w|
  {
    hide H.Tight;
  }

  /** Every row of the search tree is reachable from the root. */
  lemma {:induction false} TreeReached(w: H.Weights, maxw: nat, l: H.Labels, M: H.Matching, t: H.Tree, order: seq<nat>, link: seq<nat>, g: Net, a: nat)
    requires H.Balanced(w, maxw, l, M) && H.Sized(|w|, t) && H.Grown(w, maxw, l, M, t, order, link)
    requires Fit(w, l, M) && IsAlternating(w, l, M, g) && a < |order|
    ensures Reach(g, t.u, order[a])
    decreases a
  {
    hide Reach, IsAlternating, H.Tight, H.Feasible, H.FreeZero, H.Grown, H.TwoSided, H.MatchedTight;
    AlternatingSize(w, l, M, g);
    FirstRow(w, maxw, l, M, t, order, link);
    if a == 0 {
      RootReached(g, t.u);
    } else {
      var b, j := LinkFacts(w, maxw, l, M, t, order, link, a);
      TreeReached(w, maxw, l, M, t, order, link, g, b);
      if order[b] != order[a] {
        ReachAlong(w, l, M, g, t.u, order[b], j);
      }
    }
  }

  lemma RootReached(g: Net, u: nat)
    requires u < |g.adj|
    ensures Reach(g, u, u)
  {
    assert Steps(g, u, u, 0);
  }

  /** So a free column with a tight edge from the tree is reachable too. */
  lemma ColumnReached(w: H.Weights, maxw: nat, l: H.Labels, M: H.Matching, t: H.Tree, order: seq<nat>, link: seq<nat>, g: Net, v: nat)
    requires H.Searching(w, maxw, l, M, t, order, link) && Fit(w, l, M) && IsAlternating(w, l, M, g)
    requires v < |w| && !t.T[v] && t.NS[v] && M.col[v] == UNDEF
    ensures Reach(g, t.u, |w| + v)
  {
    hide Reach, IsAlternating, H.Tight, H.Grown, H.Slacks, H.Paired, H.FreeZero, H.MatchedTight;
    var b := H.GrownFrom(w, maxw, l, M, t, order, link, v);
    TreeReached(w, maxw, l, M, t, order, link, g, b);
    ReachAlong(w, l, M, g, t.u, order[b], v);
  }

  // Flipping the path. `y` is the column vertex to be matched next; everything else is consistent.

  ghost predicate Flipping(w: H.Weights, maxw: nat, l: H.Labels, M0: H.Matching, M: H.Matching, g: Net, u: nat, y: nat)
    requires H.Grid(w, maxw) && |l.row| == |l.col| == |M0.row| == |M0.col| == |w|
  {
    var k := |w|;
    && |M.row| == |M.col| == k && k <= y < 2 * k && u < k
    && (forall x: nat :: x < k && M.row[x] != UNDEF ==>
          M.row[x] < k && M.row[x] != y - k && M.col[M.row[x]] == x && H.Tight(w, l, x, M.row[x]))
    && (forall j: nat :: j < k && j != y - k && M.col[j] != UNDEF ==> M.col[j] < k && M.row[M.col[j]] == j)
    && (forall x: nat :: x < k ==> (M.row[x] == UNDEF <==> M0.row[x] == UNDEF))
    && (forall j: nat :: j < k && j != y - k && M.col[j] == UNDEF ==> M0.col[j] == UNDEF)
    && forall x: nat :: x < k && Dist(g, u, x) < Dist(g, u, y) ==> M.row[x] == M0.row[x]
  }

  /** The matching after the last flip: the root is matched and no other row has become free or matched. */
  ghost predicate Augmented(w: H.Weights, maxw: nat, l: H.Labels, M0: H.Matching, M: H.Matching, u: nat) {
    && H.Balanced(w, maxw, l, M)
    && |M0.row| == |w| && forall x: nat :: x < |w| ==> (M.row[x] == UNDEF <==> M0.row[x] == UNDEF && x != u)
  }

  /** One pass of the flipping loop: `x` leaves its old column for `y`, and the old column is next. */
  lemma FlipStep(w: H.Weights, maxw: nat, l: H.Labels, M0: H.Matching, M: H.Matching, g: Net, u: nat, y: nat, x: nat)
    requires H.Balanced(w, maxw, l, M0) && Flipping(w, maxw, l, M0, M, g, u, y)
    requires x < |w| && H.Tight(w, l, x, y - |w|) && Dist(g, u, x) < Dist(g, u, y)
    requires M0.row[x] < |w| && Dist(g, u, |w| + M0.row[x]) < Dist(g, u, x)
    ensures Flipping(w, maxw, l, M0, H.Matching(M.row[x := y - |w|], M.col[y - |w| := x]), g, u, |w| + M0.row[x])
  {
    hide Dist, H.FreeZero, H.MatchedTight, H.TwoSided, H.Tight;
    H.Shapes(w, maxw, l, M0);
    assert M.row[x] == M0.row[x];
    FlipStepConsistent(w, maxw, l, M0, M, g, u, y, x);
  }

  lemma FlipStepConsistent(w: H.Weights, maxw: nat, l: H.Labels, M0: H.Matching, M: H.Matching, g: Net, u: nat, y: nat, x: nat)
    requires H.Grid(w, maxw) && |l.row| == |l.col| == |M0.row| == |M0.col| == |w|
    requires Flipping(w, maxw, l, M0, M, g, u, y)
    requires x < |w| && H.Tight(w, l, x, y - |w|) && Dist(g, u, x) < Dist(g, u, y)
    requires M.row[x] == M0.row[x] < |w| && Dist(g, u, |w| + M0.row[x]) < Dist(g, u, x)
    ensures Flipping(w, maxw, l, M0, H.Matching(M.row[x := y - |w|], M.col[y - |w| := x]), g, u, |w| + M0.row[x])
  {
    hide Dist, H.Tight;
    var N := H.Matching(M.row[x := y - |w|], M.col[y - |w| := x]);
    assert (|w| + M0.row[x]) - |w| == M0.row[x];
    assert M.col[M.row[x]] == x;
  }

  lemma FlipEnd(w: H.Weights, maxw: nat, l: H.Labels, M0: H.Matching, M: H.Matching, g: Net, u: nat, y: nat)
    requires H.Balanced(w, maxw, l, M0) && Flipping(w, maxw, l, M0, M, g, u, y)
    requires u < |w| && M0.row[u] == UNDEF && H.Tight(w, l, u, y - |w|)
    ensures Augmented(w, maxw, l, M0, H.Matching(M.row[u := y - |w|], M.col[y - |w| := u]), u)
  {
    hide Dist, H.Tight;
  }

  ghost predicate OnPath(k: nat, g: Net, seen: set<nat>, y: nat) {
    k <= y < 2 * k && y in seen
  }

  /** Walks back along the parents from the free column to the root, matching each column on the way to its parent row. */
  method Flip(w: H.Weights, ghost maxw: nat, ghost l: H.Labels, M0: H.Matching, ghost g: Net, u: nat, v: nat, pi: seq<nat>)
    returns (M: H.Matching)
    requires H.Balanced(w, maxw, l, M0) && Fit(w, l, M0) && IsAlternating(w, l, M0, g)
    requires u < |w| && M0.row[u] == UNDEF && v < |w| && M0.col[v] == UNDEF
    requires Parents(g, u, Found(u, pi), pi) && |w| + v in Found(u, pi)
    ensures Augmented(w, maxw, l, M0, M, u)
  {
    hide Dist, IsAlternating, Parents, Found, Flipping, Augmented, H.Tight, H.Feasible, H.FreeZero, H.TwoSided, H.MatchedTight;
    var k := |w|;
    H.Shapes(w, maxw, l, M0);
    FlipBegin(w, maxw, l, M0, g, u, v);
    ghost var seen := Found(u, pi);
    var row: seq<nat>, col: seq<nat> := M0.row, M0.col;
    var y: nat := k + v;
    while true
      invariant |row| == |col| == k && OnPath(k, g, seen, y)
      invariant Flipping(w, maxw, l, M0, H.Matching(row, col), g, u, y)
      decreases Dist(g, u, y)
    {
      ghost var x0 := ParentRow(w, maxw, l, M0, g, u, pi, seen, y);
      var x: nat := pi[y];
      if x == u {
        FlipEnd(w, maxw, l, M0, H.Matching(row, col), g, u, y);
      } else {
        ParentColumn(w, maxw, l, M0, g, u, pi, seen, x);
        FlipStep(w, maxw, l, M0, H.Matching(row, col), g, u, y, x);
      }
      col := col[y - k := x];
      row := row[x := y - k];
      y := pi[x];
      if y == UNDEF {
        break;
      }
    }
    M := H.Matching(row, col);
  }

  lemma FlipBegin(w: H.Weights, maxw: nat, l: H.Labels, M0: H.Matching, g: Net, u: nat, v: nat)
    requires H.Balanced(w, maxw, l, M0)
    requires u < |w| && v < |w| && M0.col[v] == UNDEF
    ensures Flipping(w, maxw, l, M0, M0, g, u, |w| + v)
  {
  }

  /** The parent of a column is a row with a tight edge to it, one level nearer the root. */
  lemma ParentRow(w: H.Weights, maxw: nat, l: H.Labels, M: H.Matching, g: Net, u: nat, pi: seq<nat>, seen: set<nat>, y: nat) returns (x: nat)
    requires H.Grid(w, maxw) && Fit(w, l, M) && IsAlternating(w, l, M, g) && Parents(g, u, seen, pi)
    requires u < |w| && OnPath(|w|, g, seen, y)
    ensures y < |pi| == 2 * |w| && x == pi[y] < |w| && x in seen && pi[u] == UNDEF && H.Tight(w, l, x, y - |w|) && Dist(g, u, x) < Dist(g, u, y)
  {
    hide Dist, IsAlternating, H.Tight;
    assert |g.adj| == 2 * |w| by { AlternatingSize(w, l, M, g); }
    x := pi[y];
    EdgeSides(w, l, M, g, x, y);
    EdgeToColumn(w, l, M, g, x, y - |w|);
  }

  lemma AlternatingSize(w: H.Weights, l: H.Labels, M: H.Matching, g: Net)
    requires Fit(w, l, M) && IsAlternating(w, l, M, g)
    ensures |g.adj| == 2 * |w| <= UNDEF
  {
  }

  /** The parent of a row other than the root is the column it is matched with. */
  lemma ParentColumn(w: H.Weights, maxw: nat, l: H.Labels, M: H.Matching, g: Net, u: nat, pi: seq<nat>, seen: set<nat>, x: nat)
    requires H.Grid(w, maxw) && Fit(w, l, M) && IsAlternating(w, l, M, g) && Parents(g, u, seen, pi)
    requires u < |w| && x < |w| && x in seen && x != u
    ensures M.row[x] < |w| && pi[x] == |w| + M.row[x] != UNDEF && pi[x] in seen && Dist(g, u, pi[x]) < Dist(g, u, x)
  {
  }
}
