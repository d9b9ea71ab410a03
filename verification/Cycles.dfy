/** The depth-first search for a happy chain. Vertices go white, silver (on the stack), gray, black. */
module Cycles {
  import opened Networks
  import opened Sums

  datatype Color = White | Silver | Gray | Black

  ghost predicate LoopFree(adj: seq<seq<nat>>) {
    forall u, k :: 0 <= u < |adj| && 0 <= k < |adj[u]| ==> adj[u][k] < |adj| && adj[u][k] != u
  }

  /** A simple cycle, listed against its edges. */
  ghost predicate IsCycle(adj: seq<seq<nat>>, c: seq<nat>) {
    && |c| >= 2 && Distinct(c)
    && (forall i :: 0 <= i < |c| ==> c[i] < |adj|)
    && (forall i :: 0 <= i < |c| - 1 ==> c[i] in adj[c[i + 1]])
    && c[|c| - 1] in adj[c[0]]
  }

  /** Consecutive vertices are joined by edges. */
  ghost predicate Trail(adj: seq<seq<nat>>, p: seq<nat>) {
    && (forall i :: 0 <= i < |p| ==> p[i] < |adj|)
    && forall i :: 0 <= i < |p| - 1 ==> p[i + 1] in adj[p[i]]
  }

  ghost predicate ClosedTrail(adj: seq<seq<nat>>, src: nat, p: seq<nat>) {
    |p| >= 2 && Trail(adj, p) && p[0] == src && p[|p| - 1] == src
  }

  ghost predicate OnCycle(adj: seq<seq<nat>>, src: nat) {
    exists p :: ClosedTrail(adj, src, p)
  }

  /** What the stack, the colours and the parents agree on; `up[k]` is where the parent of `stack[k]` stands. */
  ghost predicate Stacked(adj: seq<seq<nat>>, src: nat, stack: seq<nat>, color: seq<Color>, pi: seq<nat>, up: seq<nat>) {
    && |color| == |pi| == |adj| && src < |adj| && color[src] != White
    && |up| == |stack| && Distinct(stack)
    && (stack != [] ==> stack[0] == src)
    && (forall k :: 0 <= k < |stack| ==> stack[k] < |adj| && (color[stack[k]] == Silver || color[stack[k]] == Gray))
    && (forall v: nat :: v < |adj| && (color[v] == Silver || color[v] == Gray) ==> v in stack)
    && (forall k :: 0 < k < |stack| ==> Child(adj, stack, color, pi, k, up[k]))
  }

  /** The parent of `stack[k]` is the topmost gray vertex beneath it. */
  ghost predicate Child(adj: seq<seq<nat>>, stack: seq<nat>, color: seq<Color>, pi: seq<nat>, k: nat, m: nat)
    requires |color| == |pi| == |adj| && forall k :: 0 <= k < |stack| ==> stack[k] < |adj|
  {
    && m < k < |stack|
    && pi[stack[k]] == stack[m] && stack[k] in adj[stack[m]] && color[stack[m]] == Gray
    && forall x :: m < x < k ==> color[stack[x]] == Silver
  }

  /** The first `i` edges out of `u` lead to coloured vertices other than the source. */
  ghost predicate Looked(adj: seq<seq<nat>>, src: nat, color: seq<Color>, u: nat, i: nat) {
    && u < |adj| == |color| && i <= |adj[u]|
    && forall k :: 0 <= k < i ==> adj[u][k] != src && adj[u][k] < |adj| && color[adj[u][k]] != White
  }

  /** Every gray or black vertex, except perhaps `but`, has been looked at completely. */
  ghost predicate AllLooked(adj: seq<seq<nat>>, src: nat, color: seq<Color>, but: nat) {
    && |color| == |adj|
    && forall u: nat :: u < |adj| && u != but && (color[u] == Gray || color[u] == Black) ==> Looked(adj, src, color, u, |adj[u]|)
  }

  ghost function Left(c: Color): nat {
    match c case White => 3 case Silver => 2 case Gray => 1 case Black => 0
  }

  /** How many colour changes are still to come. */
  ghost function Unfinished(color: seq<Color>): nat {
    Sum(seq(|color|, i requires 0 <= i < |color| => Left(color[i])))
  }

  lemma Recolor(color: seq<Color>, v: nat, c: Color)
    requires v < |color|
    ensures Unfinished(color[v := c]) + Left(color[v]) == Unfinished(color) + Left(c)
  {
    var s := seq(|color|, i requires 0 <= i < |color| => Left(color[i]));
    assert seq(|color|, i requires 0 <= i < |color| => Left(color[v := c][i])) == s[v := Left(c)];
    SumUpdate(s, v, Left(c));
  }

  // The search itself, as a function of the stack, the colours and the parents: what one look around does, and the cycle that turns up.

  /** The colours after looking along edges to `vs`: white vertices go on the stack. */
  ghost function Painted(vs: seq<nat>, color: seq<Color>): (r: seq<Color>)
    ensures |r| == |color|
  {
    if vs == [] then color
    else
      var k := |vs| - 1;
      var r := Painted(vs[..k], color);
      if vs[k] < |r| && r[vs[k]] == White then r[vs[k] := Silver] else r
  }

  lemma {:induction false} PaintedLess(vs: seq<nat>, color: seq<Color>)
    ensures Unfinished(Painted(vs, color)) <= Unfinished(color)
    ensures forall v: nat :: v < |color| ==> (Painted(vs, color)[v] == Gray <==> color[v] == Gray)
  {
    hide Unfinished;
    if vs != [] {
      var k := |vs| - 1;
      PaintedLess(vs[..k], color);
      var r := Painted(vs[..k], color);
      if vs[k] < |r| && r[vs[k]] == White {
        Recolor(r, vs[k], Silver);
      }
    }
  }

  /** The vertices that go on the stack, in order. */
  ghost function Pushed(vs: seq<nat>, color: seq<Color>): seq<nat> {
    if vs == [] then []
    else
      var k := |vs| - 1;
      Pushed(vs[..k], color)
      + if vs[k] < |color| && Painted(vs[..k], color)[vs[k]] == White then [vs[k]] else []
  }

  /** The parents after it: a vertex put on the stack remembers `u`. */
  ghost function Parented(vs: seq<nat>, color: seq<Color>, pi: seq<nat>, u: nat): (r: seq<nat>)
    ensures |r| == |pi|
  {
    if vs == [] then pi
    else
      var k := |vs| - 1;
      var r := Parented(vs[..k], color, pi, u);
      if vs[k] < |r| && vs[k] < |color| && Painted(vs[..k], color)[vs[k]] == White then r[vs[k] := u] else r
  }

  ghost predicate SeesGray(vs: seq<nat>, color: seq<Color>) {
    exists v: nat :: v in vs && v < |color| && color[v] == Gray
  }

  /** Where the first edge to a gray vertex stands. */
  ghost function GrayAt(vs: seq<nat>, color: seq<Color>): (i: nat)
    requires SeesGray(vs, color)
    ensures i < |vs|
  {
    var k := |vs| - 1;
    assert vs == vs[..k] + [vs[k]];
    if SeesGray(vs[..k], color) then GrayAt(vs[..k], color) else k
  }

  lemma {:induction false} FirstGray(vs: seq<nat>, color: seq<Color>, i: nat)
    requires i < |vs| && vs[i] < |color| && color[vs[i]] == Gray && !SeesGray(vs[..i], color)
    ensures SeesGray(vs, color) && GrayAt(vs, color) == i
    decreases |vs|
  {
    var k := |vs| - 1;
    if i < k {
      assert vs[..k][..i] == vs[..i];
      FirstGray(vs[..k], color, i);
      assert vs == vs[..k] + [vs[k]];
    }
  }

  /** At most `n` steps up the parents from `at`, the last of them to `to`. */
  ghost function Climb(pi: seq<nat>, at: nat, to: nat, n: nat): seq<nat>
    decreases n
  {
    if n == 0 || at >= |pi| then []
    else if pi[at] == to then [at, to]
    else [at] + Climb(pi, pi[at], to, n - 1)
  }

  lemma LookedNone(vs: seq<nat>, color: seq<Color>, pi: seq<nat>, u: nat)
    ensures vs[..0] == [] && vs[..|vs|] == vs
    ensures Painted([], color) == color && Pushed([], color) == [] && !SeesGray([], color) && Parented([], color, pi, u) == pi
  {
  }

  /** One more edge looked along. */
  lemma LookedMore(vs: seq<nat>, color: seq<Color>, pi: seq<nat>, u: nat, i: nat)
    requires i < |vs| && vs[i] < |color| == |pi|
    ensures Painted(vs[..i], color)[vs[i]] == Gray <==> color[vs[i]] == Gray
    ensures !SeesGray(vs[..i], color) && color[vs[i]] != Gray ==> !SeesGray(vs[..i + 1], color)
    ensures color[vs[i]] == Gray ==> SeesGray(vs, color)
    ensures var r, v := Painted(vs[..i], color), vs[i];
      && Painted(vs[..i + 1], color) == (if r[v] == White then r[v := Silver] else r)
      && Pushed(vs[..i + 1], color) == Pushed(vs[..i], color) + (if r[v] == White then [v] else [])
      && Parented(vs[..i + 1], color, pi, u) == if r[v] == White then Parented(vs[..i], color, pi, u)[v := u] else Parented(vs[..i], color, pi, u)
  {
    PaintedLess(vs[..i], color);
    assert vs[..i + 1][..i] == vs[..i] && vs[..i + 1][i] == vs[i];
    NoGray(vs, color, i);
  }

  lemma NoGray(vs: seq<nat>, color: seq<Color>, i: nat)
    requires i < |vs|
    ensures !SeesGray(vs[..i], color) && !(vs[i] < |color| && color[vs[i]] == Gray) ==> !SeesGray(vs[..i + 1], color)
  {
    assert vs[..i + 1] == vs[..i] + [vs[i]];
  }

  /** The cycle that a search standing at this stack, these colours and these parents comes upon, if any. */
  ghost function CycleIn(adj: seq<seq<nat>>, stack: seq<nat>, color: seq<Color>, pi: seq<nat>): seq<nat>
    decreases Unfinished(color)
  {
    if stack == [] || stack[|stack| - 1] >= |adj| || |adj| != |color| then []
    else
      var k := |stack| - 1;
      var u := stack[k];
      match color[u]
      case Gray =>
        Recolor(color, u, Black);
        CycleIn(adj, stack[..k], color[u := Black], pi)
      case Silver =>
        Recolor(color, u, Gray);
        var c := color[u := Gray];
        PaintedLess(adj[u], c);
        if SeesGray(adj[u], c) then
          var i := GrayAt(adj[u], c);
          Climb(Parented(adj[u][..i], c, pi, u), u, adj[u][i], |adj|)
        else CycleIn(adj, stack + Pushed(adj[u], c), Painted(adj[u], c), Parented(adj[u], c, pi, u))
      case _ => []
  }

  ghost function Unseen(n: nat, src: nat): (r: seq<Color>)
    ensures |r| == n && forall v: nat :: v < n ==> r[v] == if v == src then Silver else White
  {
    seq(n, v => if v == src then Silver else White)
  }

  ghost function NoParents(n: nat): (r: seq<nat>)
    ensures |r| == n && forall v: nat :: v < n ==> r[v] == UNDEF
  {
    seq(n, _ => UNDEF)
  }

  ghost function CycleFrom(adj: seq<seq<nat>>, src: nat): seq<nat> {
    CycleIn(adj, [src], Unseen(|adj|, src), NoParents(|adj|))
  }

  lemma PushKeeps(adj: seq<seq<nat>>, src: nat, stack: seq<nat>, color: seq<Color>, pi: seq<nat>, up: seq<nat>, t: nat, v: nat)
    requires Stacked(adj, src, stack, color, pi, up)
    requires t < |stack| && color[stack[t]] == Gray && forall x :: t < x < |stack| ==> color[stack[x]] == Silver
    requires v in adj[stack[t]] && v < |adj| && color[v] == White
    ensures Stacked(adj, src, stack + [v], color[v := Silver], pi[v := stack[t]], up + [t])
  {
  }

  lemma GrayKeeps(adj: seq<seq<nat>>, src: nat, stack: seq<nat>, color: seq<Color>, pi: seq<nat>, up: seq<nat>)
    requires Stacked(adj, src, stack, color, pi, up) && stack != []
    ensures Stacked(adj, src, stack, color[stack[|stack| - 1] := Gray], pi, up)
  {
  }

  lemma PopKeeps(adj: seq<seq<nat>>, src: nat, stack: seq<nat>, color: seq<Color>, pi: seq<nat>, up: seq<nat>)
    requires Stacked(adj, src, stack, color, pi, up) && stack != []
    ensures var k := |stack| - 1; Stacked(adj, src, stack[..k], color[stack[k] := Black], pi, up[..k])
  {
  }

  /** Looks along the edges out of the gray vertex `u` on top of the stack. */
  method LookAround(adj: seq<seq<nat>>, src: nat, u: nat, stack: seq<nat>, color: seq<Color>, pi: seq<nat>, ghost up: seq<nat>)
    returns (found: bool, to: nat, stack': seq<nat>, color': seq<Color>, pi': seq<nat>, ghost up': seq<nat>)
    requires LoopFree(adj) && Stacked(adj, src, stack, color, pi, up)
    requires stack != [] && stack[|stack| - 1] == u && color[u] == Gray
    requires AllLooked(adj, src, color, u)
    ensures Stacked(adj, src, stack', color', pi', up') && stack <= stack'
    ensures Unfinished(color') <= Unfinished(color)
    ensures forall x :: |stack| <= x < |stack'| ==> color'[stack'[x]] == Silver
    ensures color'[u] == Gray
    ensures found ==> to in adj[u] && to < |adj| && color'[to] == Gray
    ensures !found ==> AllLooked(adj, src, color', |adj|)
    ensures found <==> SeesGray(adj[u], color)
    ensures found ==> to == adj[u][GrayAt(adj[u], color)] && pi' == Parented(adj[u][..GrayAt(adj[u], color)], color, pi, u)
    ensures !found ==> stack' == stack + Pushed(adj[u], color) && color' == Painted(adj[u], color) && pi' == Parented(adj[u], color, pi, u)
  {
    hide Stacked, Unfinished, SeesGray, Painted, Pushed, Parented, GrayAt;
    found, to := false, 0;
    stack', color', pi', up' := stack, color, pi, up;
    ghost var t := |stack| - 1;
    assert |color| == |pi| == |adj| && u < |adj| by { StackedSizes(adj, src, stack, color, pi, up); }
    LookedNone(adj[u], color, pi, u);
    for i := 0 to |adj[u]|
      invariant |color'| == |pi'| == |adj|
      invariant Stacked(adj, src, stack', color', pi', up') && stack <= stack'
      invariant Unfinished(color') <= Unfinished(color)
      invariant forall x :: |stack| <= x < |stack'| ==> stack'[x] < |adj| && color'[stack'[x]] == Silver
      invariant color'[u] == Gray
      invariant AllLooked(adj, src, color', u) && Looked(adj, src, color', u, i)
      invariant stack' == stack + Pushed(adj[u][..i], color) && color' == Painted(adj[u][..i], color)
      invariant pi' == Parented(adj[u][..i], color, pi, u)
      invariant !SeesGray(adj[u][..i], color) && !found
    {
      var v := adj[u][i];
      LookedMore(adj[u], color, pi, u, i);
      if color'[v] == White {
        SourceIsBelow(adj, src, stack', color', pi', up', t);
        PushKeeps(adj, src, stack', color', pi', up', t, v);
        Recolor(color', v, Silver);
        NotStacked(adj, src, stack', color', pi', up', v);
        pi' := pi'[v := u];
        color' := color'[v := Silver];
        stack' := stack' + [v];
        up' := up' + [t];
        assert stack' == stack + Pushed(adj[u][..i + 1], color);
      } else if color'[v] == Gray {
        FirstGray(adj[u], color, i);
        found, to := true, v;
        return;
      } else {
        SourceIsBelow(adj, src, stack', color', pi', up', t);
      }
    }
  }

  lemma StackedSizes(adj: seq<seq<nat>>, src: nat, stack: seq<nat>, color: seq<Color>, pi: seq<nat>, up: seq<nat>)
    requires Stacked(adj, src, stack, color, pi, up)
    ensures |color| == |pi| == |adj| && |up| == |stack| && forall k :: 0 <= k < |stack| ==> stack[k] < |adj|
  {
  }

  lemma NotStacked(adj: seq<seq<nat>>, src: nat, stack: seq<nat>, color: seq<Color>, pi: seq<nat>, up: seq<nat>, v: nat)
    requires Stacked(adj, src, stack, color, pi, up) && v < |color| && color[v] == White
    ensures v !in stack
  {
  }

  /** Whatever is above the bottom of the stack, the source is beneath it and gray. */
  lemma SourceIsBelow(adj: seq<seq<nat>>, src: nat, stack: seq<nat>, color: seq<Color>, pi: seq<nat>, up: seq<nat>, t: nat)
    requires Stacked(adj, src, stack, color, pi, up) && t < |stack| && color[stack[t]] == Gray
    ensures color[src] == Gray
  {
    if t > 0 {
      assert Child(adj, stack, color, pi, 1, up[1]);
    }
  }

  /** Position `k` of the stack is gray and what lies between it and `j` keeps the parent chain above `j`. */
  lemma ParentAbove(adj: seq<seq<nat>>, src: nat, stack: seq<nat>, color: seq<Color>, pi: seq<nat>, up: seq<nat>, j: nat, k: nat)
    requires Stacked(adj, src, stack, color, pi, up) && j < k < |stack| && color[stack[j]] == Gray
    ensures j <= up[k] < k && color[stack[up[k]]] == Gray
    ensures pi[stack[k]] == stack[up[k]] && stack[k] in adj[stack[up[k]]]
  {
    assert Child(adj, stack, color, pi, k, up[k]);
  }

  /** Follows the parents from one end of the back edge to the other. */
  method TraceCycle(adj: seq<seq<nat>>, src: nat, stack: seq<nat>, color: seq<Color>, pi: seq<nat>, ghost up: seq<nat>,
                    from: nat, to: nat, ghost j: nat, ghost t: nat)
    returns (cycle: seq<nat>)
    requires Stacked(adj, src, stack, color, pi, up) && j < t < |stack|
    requires stack[t] == from && stack[j] == to && color[to] == Gray && to in adj[from]
    ensures IsCycle(adj, cycle) && cycle == Climb(pi, from, to, |adj|)
  {
    hide Stacked, Climb, Climbing, Traced, IsCycle;
    StackedSizes(adj, src, stack, color, pi, up);
    StackDistinct(adj, src, stack, color, pi, up);
    DistinctBound(stack, |adj|);
    var at := from;
    ghost var k := t;
    cycle := [at];
    ghost var where: seq<nat> := [t];
    TraceStarts(adj, stack, j, t);
    ClimbStarts(pi, from, to, |adj|);
    while true
      invariant Traced(adj, stack, j, t, where, cycle) && cycle != [] && where != [] && where[|where| - 1] == k
      invariant j < k <= t && at == stack[k] == cycle[|cycle| - 1] && |cycle| - 1 <= t - k
      invariant Climbing(pi, from, to, |adj|, cycle)
      decreases k
    {
      ClimbMore(pi, from, to, |adj|, cycle);
      ParentAbove(adj, src, stack, color, pi, up, j, k);
      TracedMore(adj, stack, j, t, where, cycle, up[k]);
      k := up[k];
      at := pi[at];
      where := where + [k];
      cycle := cycle + [at];
      if at == to {
        break;
      }
    }
    TracedIsCycle(adj, stack, j, t, where, cycle);
  }

  /** `cycle` lists the vertices at the places `where` of the stack, downwards, each reached by an edge from the next. */
  ghost predicate Traced(adj: seq<seq<nat>>, stack: seq<nat>, j: nat, t: nat, where: seq<nat>, cycle: seq<nat>) {
    && |where| == |cycle| > 0 && where[0] == t && j < t < |stack|
    && (forall i :: 0 <= i < |where| ==> j <= where[i] <= t && cycle[i] == stack[where[i]] && cycle[i] < |adj|)
    && (forall i, i' :: 0 <= i < i' < |where| ==> where[i'] < where[i])
    && forall i :: 0 <= i < |cycle| - 1 ==> cycle[i] in adj[cycle[i + 1]]
  }

  lemma TraceStarts(adj: seq<seq<nat>>, stack: seq<nat>, j: nat, t: nat)
    requires j < t < |stack| && stack[t] < |adj|
    ensures Traced(adj, stack, j, t, [t], [stack[t]])
  {
  }

  lemma TracedMore(adj: seq<seq<nat>>, stack: seq<nat>, j: nat, t: nat, where: seq<nat>, cycle: seq<nat>, k: nat)
    requires Traced(adj, stack, j, t, where, cycle) && j <= k < where[|where| - 1] && stack[k] < |adj|
    requires stack[where[|where| - 1]] in adj[stack[k]]
    ensures Traced(adj, stack, j, t, where + [k], cycle + [stack[k]])
  {
  }

  lemma TracedIsCycle(adj: seq<seq<nat>>, stack: seq<nat>, j: nat, t: nat, where: seq<nat>, cycle: seq<nat>)
    requires Traced(adj, stack, j, t, where, cycle) && cycle[|cycle| - 1] == stack[j] && stack[j] in adj[stack[t]] && Distinct(stack)
    ensures IsCycle(adj, cycle)
  {
  }

  /** What remains of the climb starts where the cycle now ends. */
  ghost predicate Climbing(pi: seq<nat>, from: nat, to: nat, n: nat, cycle: seq<nat>) {
    && 0 < |cycle| <= n
    && Climb(pi, from, to, n) == cycle[..|cycle| - 1] + Climb(pi, cycle[|cycle| - 1], to, n - (|cycle| - 1))
  }

  lemma ClimbStarts(pi: seq<nat>, from: nat, to: nat, n: nat)
    requires n > 0
    ensures Climbing(pi, from, to, n, [from])
  {
    hide Climb;
  }

  lemma ClimbMore(pi: seq<nat>, from: nat, to: nat, n: nat, cycle: seq<nat>)
    requires Climbing(pi, from, to, n, cycle) && cycle[|cycle| - 1] < |pi|
    ensures var v := pi[cycle[|cycle| - 1]];
      if v == to then Climb(pi, from, to, n) == cycle + [v]
      else |cycle| < n ==> Climbing(pi, from, to, n, cycle + [v])
  {
    hide Climb;
    var at, front := cycle[|cycle| - 1], cycle[..|cycle| - 1];
    ClimbStep(pi, at, to, n - |front|);
    assert cycle == front + [at];
    assert front + [at, pi[at]] == cycle + [pi[at]];
    assert (cycle + [pi[at]])[..|cycle|] == cycle;
    assert pi[at] != to ==> front + ([at] + Climb(pi, pi[at], to, n - |front| - 1)) == cycle + Climb(pi, pi[at], to, n - |cycle|);
  }

  lemma ClimbStep(pi: seq<nat>, at: nat, to: nat, n: nat)
    requires n > 0 && at < |pi|
    ensures Climb(pi, at, to, n) == if pi[at] == to then [at, to] else [at] + Climb(pi, pi[at], to, n - 1)
  {
  }

  lemma StackDistinct(adj: seq<seq<nat>>, src: nat, stack: seq<nat>, color: seq<Color>, pi: seq<nat>, up: seq<nat>)
    requires Stacked(adj, src, stack, color, pi, up)
    ensures Distinct(stack)
  {
  }

  /** The gray end of a back edge is on the stack, beneath the vertex that sees it. */
  lemma BackEdge(adj: seq<seq<nat>>, src: nat, stack: seq<nat>, color: seq<Color>, pi: seq<nat>, up: seq<nat>, t: nat, v: nat)
    returns (j: nat)
    requires Stacked(adj, src, stack, color, pi, up) && t < |stack| && v < |adj| && color[v] == Gray && v != stack[t]
    requires forall x :: t < x < |stack| ==> color[stack[x]] == Silver
    ensures j < t && stack[j] == v
  {
    j :| j < |stack| && stack[j] == v;
  }

  method FindCycle(adj: seq<seq<nat>>, src: nat) returns (cycle: seq<nat>)
    requires LoopFree(adj) && src < |adj|
    ensures cycle != [] ==> IsCycle(adj, cycle)
    ensures OnCycle(adj, src) ==> cycle != []
    ensures cycle == CycleFrom(adj, src)
  {
    hide IsCycle, OnCycle, Stacked, Unfinished, SeesGray, Painted, Pushed, Parented, GrayAt, Climb;
    var color: seq<Color> := seq(|adj|, _ => White);
    var pi: seq<nat> := seq(|adj|, _ => UNDEF);
    var stack: seq<nat> := [src];
    color := color[src := Silver];
    ghost var up: seq<nat> := [0];
    StackedStart(adj, src, color, pi);
    assert color == Unseen(|adj|, src) && pi == NoParents(|adj|);

    while stack != []
      invariant Stacked(adj, src, stack, color, pi, up)
      invariant AllLooked(adj, src, color, |adj|)
      invariant CycleIn(adj, stack, color, pi) == CycleFrom(adj, src)
      decreases Unfinished(color)
    {
      StackedSizes(adj, src, stack, color, pi, up);
      ghost var t := |stack| - 1;
      var u := stack[|stack| - 1];
      if color[u] == Gray {
        PopKeeps(adj, src, stack, color, pi, up);
        Recolor(color, u, Black);
        color := color[u := Black];
        stack, up := stack[..|stack| - 1], up[..|stack| - 1];
      } else {
        TopIsOpen(adj, src, stack, color, pi, up);
        GrayKeeps(adj, src, stack, color, pi, up);
        Recolor(color, u, Gray);
        color := color[u := Gray];
        var found, to;
        found, to, stack, color, pi, up := LookAround(adj, src, u, stack, color, pi, up);
        if found {
          StackedSizes(adj, src, stack, color, pi, up);
          ghost var j := BackEdge(adj, src, stack, color, pi, up, t, to);
          cycle := TraceCycle(adj, src, stack, color, pi, up, u, to, j, t);
          assert cycle != [] by { CycleNonempty(adj, cycle); }
          return;
        }
      }
    }
    cycle := [];
    NoCycle(adj, src, color, pi, up);
  }

  lemma CycleNonempty(adj: seq<seq<nat>>, c: seq<nat>)
    requires IsCycle(adj, c)
    ensures |c| >= 2
  {
  }

  lemma StackedStart(adj: seq<seq<nat>>, src: nat, color: seq<Color>, pi: seq<nat>)
    requires src < |adj| == |color| == |pi|
    requires forall v: nat :: v < |color| ==> color[v] == if v == src then Silver else White
    ensures Stacked(adj, src, [src], color, pi, [0])
  {
    assert [src][0] == src;
  }

  lemma TopIsOpen(adj: seq<seq<nat>>, src: nat, stack: seq<nat>, color: seq<Color>, pi: seq<nat>, up: seq<nat>)
    requires Stacked(adj, src, stack, color, pi, up) && stack != []
    ensures var u := stack[|stack| - 1]; color[u] != Gray ==> color[u] == Silver
  {
  }

  /** When nothing is left on the stack, what is reachable from the source has no edge back to it. */
  lemma NoCycle(adj: seq<seq<nat>>, src: nat, color: seq<Color>, pi: seq<nat>, up: seq<nat>)
    requires Stacked(adj, src, [], color, pi, up) && AllLooked(adj, src, color, |adj|)
    ensures !OnCycle(adj, src)
  {
    forall p
      ensures !ClosedTrail(adj, src, p)
    {
      if |p| >= 2 && Trail(adj, p) && p[0] == src {
        TrailColored(adj, src, color, pi, up, p, |p| - 2);
      }
    }
  }

  lemma {:induction false} TrailColored(adj: seq<seq<nat>>, src: nat, color: seq<Color>, pi: seq<nat>, up: seq<nat>, p: seq<nat>, i: nat)
    requires Stacked(adj, src, [], color, pi, up) && AllLooked(adj, src, color, |adj|)
    requires Trail(adj, p) && i < |p| && p[0] == src
    ensures color[p[i]] == Black && (i + 1 < |p| ==> p[i + 1] != src)
  {
    if i > 0 {
      TrailColored(adj, src, color, pi, up, p, i - 1);
      assert p[(i - 1) + 1] in adj[p[i - 1]];
      assert Looked(adj, src, color, p[i - 1], |adj[p[i - 1]]|);
    }
    assert Looked(adj, src, color, p[i], |adj[p[i]]|);
  }

  /** A cycle that avoids the start can be missed: here 1 and 2 both wait on the stack when 2 looks at 1. */
  lemma MissedCycle(adj: seq<seq<nat>>)
    requires adj == [[1, 2], [2], [1]]
    ensures LoopFree(adj) && Trail(adj, [0, 1]) && IsCycle(adj, [1, 2])
    ensures CycleFrom(adj, 0) == [] && CycleFrom(adj, 1) == [2, 1]
  {
    hide CycleIn, Painted, Pushed, Parented, SeesGray, GrayAt, Climb;
    var none := NoParents(3);
    // From 0: look from 0, look from 2, drop 2, look from 1, drop 1 and 0.
    TwoEdges(none);
    var pi := none[1 := 0][2 := 0];
    Look(adj, [0], [Silver, White, White], none, [1, 2], [Gray, White, White], [0, 1, 2], [Gray, Silver, Silver], pi);
    LookAlongOne(1, [Gray, Silver, Gray], pi, 2);
    Look(adj, [0, 1, 2], [Gray, Silver, Silver], pi, [1], [Gray, Silver, Gray], [0, 1, 2], [Gray, Silver, Gray], pi);
    Drop(adj, [0, 1, 2], [Gray, Silver, Gray], pi, [0, 1], [Gray, Silver, Black]);
    LookAlongOne(2, [Gray, Gray, Black], pi, 1);
    Look(adj, [0, 1], [Gray, Silver, Black], pi, [2], [Gray, Gray, Black], [0, 1], [Gray, Gray, Black], pi);
    Drop(adj, [0, 1], [Gray, Gray, Black], pi, [0], [Gray, Black, Black]);
    Drop(adj, [0], [Gray, Black, Black], pi, [], [Black, Black, Black]);
    // From 1: look from 1, then 2 sees 1.
    LookAlongOne(2, [White, Gray, White], none, 1);
    Look(adj, [1], [White, Silver, White], none, [2], [White, Gray, White], [1, 2], [White, Gray, Silver], none[2 := 1]);
    LookAlongOne(1, [White, Gray, Gray], none[2 := 1], 2);
    See(adj, [1, 2], [White, Gray, Silver], none[2 := 1], [White, Gray, Gray], 1);
    ClimbStep(none[2 := 1], 2, 1, 3);
    assert Unseen(3, 0) == [Silver, White, White] && Unseen(3, 1) == [White, Silver, White];
  }

  lemma LookAlongOne(v: nat, color: seq<Color>, pi: seq<nat>, u: nat)
    requires v < |color| == |pi|
    ensures Painted([v], color) == if color[v] == White then color[v := Silver] else color
    ensures Pushed([v], color) == if color[v] == White then [v] else []
    ensures Parented([v], color, pi, u) == if color[v] == White then pi[v := u] else pi
    ensures SeesGray([v], color) <==> color[v] == Gray
    ensures Parented([], color, pi, u) == pi
  {
    hide Painted, Pushed, Parented, SeesGray;
    LookedNone([v], color, pi, u);
    LookedMore([v], color, pi, u, 0);
  }

  lemma TwoEdges(pi: seq<nat>)
    requires |pi| == 3
    ensures var c := [Gray, White, White];
      && !SeesGray([1, 2], c) && Painted([1, 2], c) == [Gray, Silver, Silver] && Pushed([1, 2], c) == [1, 2]
      && Parented([1, 2], c, pi, 0) == pi[1 := 0][2 := 0]
  {
    hide Painted, Pushed, Parented, SeesGray;
    var c := [Gray, White, White];
    LookAlongOne(1, c, pi, 0);
    LookedMore([1, 2], c, pi, 0, 1);
    assert [1, 2][..1] == [1] && [1, 2][..2] == [1, 2];
  }

  /** A step that sees nothing gray, with `vs` and `c` what it looks at. */
  lemma Look(adj: seq<seq<nat>>, stack: seq<nat>, color: seq<Color>, pi: seq<nat>, vs: seq<nat>, c: seq<Color>,
             stack': seq<nat>, color': seq<Color>, pi': seq<nat>)
    requires stack != [] && stack[|stack| - 1] < |adj| == |color| && color[stack[|stack| - 1]] == Silver
    requires adj[stack[|stack| - 1]] == vs && c == color[stack[|stack| - 1] := Gray] && !SeesGray(vs, c)
    requires stack' == stack + Pushed(vs, c) && color' == Painted(vs, c) && pi' == Parented(vs, c, pi, stack[|stack| - 1])
    ensures CycleIn(adj, stack, color, pi) == CycleIn(adj, stack', color', pi')
  {
  }

  /** A step whose only edge leads to a gray vertex. */
  lemma See(adj: seq<seq<nat>>, stack: seq<nat>, color: seq<Color>, pi: seq<nat>, c: seq<Color>, v: nat)
    requires stack != [] && stack[|stack| - 1] < |adj| == |color| && color[stack[|stack| - 1]] == Silver
    requires adj[stack[|stack| - 1]] == [v] && c == color[stack[|stack| - 1] := Gray] && SeesGray([v], c)
    ensures CycleIn(adj, stack, color, pi) == Climb(pi, stack[|stack| - 1], v, |adj|)
  {
    assert [v][..0] == [];
  }

  lemma Drop(adj: seq<seq<nat>>, stack: seq<nat>, color: seq<Color>, pi: seq<nat>, stack': seq<nat>, color': seq<Color>)
    requires stack != [] && stack[|stack| - 1] < |adj| == |color| && color[stack[|stack| - 1]] == Gray
    requires stack' == stack[..|stack| - 1] && color' == color[stack[|stack| - 1] := Black]
    ensures CycleIn(adj, stack, color, pi) == if stack' == [] then [] else CycleIn(adj, stack', color', pi)
  {
  }
}
