/** The main loop both approximate finders run: happy chains while there are any, else an unhappy swap. */
module SwapLoop {
  import opened Networks
  import opened Sums
  import opened Placements
  import opened Moves
  import opened Cycles
  import opened NextHops

  /** `home` inverts `to` on its real tokens. */
  ghost predicate Homes(to: Placement, home: seq<nat>) {
    && |home| == |to|
    && forall i :: 0 <= i < |to| && to[i] != UNDEF ==> to[i] < |home| && home[to[i]] == i
  }

  method InvertTarget(to: Placement) returns (home: seq<nat>)
    requires IsPlacement(to, |to|)
    ensures Homes(to, home)
  {
    home := seq(|to|, _ => UNDEF);
    for i := 0 to |to|
      invariant |home| == |to|
      invariant forall k :: 0 <= k < i && to[k] != UNDEF ==> home[to[k]] == k
    {
      if to[i] != UNDEF {
        home := home[to[i] := i];
      }
    }
  }

  /** What the loop stores about vertex `i` is what a fresh computation would give. */
  ghost predicate UpToDate(g: Net, to: Placement, p: Placement, gprime: seq<seq<nat>>, inplace: seq<bool>, i: nat) {
    && i < |p| == |to| == |g.adj| == |gprime| == |inplace|
    && (inplace[i] <==> InPlace(to, p, i))
    && (if p[i] == UNDEF then gprime[i] == [] else p[i] in to && Hops(g, i, Home(to, p[i]), gprime[i]))
  }

  ghost predicate Tracked(g: Net, to: Placement, p: Placement, gprime: seq<seq<nat>>, inplace: seq<bool>) {
    && |p| == |to| == |g.adj| == |gprime| == |inplace|
    && forall i: nat :: i < |p| ==> UpToDate(g, to, p, gprime, inplace, i)
  }

  /** The token on `i` wants to go to `v` exactly when `v` is listed for `i`. */
  lemma TrackedHops(g: Net, to: Placement, p: Placement, gprime: seq<seq<nat>>, inplace: seq<bool>, i: nat, v: nat)
    requires Tracked(g, to, p, gprime, inplace) && i < |p|
    ensures v in gprime[i] <==> Hop(g, to, p, i, v)
    ensures inplace[i] <==> InPlace(to, p, i)
  {
    hide Dist;
    assert UpToDate(g, to, p, gprime, inplace, i);
  }

  lemma TrackedLoopFree(g: Net, to: Placement, p: Placement, gprime: seq<seq<nat>>, inplace: seq<bool>)
    requires WellFormed(g) && Tracked(g, to, p, gprime, inplace)
    ensures LoopFree(gprime)
  {
    hide Dist, UpToDate;
    forall u, k | 0 <= u < |gprime| && 0 <= k < |gprime[u]|
      ensures gprime[u][k] < |gprime| && gprime[u][k] != u
    {
      TrackedHops(g, to, p, gprime, inplace, u, gprime[u][k]);
    }
  }

  lemma CycleIsHappy(g: Net, to: Placement, p: Placement, gprime: seq<seq<nat>>, inplace: seq<bool>, c: seq<nat>)
    requires Tracked(g, to, p, gprime, inplace) && IsCycle(gprime, c)
    ensures HappyChain(g, to, p, c)
  {
    hide UpToDate, Distinct, Hop;
    forall i | 0 <= i < |c| - 1
      ensures Hop(g, to, p, c[i + 1], c[i])
    {
      TrackedHops(g, to, p, gprime, inplace, c[i + 1], c[i]);
    }
    TrackedHops(g, to, p, gprime, inplace, c[0], c[|c| - 1]);
  }

  /** A list of swaps to make: along a cycle, or a single step onto a settled vertex. */
  ghost predicate IsMove(gprime: seq<seq<nat>>, inplace: seq<bool>, path: seq<nat>) {
    || IsCycle(gprime, path)
    || (|path| == 2 && path[0] < |gprime| == |inplace| && path[1] in gprime[path[0]] && path[1] < |inplace| && inplace[path[1]])
  }

  ghost predicate NoMove(gprime: seq<seq<nat>>, inplace: seq<bool>)
    requires |gprime| == |inplace|
  {
    && (forall i: nat :: i < |gprime| && !inplace[i] ==> !OnCycle(gprime, i))
    && forall u: nat, v: nat :: u < |gprime| && !inplace[u] && v in gprime[u] ==> v < |inplace| && !inplace[v]
  }

  /** The cycle search from vertex `i`, whose token is out of place, finds something. */
  ghost predicate ChainAt(gprime: seq<seq<nat>>, inplace: seq<bool>, i: nat) {
    i < |gprime| == |inplace| && !inplace[i] && CycleFrom(gprime, i) != []
  }

  ghost predicate NoChain(gprime: seq<seq<nat>>, inplace: seq<bool>) {
    forall i: nat :: !ChainAt(gprime, inplace, i)
  }

  /** The first edge, vertex by vertex, from a vertex out of place to one in place. */
  ghost predicate FirstStep(gprime: seq<seq<nat>>, inplace: seq<bool>, u: nat, k: nat) {
    && u < |gprime| == |inplace| && k < |gprime[u]| && !inplace[u]
    && gprime[u][k] < |inplace| && inplace[gprime[u][k]]
    && (forall x: nat :: x < k ==> gprime[u][x] < |inplace| && !inplace[gprime[u][x]])
    && NoStepBefore(gprime, inplace, u)
  }

  ghost predicate NoStepBefore(gprime: seq<seq<nat>>, inplace: seq<bool>, u: nat)
    requires u <= |gprime| == |inplace|
  {
    forall k: nat, v: nat :: k < u && !inplace[k] && v in gprime[k] ==> v < |inplace| && !inplace[v]
  }

  /** The cycle found from the first vertex out of place that yields one; only if none does, an edge onto a vertex in place. */
  method FindMove(gprime: seq<seq<nat>>, inplace: seq<bool>) returns (path: seq<nat>)
    requires |gprime| == |inplace| && LoopFree(gprime)
    ensures path != [] ==> IsMove(gprime, inplace, path)
    ensures path == [] ==> NoMove(gprime, inplace)
    ensures forall i: nat :: ChainAt(gprime, inplace, i) && (forall k: nat :: k < i ==> !ChainAt(gprime, inplace, k)) ==>
      path == CycleFrom(gprime, i)
    ensures path != [] && !IsCycle(gprime, path) ==>
      && NoChain(gprime, inplace)
      && (forall i: nat :: i < |gprime| && !inplace[i] ==> !OnCycle(gprime, i))
      && exists u: nat, k: nat :: FirstStep(gprime, inplace, u, k) && path == [u, gprime[u][k]]
  {
    hide IsCycle, OnCycle, CycleFrom;
    path := [];
    for i := 0 to |gprime|
      invariant path == []
      invariant forall k: nat :: k < i ==> !ChainAt(gprime, inplace, k)
      invariant forall k: nat :: k < i && !inplace[k] ==> !OnCycle(gprime, k)
    {
      if !inplace[i] {
        path := FindCycle(gprime, i);
        if path != [] {
          assert ChainAt(gprime, inplace, i);
          return;
        }
      }
    }
    for u := 0 to |gprime|
      invariant path == [] && NoStepBefore(gprime, inplace, u)
    {
      if !inplace[u] {
        for k := 0 to |gprime[u]|
          invariant path == []
          invariant forall x: nat :: x < k ==> gprime[u][x] < |inplace| && !inplace[gprime[u][x]]
        {
          var v := gprime[u][k];
          if inplace[v] {
            path := [u, v];
            assert FirstStep(gprime, inplace, u, k);
            return;
          }
        }
      }
    }
  }

  // What the moves mean for the placement.

  ghost predicate NoHappyChain(g: Net, to: Placement, p: Placement) {
    forall c :: !HappyChain(g, to, p, c)
  }

  /** The unhappy swap from the least vertex that has one, to the least vertex it can go to. */
  ghost predicate FirstUnhappy(g: Net, to: Placement, p: Placement, path: seq<nat>) {
    && |path| == 2 && UnhappySwap(g, to, p, path[0], path[1])
    && forall u: nat, v: nat :: UnhappySwap(g, to, p, u, v) ==> path[0] < u || (path[0] == u && path[1] <= v)
  }

  /** Happy chains come first: an unhappy swap is made only where there is none. */
  ghost predicate NextMove(g: Net, to: Placement, p: Placement, path: seq<nat>) {
    || HappyChain(g, to, p, path)
    || (NoHappyChain(g, to, p) && FirstUnhappy(g, to, p, path))
  }

  /** A token that can get closer is not home. */
  lemma HopIsAway(g: Net, to: Placement, p: Placement, u: nat, v: nat)
    requires Problem(g, p, to) && Hop(g, to, p, u, v)
    ensures !InPlace(to, p, u)
  {
    hide Dist;
    ProblemShape(g, p, to);
    CouplingShape(g);
    if p[u] == to[u] {
      HomeUnique(to, u);
      DistZero(g, u, u);
    }
  }

  /** A happy chain closes a trail of next hops through its first vertex. */
  lemma ChainCloses(g: Net, to: Placement, p: Placement, gprime: seq<seq<nat>>, inplace: seq<bool>, c: seq<nat>)
    requires Problem(g, p, to) && Tracked(g, to, p, gprime, inplace) && HappyChain(g, to, p, c)
    ensures c != [] && c[0] < |gprime| == |inplace| && !inplace[c[0]] && OnCycle(gprime, c[0])
  {
    hide Hop, UpToDate, Problem;
    var n := |c|;
    var trail := seq(n + 1, i requires 0 <= i <= n => if i == 0 then c[0] else c[n - i]);
    HopIsAway(g, to, p, c[0], c[n - 1]);
    TrackedHops(g, to, p, gprime, inplace, c[0], c[n - 1]);
    forall i | 0 <= i < |trail| - 1
      ensures trail[i + 1] in gprime[trail[i]]
    {
      var j := n - i - 1;
      if i > 0 {
        assert Hop(g, to, p, c[j + 1], c[j]);
        TrackedHops(g, to, p, gprime, inplace, c[j + 1], c[j]);
      }
    }
    assert ClosedTrail(gprime, c[0], trail);
  }

  lemma FirstStepIsFirst(g: Net, to: Placement, p: Placement, gprime: seq<seq<nat>>, inplace: seq<bool>, u: nat, k: nat)
    requires Problem(g, p, to) && Tracked(g, to, p, gprime, inplace) && FirstStep(gprime, inplace, u, k)
    ensures FirstUnhappy(g, to, p, [u, gprime[u][k]])
  {
    hide Hop, UpToDate, Problem, NoStepBefore;
    var v := gprime[u][k];
    TrackedHops(g, to, p, gprime, inplace, u, v);
    TrackedHops(g, to, p, gprime, inplace, v, v);
    forall x: nat, y: nat | UnhappySwap(g, to, p, x, y)
      ensures u < x || (u == x && v <= y)
    {
      HopIsAway(g, to, p, x, y);
      TrackedHops(g, to, p, gprime, inplace, x, y);
      TrackedHops(g, to, p, gprime, inplace, y, y);
      StepOrder(g, to, p, gprime, inplace, u, k, x, y);
    }
  }

  lemma StepOrder(g: Net, to: Placement, p: Placement, gprime: seq<seq<nat>>, inplace: seq<bool>, u: nat, k: nat, x: nat, y: nat)
    requires Tracked(g, to, p, gprime, inplace) && FirstStep(gprime, inplace, u, k)
    requires x < |gprime| && !inplace[x] && y in gprime[x] && y < |inplace| && inplace[y]
    ensures u < x || (u == x && gprime[u][k] <= y)
  {
    hide Dist, Hop;
    assert UpToDate(g, to, p, gprime, inplace, u);
    if u == x {
      var j :| 0 <= j < |gprime[u]| && gprime[u][j] == y;
      assert j >= k;
    }
  }

  lemma NoneHappy(g: Net, to: Placement, p: Placement, gprime: seq<seq<nat>>, inplace: seq<bool>)
    requires Problem(g, p, to) && Tracked(g, to, p, gprime, inplace)
    requires forall i: nat :: i < |gprime| && !inplace[i] ==> !OnCycle(gprime, i)
    ensures NoHappyChain(g, to, p)
  {
    hide Problem, OnCycle, HappyChain, UpToDate;
    forall c: seq<nat>
      ensures !HappyChain(g, to, p, c)
    {
      if HappyChain(g, to, p, c) {
        ChainCloses(g, to, p, gprime, inplace, c);
      }
    }
  }

  lemma FoundIsNext(g: Net, to: Placement, p: Placement, gprime: seq<seq<nat>>, inplace: seq<bool>, path: seq<nat>)
    requires Problem(g, p, to) && Tracked(g, to, p, gprime, inplace)
    requires IsCycle(gprime, path) || (
      && (forall i: nat :: i < |gprime| && !inplace[i] ==> !OnCycle(gprime, i))
      && exists u: nat, k: nat :: FirstStep(gprime, inplace, u, k) && path == [u, gprime[u][k]])
    ensures NextMove(g, to, p, path)
  {
    hide Problem, Tracked, IsCycle, OnCycle, HappyChain, FirstUnhappy, NoStepBefore;
    if IsCycle(gprime, path) {
      CycleIsHappy(g, to, p, gprime, inplace, path);
    } else {
      NoneHappy(g, to, p, gprime, inplace);
      var u: nat, k: nat :| FirstStep(gprime, inplace, u, k) && path == [u, gprime[u][k]];
      FirstStepIsFirst(g, to, p, gprime, inplace, u, k);
    }
  }

  /** The swaps are those of `moves`, made one after the other from `from` and ending at `p`. */
  ghost predicate Played(g: Net, to: Placement, from: Placement, moves: seq<seq<nat>>, swaps: seq<Swap>, p: Placement)
    decreases |moves|
  {
    if moves == [] then swaps == [] && p == from
    else
      var k := |moves| - 1;
      exists p0, s0 ::
        && Played(g, to, from, moves[..k], s0, p0) && NextMove(g, to, p0, moves[k])
        && moves[k] != [] && (forall i :: 0 <= i < |moves[k]| ==> moves[k][i] < |p0|)
        && swaps == s0 + LinkSwaps(moves[k]) && p == Rotated(p0, moves[k], |moves[k]| - 1)
  }

  /** The swaps fall into moves, each a happy chain or, where there is none, the first unhappy swap. */
  ghost predicate ChainsFirst(g: Net, to: Placement, from: Placement, swaps: seq<Swap>) {
    exists moves, p :: Played(g, to, from, moves, swaps, p)
  }

  lemma NothingPlayed(g: Net, to: Placement, from: Placement)
    ensures Played(g, to, from, [], [], from)
  {
  }

  lemma PlayedMore(g: Net, to: Placement, from: Placement, moves: seq<seq<nat>>, swaps: seq<Swap>, p: Placement, path: seq<nat>)
    requires Played(g, to, from, moves, swaps, p) && NextMove(g, to, p, path)
    requires path != [] && forall i :: 0 <= i < |path| ==> path[i] < |p|
    ensures Played(g, to, from, moves + [path], swaps + LinkSwaps(path), Rotated(p, path, |path| - 1))
  {
    assert (moves + [path])[..|moves|] == moves;
  }

  ghost function LinkSwaps(c: seq<nat>): (s: seq<Swap>)
    requires |c| > 0
    ensures |s| == |c| - 1
  {
    seq(|c| - 1, i requires 0 <= i < |c| - 1 => Swap(c[i], c[i + 1]))
  }

  lemma {:induction false} LinksApply(p: Placement, c: seq<nat>, j: nat)
    requires j < |c| && forall i :: 0 <= i < |c| ==> c[i] < |p|
    ensures OnBoard(LinkSwaps(c)[..j], |p|) && Apply(p, LinkSwaps(c)[..j]) == Rotated(p, c, j)
    decreases j
  {
    if j > 0 {
      LinksApply(p, c, j - 1);
      assert LinkSwaps(c)[..j][..j - 1] == LinkSwaps(c)[..j - 1];
    }
  }

  method SwapAlong(p: Placement, swaps: seq<Swap>, path: seq<nat>) returns (p': Placement, swaps': seq<Swap>)
    requires path != [] && forall i :: 0 <= i < |path| ==> path[i] < |p|
    ensures p' == Rotated(p, path, |path| - 1)
    ensures swaps' == swaps + LinkSwaps(path)
  {
    p', swaps' := p, swaps;
    for i := 1 to |path|
      invariant p' == Rotated(p, path, i - 1)
      invariant swaps' == swaps + LinkSwaps(path)[..i - 1]
    {
      var u, v := path[i - 1], path[i];
      swaps' := swaps' + [Swap(u, v)];
      p' := p'[u := p'[v]][v := p'[u]];
    }
    assert LinkSwaps(path)[..|path| - 1] == LinkSwaps(path);
  }

  /** Recomputes the stored data at the vertices of `path` only. */
  method Refresh(g: Net, m: HopMatrix, to: Placement, home: seq<nat>, p: Placement, p': Placement, path: seq<nat>,
                 gprime: seq<seq<nat>>, inplace: seq<bool>)
    returns (gprime': seq<seq<nat>>, inplace': seq<bool>)
    requires Problem(g, p', to) && HopsExact(g, m) && Homes(to, home)
    requires Tracked(g, to, p, gprime, inplace)
    requires forall i :: 0 <= i < |path| ==> path[i] < |p|
    requires forall x: nat :: x < |p| && x !in path ==> p'[x] == p[x]
    ensures Tracked(g, to, p', gprime', inplace')
  {
    hide Hops, Coupling;
    gprime', inplace' := gprime, inplace;
    forall x: nat | x < |p| && x !in path
      ensures UpToDate(g, to, p', gprime, inplace, x)
    {
      assert UpToDate(g, to, p, gprime, inplace, x);
    }
    for i := 0 to |path|
      invariant |gprime'| == |inplace'| == |p|
      invariant forall x: nat :: x < |p| && (x !in path || x in path[..i]) ==> UpToDate(g, to, p', gprime', inplace', x)
    {
      var u := path[i];
      var hops: seq<nat> := [];
      if p'[u] != UNDEF {
        HomeOf(g, to, home, p', u);
        hops := m[u][home[p'[u]]];
      }
      inplace' := inplace'[u := p'[u] == UNDEF || p'[u] == to[u]];
      gprime' := gprime'[u := hops];
      assert path[..i + 1] == path[..i] + [u];
    }
    assert path[..|path|] == path;
  }

  lemma HomeOf(g: Net, to: Placement, home: seq<nat>, p: Placement, u: nat)
    requires Problem(g, p, to) && Homes(to, home) && u < |p| && p[u] != UNDEF
    ensures p[u] in to && p[u] < |home| && home[p[u]] == Home(to, p[u]) < |g.adj|
  {
  }

  method Initialise(g: Net, m: HopMatrix, to: Placement, home: seq<nat>, p: Placement)
    returns (gprime: seq<seq<nat>>, inplace: seq<bool>)
    requires Problem(g, p, to) && HopsExact(g, m) && Homes(to, home)
    ensures Tracked(g, to, p, gprime, inplace)
  {
    hide Hops, Coupling;
    gprime, inplace := [], [];
    for i := 0 to |p|
      invariant |gprime| == |inplace| == i
      invariant forall x: nat :: x < i ==> (inplace[x] <==> InPlace(to, p, x))
      invariant forall x: nat :: x < i ==>
        if p[x] == UNDEF then gprime[x] == [] else p[x] in to && Hops(g, x, Home(to, p[x]), gprime[x])
    {
      var hops: seq<nat> := [];
      if p[i] != UNDEF {
        HomeOf(g, to, home, p, i);
        hops := m[i][home[p[i]]];
      }
      gprime, inplace := gprime + [hops], inplace + [p[i] == UNDEF || p[i] == to[i]];
    }
  }

  // If no move is left the problem is solved.

  /** A misplaced token always has a next hop. */
  lemma HopExists(g: Net, to: Placement, p: Placement, u: nat) returns (v: nat)
    requires Problem(g, p, to) && u < |p| && !InPlace(to, p, u)
    ensures Hop(g, to, p, u, v) && v < |p|
  {
    hide Steps, Shortest;
    var t := Home(to, p[u]);
    v := DistFirstEdge(g, u, t);
  }

  lemma {:induction false} WanderingTrail(g: Net, to: Placement, p: Placement, gprime: seq<seq<nat>>, inplace: seq<bool>, u: nat, k: nat)
    returns (trail: seq<nat>)
    requires Problem(g, p, to) && Tracked(g, to, p, gprime, inplace) && NoMove(gprime, inplace)
    requires u < |p| && !inplace[u]
    ensures |trail| == k + 1 && trail[0] == u && Trail(gprime, trail)
    ensures forall i :: 0 <= i < |trail| ==> trail[i] < |p| && !inplace[trail[i]]
  {
    hide UpToDate, Hop, OnCycle, Coupling;
    if k == 0 {
      trail := [u];
    } else {
      var rest := WanderingTrail(g, to, p, gprime, inplace, u, k - 1);
      var last := rest[k - 1];
      TrackedHops(g, to, p, gprime, inplace, last, last);
      var v := HopExists(g, to, p, last);
      TrackedHops(g, to, p, gprime, inplace, last, v);
      trail := rest + [v];
    }
  }

  /** A trail with more vertices than the graph visits one of them twice. */
  lemma LongTrailCloses(adj: seq<seq<nat>>, trail: seq<nat>) returns (i: nat)
    requires Trail(adj, trail) && |trail| > |adj|
    ensures i < |trail| && OnCycle(adj, trail[i])
  {
    if Distinct(trail) {
      DistinctBound(trail, |adj|);
    }
    var x, y :| 0 <= x < y < |trail| && trail[x] == trail[y];
    i := x;
    assert ClosedTrail(adj, trail[x], trail[x..y + 1]);
  }

  lemma StuckIsSolved(g: Net, to: Placement, p: Placement, gprime: seq<seq<nat>>, inplace: seq<bool>)
    requires Problem(g, p, to) && Tracked(g, to, p, gprime, inplace) && NoMove(gprime, inplace)
    ensures Solved(to, p)
  {
    hide UpToDate, Hop, Coupling, Trail, OnCycle;
    forall u: nat | u < |p|
      ensures InPlace(to, p, u)
    {
      TrackedHops(g, to, p, gprime, inplace, u, u);
      if !inplace[u] {
        var trail := WanderingTrail(g, to, p, gprime, inplace, u, |p|);
        var i := LongTrailCloses(gprime, trail);
      }
    }
  }

  // What one move achieves.

  lemma ExchangeProblem(g: Net, to: Placement, p: Placement, u: nat, v: nat)
    requires Problem(g, p, to) && u < |p| && v < |p|
    ensures Problem(g, Exchange(p, u, v), to)
    ensures Total(g, to, One, Exchange(p, u, v)) == Total(g, to, One, p)
  {
    hide Coupling, Total;
    ExchangeKeeps(p, u, v);
    if u == v {
      assert Exchange(p, u, v) == p;
    } else {
      TotalExchange(g, to, One, p, u, v);
    }
  }

  lemma {:induction false} RotatedProblem(g: Net, to: Placement, p: Placement, c: seq<nat>, j: nat)
    requires Problem(g, p, to) && j < |c| && forall i :: 0 <= i < |c| ==> c[i] < |p|
    ensures Problem(g, Rotated(p, c, j), to)
    ensures Total(g, to, One, Rotated(p, c, j)) == Total(g, to, One, p)
    decreases j
  {
    hide Problem, Total;
    if j > 0 {
      RotatedProblem(g, to, p, c, j - 1);
      ExchangeProblem(g, to, Rotated(p, c, j - 1), c[j - 1], c[j]);
    }
  }

  /** Every move pays for its swaps out of the potential, and uses coupling edges only. */
  lemma MoveProgress(g: Net, to: Placement, p: Placement, gprime: seq<seq<nat>>, inplace: seq<bool>, path: seq<nat>)
    requires Problem(g, p, to) && Tracked(g, to, p, gprime, inplace) && IsMove(gprime, inplace, path)
    ensures |path| >= 2 && (forall i :: 0 <= i < |path| ==> path[i] < |p|)
    ensures Total(g, to, Phi, Rotated(p, path, |path| - 1)) + |path| - 1 <= Total(g, to, Phi, p)
    ensures Total(g, to, Phi, Rotated(p, path, |path| - 1)) < Total(g, to, Phi, p)
    ensures OnEdges(g, LinkSwaps(path))
  {
    hide UpToDate, Dist, Total, Connected;
    if IsCycle(gprime, path) {
      CycleIsHappy(g, to, p, gprime, inplace, path);
      ChainProgress(g, to, p, path);
      forall k | 0 <= k < |path| - 1
        ensures path[k + 1] in g.adj[path[k]]
      {
        assert Hop(g, to, p, path[k + 1], path[k]);
      }
    } else {
      var u, v := path[0], path[1];
      TrackedHops(g, to, p, gprime, inplace, u, v);
      TrackedHops(g, to, p, gprime, inplace, v, v);
      TrackedLoopFree(g, to, p, gprime, inplace);
      UnhappyProgress(g, to, p, u, v);
      assert Rotated(p, path, 0) == p;
      assert Rotated(p, path, 1) == Exchange(p, u, v);
    }
  }

  lemma LinksExtend(g: Net, from: Placement, swaps: seq<Swap>, p: Placement, path: seq<nat>)
    requires OnEdges(g, swaps) && OnBoard(swaps, |from|) && |from| == |g.adj| && p == Apply(from, swaps)
    requires path != [] && (forall i :: 0 <= i < |path| ==> path[i] < |p|) && OnEdges(g, LinkSwaps(path))
    ensures OnEdges(g, swaps + LinkSwaps(path)) && OnBoard(swaps + LinkSwaps(path), |from|)
    ensures Apply(from, swaps + LinkSwaps(path)) == Rotated(p, path, |path| - 1)
  {
    hide Apply, Rotated, LinkSwaps, OnEdges, OnBoard;
    EdgesConcat(g, swaps, LinkSwaps(path));
    LinksApply(p, path, |path| - 1);
    assert LinkSwaps(path)[..|path| - 1] == LinkSwaps(path);
    ApplyConcat(from, swaps, LinkSwaps(path));
  }

  lemma MoveDistinct(gprime: seq<seq<nat>>, inplace: seq<bool>, path: seq<nat>)
    requires LoopFree(gprime) && IsMove(gprime, inplace, path)
    ensures |path| >= 2 && Distinct(path)
  {
  }

  lemma MoveLeavesOthers(p: Placement, gprime: seq<seq<nat>>, inplace: seq<bool>, path: seq<nat>)
    requires LoopFree(gprime) && |gprime| == |p| && IsMove(gprime, inplace, path)
    requires forall i :: 0 <= i < |path| ==> path[i] < |p|
    ensures forall x: nat :: x < |p| && x !in path ==> Rotated(p, path, |path| - 1)[x] == p[x]
  {
    hide IsMove, LoopFree, Distinct, Rotated;
    MoveDistinct(gprime, inplace, path);
    RotatedAt(p, path, |path| - 1);
    assert path[..|path| - 1 + 1] == path;
  }

  /**
    The loop ends on every coupling graph, with every token home, having used coupling edges only
    and at most twice the initial total distance minus the number of misplaced tokens.
   */
  method Run(g: Net, m: HopMatrix, from: Placement, to: Placement) returns (swaps: seq<Swap>)
    requires Problem(g, from, to) && HopsExact(g, m)
    ensures OnEdges(g, swaps)
    ensures Solved(to, Apply(from, swaps))
    ensures |swaps| + Total(g, to, Away, from) <= 2 * Total(g, to, Plain, from)
    ensures ChainsFirst(g, to, from, swaps)
  {
    hide Played, NextMove, IsCycle, OnCycle, FirstStep, NoChain, CycleFrom, Problem, Tracked, HopsExact, Total, Homes, OnEdges, IsMove, NoMove, Solved;
    assert Problem(g, from, to) && |from| == |to| == |g.adj| && IsPlacement(to, |to|) by { ProblemShape(g, from, to); }
    var p := from;
    var home := InvertTarget(to);
    var gprime, inplace := Initialise(g, m, to, home, p);
    swaps := [];
    ghost var moves: seq<seq<nat>> := [];
    assert Played(g, to, from, moves, swaps, p) by { NothingPlayed(g, to, from); }
    assert OnEdges(g, swaps) by { NoSwaps(g, from); }
    while true
      invariant Problem(g, p, to) && Tracked(g, to, p, gprime, inplace)
      invariant OnEdges(g, swaps) && OnBoard(swaps, |from|) && p == Apply(from, swaps)
      invariant |swaps| + Total(g, to, Phi, p) <= Total(g, to, Phi, from)
      invariant Total(g, to, One, p) == Total(g, to, One, from)
      invariant Played(g, to, from, moves, swaps, p)
      decreases Total(g, to, Phi, p)
    {
      TrackedShape(g, to, p, gprime, inplace);
      var path := FindMove(gprime, inplace);
      if path == [] {
        StuckIsSolved(g, to, p, gprime, inplace);
        break;
      }
      MoveProgress(g, to, p, gprime, inplace, path);
      MoveLeavesOthers(p, gprime, inplace, path);
      RotatedProblem(g, to, p, path, |path| - 1);
      LinksExtend(g, from, swaps, p, path);
      FoundIsNext(g, to, p, gprime, inplace, path);
      PlayedMore(g, to, from, moves, swaps, p, path);
      moves := moves + [path];
      var p';
      p', swaps := SwapAlong(p, swaps, path);
      gprime, inplace := Refresh(g, m, to, home, p, p', path, gprime, inplace);
      p := p';
      assert OnBoard(swaps, |from|) by { EdgesOnBoard(g, swaps); }
    }
    ProblemShape(g, p, to);
    SolvedTotals(g, to, p);
    PhiSplit(g, to, from);
  }

  lemma ProblemShape(g: Net, p: Placement, to: Placement)
    requires Problem(g, p, to)
    ensures |p| == |to| == |g.adj| && Coupling(g) && IsPlacement(to, |to|)
  {
  }

  lemma TrackedShape(g: Net, to: Placement, p: Placement, gprime: seq<seq<nat>>, inplace: seq<bool>)
    requires Problem(g, p, to) && Tracked(g, to, p, gprime, inplace)
    ensures |p| == |to| == |g.adj| == |gprime| == |inplace| && LoopFree(gprime)
  {
    hide UpToDate;
    TrackedLoopFree(g, to, p, gprime, inplace);
  }
}
