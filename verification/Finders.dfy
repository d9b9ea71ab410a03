/** The two approximate token swap finders, and the guarantees their callers rely on. */
module Finders {
  import opened Outcomes
  import opened Sums
  import opened Networks
  import opened Placements
  import opened Moves
  import opened NextHops
  import opened Completion
  import SwapLoop

  // What swaps do to a whole placement.

  lemma {:induction false} ApplyKeeps(p: Placement, s: seq<Swap>)
    requires OnBoard(s, |p|)
    ensures multiset(Apply(p, s)) == multiset(p)
    ensures IsPlacement(p, |p|) ==> IsPlacement(Apply(p, s), |p|)
    ensures forall t: nat :: t in Apply(p, s) <==> t in p
  {
    if s != [] {
      var k := |s| - 1;
      ApplyKeeps(p, s[..k]);
      ExchangeKeeps(Apply(p, s[..k]), s[k].u, s[k].v);
      assert multiset(Apply(p, s)) == multiset(p);
    }
    assert forall t: nat :: t in Apply(p, s) <==> t in multiset(Apply(p, s));
    assert forall t: nat :: t in p <==> t in multiset(p);
  }

  /** With the same tokens on both sides, having every token home is being the target, blanks included. */
  lemma SolvedIsTarget(to: Placement, p: Placement)
    requires |p| == |to| && Injective(to) && SameTokens(p, to)
    ensures Solved(to, p) <==> p == to
  {
    if Solved(to, p) {
      forall i: nat | i < |p|
        ensures p[i] == to[i]
      {
        assert InPlace(to, p, i);
        if to[i] != UNDEF {
          assert to[i] in to;
          var j: nat :| j < |p| && p[j] == to[i];
          assert InPlace(to, p, j);
          assert i == j;
        }
      }
    }
  }

  /** Four times any sequence of edge swaps that brings every token home. */
  ghost predicate FourApproximate(g: Net, from: Placement, to: Placement, swaps: seq<Swap>)
    requires |from| == |g.adj|
  {
    forall s :: OnEdges(g, s) && OnBoard(s, |from|) && Solved(to, Apply(from, s)) ==> |swaps| <= 4 * |s|
  }

  lemma BoundIsFourApproximate(g: Net, from: Placement, to: Placement, swaps: seq<Swap>)
    requires Problem(g, from, to)
    requires |swaps| + Total(g, to, Away, from) <= 2 * Total(g, to, Plain, from)
    ensures FourApproximate(g, from, to, swaps)
  {
    hide Total, Coupling, Solved;
    forall s | OnEdges(g, s) && OnBoard(s, |from|) && Solved(to, Apply(from, s))
      ensures |swaps| <= 4 * |s|
    {
      AnySolutionIsLong(g, to, from, s);
    }
  }

  class SimplifiedApproxFinder {
    var graph: Option<Net>
    var matrix: HopMatrix

    ghost predicate Ready()
      reads this
    {
      graph.Some? ==> Undirected(graph.value) && HopsExact(graph.value, matrix)
    }

    constructor ()
      ensures graph == None && matrix == [] && Ready()
    {
      graph, matrix := None, [];
    }

    /** preprocess() appends to the matrix and never clears it, so only the first call makes the finder ready. */
    method SetGraph(g: Net)
      requires Undirected(g)
      modifies this
      ensures graph == Some(g) && old(matrix) <= matrix
      ensures old(matrix) == [] ==> Ready()
    {
      graph := Some(g);
      var rows := Preprocess(g);
      matrix := matrix + rows;
      assert old(matrix) == [] ==> matrix == rows;
    }

    method Find(from: Placement, to: Placement) returns (r: Outcome<seq<Swap>>)
      requires Ready() && (graph.Some? ==> Problem(graph.value, from, to))
      ensures r.Abort? <==> graph.None?
      ensures r.Done? ==> OnEdges(graph.value, r.value) && OnBoard(r.value, |from|)
      ensures r.Done? ==> Solved(to, Apply(from, r.value))
      ensures r.Done? && SameTokens(from, to) ==> Apply(from, r.value) == to
      ensures r.Done? ==> |r.value| + Total(graph.value, to, Away, from) <= 2 * Total(graph.value, to, Plain, from)
      ensures r.Done? ==> FourApproximate(graph.value, from, to, r.value)
      ensures r.Done? ==> SwapLoop.ChainsFirst(graph.value, to, from, r.value)
    {
      hide SwapLoop.ChainsFirst, Problem, Coupling, HopsExact, Total, Solved, FourApproximate, OnEdges, SameTokens;
      if graph.None? {
        return Abort;
      }
      ProblemSizes(graph.value, from, to);
      var swaps := SwapLoop.Run(graph.value, matrix, from, to);
      EdgesOnBoard(graph.value, swaps);
      ReachesTarget(from, to, swaps);
      BoundIsFourApproximate(graph.value, from, to, swaps);
      r := Done(swaps);
    }
  }

  lemma ProblemSizes(g: Net, from: Placement, to: Placement)
    requires Problem(g, from, to)
    ensures |from| == |to| == |g.adj| && IsPlacement(from, |from|) && IsPlacement(to, |to|)
  {
  }

  lemma ReachesTarget(from: Placement, to: Placement, s: seq<Swap>)
    requires |from| == |to| && Injective(to) && OnBoard(s, |from|)
    ensures SameTokens(from, to) && Solved(to, Apply(from, s)) ==> Apply(from, s) == to
  {
    ApplyKeeps(from, s);
    if SameTokens(from, to) {
      SolvedIsTarget(to, Apply(from, s));
    }
  }

  // The full finder works on completed placements. Blanking the added tokens out again commutes with swapping.

  ghost function Mask(q: Placement, p: Placement): (r: Placement)
    ensures |r| == |q| && forall i :: 0 <= i < |q| ==> r[i] == if q[i] in p then q[i] else UNDEF
  {
    seq(|q|, i requires 0 <= i < |q| => if q[i] in p then q[i] else UNDEF)
  }

  lemma {:induction false} MaskApply(q: Placement, p: Placement, s: seq<Swap>)
    requires OnBoard(s, |q|)
    ensures Apply(Mask(q, p), s) == Mask(Apply(q, s), p)
  {
    if s != [] {
      MaskApply(q, p, s[..|s| - 1]);
    }
  }

  lemma MaskCompletion(p: Placement, q: Placement, from: Placement)
    requires |p| <= UNDEF && IsPlacement(p, |p|) && IsCompletion(p, q) && SameTokens(from, p) && UNDEF !in q
    ensures Mask(q, from) == p
  {
  }

  lemma CompletionHasNoBlank(p: Placement, q: Placement)
    requires |p| <= UNDEF && IsCompletion(p, q)
    ensures UNDEF !in q && IsPlacement(q, |p|)
  {
  }

  /** Solving the completed problem solves the original one exactly. */
  lemma CompletedIsSolved(from: Placement, to: Placement, from': Placement, to': Placement, s: seq<Swap>)
    requires |from| == |to| <= UNDEF && IsPlacement(from, |from|) && IsPlacement(to, |to|) && SameTokens(from, to)
    requires IsCompletion(from, from') && IsCompletion(to, to') && OnBoard(s, |from|)
    ensures Apply(from', s) == to' ==> Apply(from, s) == to
  {
    hide IsPlacement, IsCompletion;
    CompletionHasNoBlank(from, from');
    CompletionHasNoBlank(to, to');
    assert SameTokens(from, from);
    assert |from'| == |from| && |to'| == |to| by { CompletionSize(from, from'); CompletionSize(to, to'); }
    MaskCompletion(from, from', from);
    MaskCompletion(to, to', from);
    MaskApply(from', from, s);
  }

  lemma CompletionSize(p: Placement, q: Placement)
    requires IsCompletion(p, q)
    ensures |q| == |p|
  {
  }

  /** Any solution of the original problem completes the target in some way, and so costs at least half our total. */
  lemma AnySolutionCompletes(g: Net, from: Placement, to: Placement, from': Placement, to': Placement, s: seq<Swap>)
    requires Coupling(g) && |from| == |to| == |g.adj| <= UNDEF
    requires IsPlacement(from, |from|) && IsPlacement(to, |to|) && SameTokens(from, to)
    requires IsCompletion(from, from') && Cheapest(g, from, to, from', to')
    requires OnEdges(g, s) && OnBoard(s, |from|) && Apply(from, s) == to
    ensures Total(g, to', Plain, from') <= 2 * |s|
  {
    hide Total, Coupling, OnEdges, Steps, Shortest;
    CompletionHasNoBlank(from, from');
    var t := Apply(from', s);
    ApplyKeeps(from', s);
    MaskCompletion(from, from', from);
    MaskApply(from', from, s);
    assert IsCompletion(to, t) by {
      assert forall i: nat :: i < |to| ==> to[i] == if t[i] in from then t[i] else UNDEF;
      assert UNDEF !in t;
    }
    assert Solved(t, t);
    AnySolutionIsLong(g, t, from', s);
  }

  lemma ApproxIsFourApproximate(g: Net, from: Placement, to: Placement, from': Placement, to': Placement, swaps: seq<Swap>)
    requires Coupling(g) && |from| == |to| == |g.adj| <= UNDEF
    requires IsPlacement(from, |from|) && IsPlacement(to, |to|) && SameTokens(from, to)
    requires IsCompletion(from, from') && Cheapest(g, from, to, from', to')
    requires |swaps| <= 2 * Total(g, to', Plain, from')
    ensures FourApproximate(g, from, to, swaps)
  {
    hide Total, Coupling, Solved, OnEdges, IsPlacement, IsCompletion, Cheapest, SameTokens;
    assert Injective(to) by { PlacementInjective(to); }
    forall s | OnEdges(g, s) && OnBoard(s, |from|) && Solved(to, Apply(from, s))
      ensures |swaps| <= 4 * |s|
    {
      ReachesTarget(from, to, s);
      AnySolutionCompletes(g, from, to, from', to', s);
    }
  }

  lemma PlacementInjective(p: Placement)
    requires IsPlacement(p, |p|)
    ensures Injective(p)
  {
  }

  lemma CompletedProblem(g: Net, from: Placement, to: Placement, from': Placement, to': Placement)
    requires Coupling(g) && |from| == |to| == |g.adj| <= UNDEF
    requires IsCompletion(from, from') && IsCompletion(to, to')
    ensures Problem(g, from', to') && SameTokens(from', to')
  {
    CompletionHasNoBlank(from, from');
    CompletionHasNoBlank(to, to');
    forall t: nat | t < |from|
      ensures t in from' && t in to'
    {
      PermutationHits(from', t);
      PermutationHits(to', t);
    }
  }

  /** Made for a cheapest completion: happy chains first, and at most twice its distances less its tokens that start out of place. */
  ghost predicate WithinCheapest(g: Net, from: Placement, to: Placement, swaps: seq<Swap>) {
    exists f, t ::
      && IsCompletion(from, f) && IsCompletion(to, t) && Cheapest(g, from, to, f, t) && SwapLoop.ChainsFirst(g, t, f, swaps)
      && |swaps| + Total(g, t, Away, f) <= 2 * Total(g, t, Plain, f)
  }

  class ApproxFinder {
    var graph: Option<Net>
    var matrix: HopMatrix

    ghost predicate Ready()
      reads this
    {
      graph.Some? ==> Undirected(graph.value) && HopsExact(graph.value, matrix)
    }

    constructor ()
      ensures graph == None && matrix == [] && Ready()
    {
      graph, matrix := None, [];
    }

    method SetGraph(g: Net)
      requires Undirected(g)
      modifies this
      ensures graph == Some(g) && old(matrix) <= matrix
      ensures old(matrix) == [] ==> Ready()
    {
      graph := Some(g);
      var rows := Preprocess(g);
      matrix := matrix + rows;
      assert old(matrix) == [] ==> matrix == rows;
    }

    method Find(from: Placement, to: Placement) returns (r: Outcome<seq<Swap>>)
      requires Ready()
      requires graph.Some? ==> Coupling(graph.value) && 2 * |graph.value.adj| <= UNDEF
      requires graph.Some? ==> IsPlacement(from, |graph.value.adj|) && IsPlacement(to, |graph.value.adj|) && SameTokens(from, to)
      ensures r.Abort? <==> graph.None?
      ensures r.Done? ==> OnEdges(graph.value, r.value) && OnBoard(r.value, |from|)
      ensures r.Done? ==> Apply(from, r.value) == to
      ensures r.Done? ==> |from| == |graph.value.adj| && FourApproximate(graph.value, from, to, r.value)
      ensures r.Done? ==> WithinCheapest(graph.value, from, to, r.value)
    {
      hide SwapLoop.ChainsFirst, Problem, Coupling, HopsExact, Total, Solved, FourApproximate, OnEdges, SameTokens, IsPlacement, IsCompletion, Cheapest;
      if graph.None? {
        return Abort;
      }
      var g := graph.value;
      Sizes(g, from, to);
      var from', to' := FixUndefAssignments(g, from, to);
      CompletedProblem(g, from, to, from', to');
      ProblemSizes(g, from', to');
      var swaps := SwapLoop.Run(g, matrix, from', to');
      EdgesOnBoard(g, swaps);
      assert Injective(to') by { PlacementInjective(to'); }
      ReachesTarget(from', to', swaps);
      CompletedIsSolved(from, to, from', to', swaps);
      ApproxIsFourApproximate(g, from, to, from', to', swaps);
      r := Done(swaps);
    }
  }
}
