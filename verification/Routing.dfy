/** The finders at work: against each other, and on a named architecture up to the check of what they emit. */
module Routing {
  import opened Outcomes
  import opened Sums
  import opened Networks
  import opened Graphs
  import opened Placements
  import opened Finders
  import opened Completion
  import opened Permutations
  import opened Lexicographic
  import opened ExactFinder
  import Verifier

  /** The comparison of the two finders: ours leads to the target and, without blanks, is never shorter and at most four times as long. */
  method CheckSwapSeq(approx: ApproxFinder, exact: ExpFinder, from: Placement, to: Placement, hasUndef: bool)
    returns (ours: seq<Swap>, best: seq<Swap>, short: bool, reached: Placement)
    requires approx.Ready() && approx.graph.Some? && Coupling(approx.graph.value) && 2 * |approx.graph.value.adj| <= UNDEF
    requires IsPlacement(from, |approx.graph.value.adj|) && IsPlacement(to, |approx.graph.value.adj|) && SameTokens(from, to)
    requires !hasUndef ==> exact.Ready() && exact.graph == approx.graph && UNDEF !in from && UNDEF !in to
    ensures short && reached == to && OnBoard(ours, |from|) && Apply(from, ours) == to
    ensures !hasUndef ==> OnBoard(best, |from|) && Apply(from, best) == to && |best| <= |ours| <= 4 * |best|
  {
    hide Coupling, Optimal, FourApproximate, WithinCheapest, OnEdges, SameTokens, IsPlacement, ApproxFinder.Ready, ExpFinder.Ready;
    NoBlanks(from, to, |approx.graph.value.adj|);
    var r := approx.Find(from, to);
    ours, best, short := r.value, [], true;
    if !hasUndef {
      var e := exact.Find(from, to);
      best := e.value;
      OptimalSolves(exact.graph.value, from, to, best, ours);
      short := |ours| <= 4 * |best|;
    }
    reached := from;
    for i := 0 to |ours|
      invariant |reached| == |from| && reached == Apply(from, ours[..i])
    {
      var swap := ours[i];
      assert ours[..i + 1][..i] == ours[..i];
      reached := Exchange(reached, swap.u, swap.v);
    }
    assert ours[..|ours|] == ours;
  }

  /** Placements without blanks are permutations. */
  lemma NoBlanks(from: Placement, to: Placement, n: nat)
    requires IsPlacement(from, n) && IsPlacement(to, n)
    ensures |from| == |to| == n
    ensures UNDEF !in from && UNDEF !in to ==> Permutation(from) && Permutation(to)
  {
    assert forall i :: 0 <= i < |from| ==> from[i] in from;
    assert forall i :: 0 <= i < |to| ==> to[i] in to;
  }

  /** What a finder sees of a graph. */
  method Adjacency(g: Graph) returns (net: Net)
    requires g.Valid()
    ensures net == g.Ways()
  {
    var adj: seq<set<nat>> := [];
    for i := 0 to g.n
      invariant |adj| == i && forall k: nat :: k < i ==> adj[k] == g.Ways().adj[k]
    {
      var a := g.Adj(i);
      adj := adj + [a];
    }
    net := Net(adj);
    assert net.adj == g.Ways().adj;
  }

  /** Writes swaps out as intrinsic swaps, each along the direction the coupling has. */
  method IssueSwaps(a: Verifier.Architecture, swaps: seq<Swap>) returns (stmts: seq<Verifier.Statement>)
    requires a.Valid() && a.count == a.graph.n && OnEdges(a.graph.Ways(), swaps)
    ensures |stmts| == |swaps| && forall i: nat :: i < |stmts| ==> Verifier.Carries(a, stmts[i].op)
    ensures forall i: nat :: i < |stmts| ==> Issued(a, swaps[i], stmts[i])
  {
    hide Verifier.Carries;
    stmts := [];
    for i := 0 to |swaps|
      invariant |stmts| == i && forall k: nat :: k < i ==> Issued(a, swaps[k], stmts[k])
    {
      var u, v := swaps[i].u, swaps[i].v;
      a.graph.WaysAreEdges(u, v);
      var along := a.graph.HasEdge(u, v);
      if !along {
        u, v := v, u;
      }
      stmts := stmts + [Verifier.Plain(Verifier.Operation(Verifier.Intrinsic(Some(Verifier.IntrinsicKind.Swap)), [a.names[u], a.names[v]]))];
    }
    forall i: nat | i < |stmts|
      ensures Verifier.Carries(a, stmts[i].op)
    {
      IssuedIsCarried(a, swaps[i], stmts[i]);
    }
  }

  lemma IssuedIsCarried(a: Verifier.Architecture, swap: Swap, st: Verifier.Statement)
    requires a.Valid() && Issued(a, swap, st)
    ensures Verifier.Carries(a, st.op)
  {
    hide Verifier.Carries, Verifier.Malformed, Verifier.Realises;
    Verifier.KindByKind(a, st.op);
  }

  /** An intrinsic swap of the two named qubits, along a coupling. */
  ghost predicate Issued(a: Verifier.Architecture, swap: Swap, st: Verifier.Statement)
    requires a.Valid()
    reads a, a.graph
  {
    && swap.u < a.graph.n && swap.v < a.graph.n
    && st.Plain? && st.op.gate == Verifier.Intrinsic(Some(Verifier.IntrinsicKind.Swap)) && |st.op.qargs| == 2
    && a.Has(Verifier.Leg(st.op.qargs[0], st.op.qargs[1]))
    && (st.op.qargs == [a.names[swap.u], a.names[swap.v]] || st.op.qargs == [a.names[swap.v], a.names[swap.u]])
  }

  /** Writes out any swaps along couplings and has them checked: they are always accepted. */
  method IssueAndCheck(a: Verifier.Architecture, swaps: seq<Swap>) returns (stmts: seq<Verifier.Statement>, accepted: bool)
    requires a.Valid() && a.count == a.graph.n && OnEdges(a.graph.Ways(), swaps)
    ensures |stmts| == |swaps| && forall i: nat :: i < |stmts| ==> Issued(a, swaps[i], stmts[i])
    ensures accepted
  {
    hide OnEdges, Verifier.Carries, Verifier.Malformed, Issued;
    stmts := IssueSwaps(a, swaps);
    var verifier := new Verifier.ArchVerifier(a);
    var aborted := verifier.Run(stmts);
    assert !aborted by { CarriedIsWellFormed(a, stmts); }
    accepted := verifier.data;
  }

  // The three finders, each from two placements on an architecture to statements that are accepted.

  method RouteSimplified(a: Verifier.Architecture, from: Placement, to: Placement)
    returns (swaps: seq<Swap>, stmts: seq<Verifier.Statement>, accepted: bool)
    requires a.Valid() && a.count == a.graph.n && Problem(a.graph.Ways(), from, to)
    ensures OnBoard(swaps, |from|) && Solved(to, Apply(from, swaps))
    ensures |stmts| == |swaps| && forall i: nat :: i < |stmts| ==> Issued(a, swaps[i], stmts[i])
    ensures accepted
  {
    hide Problem, OnEdges, Solved, Issued, SameTokens, FourApproximate;
    var net := Adjacency(a.graph);
    var finder := new SimplifiedApproxFinder();
    finder.SetGraph(net);
    var r := finder.Find(from, to);
    swaps := r.value;
    stmts, accepted := IssueAndCheck(a, swaps);
  }

  method RouteApprox(a: Verifier.Architecture, from: Placement, to: Placement)
    returns (swaps: seq<Swap>, stmts: seq<Verifier.Statement>, accepted: bool)
    requires a.Valid() && a.count == a.graph.n && Coupling(a.graph.Ways()) && 2 * a.graph.n <= UNDEF
    requires IsPlacement(from, a.graph.n) && IsPlacement(to, a.graph.n) && SameTokens(from, to)
    ensures OnBoard(swaps, |from|) && Apply(from, swaps) == to
    ensures |stmts| == |swaps| && forall i: nat :: i < |stmts| ==> Issued(a, swaps[i], stmts[i])
    ensures accepted
  {
    hide Coupling, OnEdges, Issued, SameTokens, FourApproximate, WithinCheapest, IsPlacement;
    var net := Adjacency(a.graph);
    var finder := new ApproxFinder();
    finder.SetGraph(net);
    var r := finder.Find(from, to);
    swaps := r.value;
    stmts, accepted := IssueAndCheck(a, swaps);
  }

  method RouteExact(a: Verifier.Architecture, from: Placement, to: Placement)
    returns (swaps: seq<Swap>, stmts: seq<Verifier.Statement>, accepted: bool)
    requires a.Valid() && a.count == a.graph.n && Coupling(a.graph.Ways()) && Factorial(a.graph.n) <= UNDEF
    requires PermutationOf(from, a.graph.n) && PermutationOf(to, a.graph.n)
    ensures OnBoard(swaps, |from|) && Apply(from, swaps) == to
    ensures |stmts| == |swaps| && forall i: nat :: i < |stmts| ==> Issued(a, swaps[i], stmts[i])
    ensures accepted
  {
    hide Coupling, OnEdges, Issued, Permutation, Factorial;
    var net := Adjacency(a.graph);
    var finder := new ExpFinder();
    finder.SetGraph(net);
    var r := finder.Find(from, to);
    swaps := r.value;
    stmts, accepted := IssueAndCheck(a, swaps);
  }

  lemma CarriedIsWellFormed(a: Verifier.Architecture, stmts: seq<Verifier.Statement>)
    requires forall i: nat :: i < |stmts| ==> Verifier.Carries(a, stmts[i].op)
    ensures forall i: nat :: i < |stmts| ==> !Verifier.Malformed(a, stmts[i].op)
  {
  }
}
