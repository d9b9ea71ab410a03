/** The exact token swap finder: breadth-first search over all permutations. */
module ExactFinder {
  import opened Outcomes
  import opened Sums
  import opened Networks
  import opened Frontiers
  import opened Placements
  import opened Permutations
  import opened Lexicographic
  import opened Finders

  /** What has been recorded for the permutations inserted so far. */
  ghost predicate Stored(g: Net, perms: seq<seq<nat>>, seen: set<nat>, swaps: seq<seq<Swap>>) {
    && |swaps| == |perms|
    && forall c: nat :: c < |perms| && c in seen ==> StoredAt(g, perms, c, swaps[c])
  }

  /** A shortest edge-swap sequence from the identity to perms[c]. */
  ghost predicate StoredAt(g: Net, perms: seq<seq<nat>>, c: nat, s: seq<Swap>) {
    && c < |perms| && OnEdges(g, s) && OnBoard(s, |g.adj|)
    && Apply(Identity(|g.adj|), s) == perms[c]
    && |s| == Dist(Cayley(g, perms), 0, c)
  }

  ghost predicate Ids(perms: seq<seq<nat>>, ids: map<seq<nat>, nat>) {
    && (forall p :: p in ids <==> p in perms)
    && forall p :: p in ids ==> ids[p] < |perms| && perms[ids[p]] == p
  }

  method NumberAssigns(perms: seq<seq<nat>>) returns (ids: map<seq<nat>, nat>)
    requires forall a: nat, b: nat :: a < b < |perms| ==> perms[a] != perms[b]
    ensures Ids(perms, ids)
  {
    ids := map[];
    for i := 0 to |perms|
      invariant forall p :: p in ids <==> p in perms[..i]
      invariant forall p :: p in ids ==> ids[p] < i && perms[ids[p]] == p
    {
      assert perms[..i + 1] == perms[..i] + [perms[i]];
      ids := ids[perms[i] := i];
    }
    assert perms[..|perms|] == perms;
  }

  lemma Neighbour(g: Net, perms: seq<seq<nat>>, ids: map<seq<nat>, nat>, a: nat, u: nat, v: nat)
    requires WellFormed(g) && Enumeration(perms, |g.adj|) && Ids(perms, ids)
    requires a < |perms| && u < |g.adj| && v in g.adj[u]
    ensures v < |g.adj| && |perms[a]| == |g.adj| && Exchange(perms[a], u, v) in ids
    ensures ids[Exchange(perms[a], u, v)] < |perms| && perms[ids[Exchange(perms[a], u, v)]] == Exchange(perms[a], u, v)
    ensures ids[Exchange(perms[a], u, v)] in Cayley(g, perms).adj[a]
  {
    ExchangePermutation(perms[a], u, v);
    assert PermutationOf(Exchange(perms[a], u, v), |g.adj|);
    assert OneSwap(g, perms[a], Exchange(perms[a], u, v));
  }

  lemma StoreOne(g: Net, perms: seq<seq<nat>>, seen: set<nat>, swaps: seq<seq<Swap>>, a: nat, c: nat, u: nat, v: nat)
    requires WellFormed(g) && Enumeration(perms, |g.adj|) && Stored(g, perms, seen, swaps) && a in seen && a < |perms|
    requires c < |perms| && u < |g.adj| && v in g.adj[u] && |perms[a]| == |g.adj| && v < |g.adj|
    requires perms[c] == Exchange(perms[a], u, v)
    requires Dist(Cayley(g, perms), 0, c) == Dist(Cayley(g, perms), 0, a) + 1
    ensures Stored(g, perms, seen + {c}, swaps[c := swaps[a] + [Swap(u, v)]])
  {
    hide Enumeration, Dist, Cayley;
    var s := swaps[a];
    assert StoredAt(g, perms, a, s);
    OneEdge(g, perms[a], Swap(u, v));
    Chain(g, Identity(|g.adj|), s, [Swap(u, v)]);
    assert StoredAt(g, perms, c, s + [Swap(u, v)]);
    hide StoredAt;
    var swaps' := swaps[c := s + [Swap(u, v)]];
    forall x: nat | x < |perms| && x in seen + {c}
      ensures StoredAt(g, perms, x, swaps'[x])
    {
    }
  }

  /** The permutations one swap away from `a` through a vertex below `u`, or through `u` and a neighbour below `v`. */
  ghost predicate Tried(g: Net, perms: seq<seq<nat>>, seen: set<nat>, a: nat, u: nat, v: nat)
    requires a < |perms| && |perms[a]| == |g.adj|
  {
    forall x: nat, y: nat :: x < |g.adj| && y < |g.adj| && y in g.adj[x] && (x < u || (x == u && y < v)) ==>
      Inserted(perms, seen, Exchange(perms[a], x, y))
  }

  ghost predicate Inserted(perms: seq<seq<nat>>, seen: set<nat>, p: seq<nat>) {
    forall c: nat :: c < |perms| && perms[c] == p ==> c in seen
  }

  lemma AllTried(g: Net, perms: seq<seq<nat>>, seen: set<nat>, a: nat)
    requires WellFormed(g) && a < |perms| && |perms[a]| == |g.adj| && Tried(g, perms, seen, a, |g.adj|, 0)
    ensures Cayley(g, perms).adj[a] <= seen
  {
  }

  lemma InsertedOnce(perms: seq<seq<nat>>, n: nat, seen: set<nat>, c: nat)
    requires Enumeration(perms, n) && c < |perms| && c in seen
    ensures Inserted(perms, seen, perms[c])
  {
  }

  lemma TriedMore(g: Net, perms: seq<seq<nat>>, seen: set<nat>, seen': set<nat>, a: nat, u: nat, v: nat)
    requires a < |perms| && |perms[a]| == |g.adj| && Tried(g, perms, seen, a, u, v) && seen <= seen' && u < |g.adj|
    requires v < |g.adj| && v in g.adj[u] ==> Inserted(perms, seen', Exchange(perms[a], u, v))
    ensures Tried(g, perms, seen', a, u, v + 1)
  {
  }

  lemma TriedNext(g: Net, perms: seq<seq<nat>>, seen: set<nat>, a: nat, u: nat)
    requires a < |perms| && |perms[a]| == |g.adj| && Tried(g, perms, seen, a, u, |g.adj|)
    ensures Tried(g, perms, seen, a, u + 1, 0)
  {
    hide Inserted;
  }

  /** Swaps along one edge and stores the result if it is new. */
  method TryEdge(g: Net, perms: seq<seq<nat>>, ids: map<seq<nat>, nat>, a: nat, u: nat, v: nat,
                 q: seq<nat>, inserted: seq<bool>, swaps: seq<seq<Swap>>)
    returns (q': seq<nat>, inserted': seq<bool>, swaps': seq<seq<Swap>>)
    requires WellFormed(g) && Enumeration(perms, |g.adj|) && Ids(perms, ids) && |perms| <= UNDEF
    requires a < |perms| == |inserted| == |swaps| && inserted[a] && u < |g.adj| && v in g.adj[u]
    requires Expanding(Cayley(g, perms), 0, Marked(inserted), q, a, 0) && Stored(g, perms, Marked(inserted), swaps)
    ensures |inserted'| == |perms| == |swaps'| && Marked(inserted) <= Marked(inserted')
    ensures Marked(inserted') == Marked(inserted) ==> q' == q
    ensures Expanding(Cayley(g, perms), 0, Marked(inserted'), q', a, 0) && Stored(g, perms, Marked(inserted'), swaps')
    ensures v < |g.adj| == |perms[a]| && Inserted(perms, Marked(inserted'), Exchange(perms[a], u, v))
  {
    hide Enumeration, Ids, Cayley, Expanding, Stored, Inserted, Dist, WellFormed, Marked;
    q', inserted', swaps' := q, inserted, swaps;
    CayleyFacts(g, perms, a);
    Neighbour(g, perms, ids, a, u, v);
    var copy := Exchange(perms[a], u, v);
    var c := ids[copy];
    if !inserted[c] {
      Discover(Cayley(g, perms), 0, Marked(inserted), q, a, 0, c);
      StoreOne(g, perms, Marked(inserted), swaps, a, c, u, v);
      MarkedUpdate(inserted, c);
      inserted' := inserted[c := true];
      swaps' := swaps[c := swaps[a] + [Swap(u, v)]];
      q' := q + [c];
    }
    InsertedOnce(perms, |g.adj|, Marked(inserted'), c);
  }

  /** Expands the permutation `a`: tries every swap along an edge. */
  method Expand(g: Net, perms: seq<seq<nat>>, ids: map<seq<nat>, nat>, a: nat,
                q: seq<nat>, inserted: seq<bool>, swaps: seq<seq<Swap>>)
    returns (q': seq<nat>, inserted': seq<bool>, swaps': seq<seq<Swap>>)
    requires WellFormed(g) && Enumeration(perms, |g.adj|) && Ids(perms, ids) && |perms| <= UNDEF
    requires a < |perms| == |inserted| == |swaps| && inserted[a]
    requires Expanding(Cayley(g, perms), 0, Marked(inserted), q, a, 0) && Stored(g, perms, Marked(inserted), swaps)
    ensures |inserted'| == |perms| == |swaps'| && Marked(inserted) <= Marked(inserted')
    ensures Marked(inserted') == Marked(inserted) ==> q' == q
    ensures Expanding(Cayley(g, perms), 0, Marked(inserted'), q', a, 0) && Cayley(g, perms).adj[a] <= Marked(inserted')
    ensures Stored(g, perms, Marked(inserted'), swaps')
  {
    hide Enumeration, Ids, Cayley, Expanding, Stored, Tried, Inserted, Dist, WellFormed, Marked, Exchange;
    q', inserted', swaps' := q, inserted, swaps;
    ghost var cay := Cayley(g, perms);
    CayleyFacts(g, perms, a);
    var n := |g.adj|;
    for u := 0 to n
      invariant |inserted'| == |perms| == |swaps'| && a in Marked(inserted') && Marked(inserted) <= Marked(inserted')
      invariant Marked(inserted') == Marked(inserted) ==> q' == q
      invariant Expanding(cay, 0, Marked(inserted'), q', a, 0) && Stored(g, perms, Marked(inserted'), swaps')
      invariant Tried(g, perms, Marked(inserted'), a, u, 0)
    {
      for v := 0 to n
        invariant |inserted'| == |perms| == |swaps'| && a in Marked(inserted') && Marked(inserted) <= Marked(inserted')
        invariant Marked(inserted') == Marked(inserted) ==> q' == q
        invariant Expanding(cay, 0, Marked(inserted'), q', a, 0) && Stored(g, perms, Marked(inserted'), swaps')
        invariant Tried(g, perms, Marked(inserted'), a, u, v)
      {
        ghost var before := Marked(inserted');
        if v in g.adj[u] {
          q', inserted', swaps' := TryEdge(g, perms, ids, a, u, v, q', inserted', swaps');
        }
        TriedMore(g, perms, before, Marked(inserted'), a, u, v);
      }
      TriedNext(g, perms, Marked(inserted'), a, u);
    }
    AllTried(g, perms, Marked(inserted'), a);
  }

  lemma CayleyFacts(g: Net, perms: seq<seq<nat>>, a: nat)
    requires WellFormed(g) && Enumeration(perms, |g.adj|) && |perms| <= UNDEF && a < |perms|
    ensures WellFormed(Cayley(g, perms)) && |Cayley(g, perms).adj| == |perms| && |perms[a]| == |g.adj|
    ensures forall seen :: Tried(g, perms, seen, a, 0, 0)
  {
    assert PermutationOf(perms[a], |g.adj|);
  }

  ghost predicate AllStored(g: Net, perms: seq<seq<nat>>, swaps: seq<seq<Swap>>) {
    |swaps| == |perms| && forall c: nat :: c < |perms| ==> StoredAt(g, perms, c, swaps[c])
  }

  /** preprocess(): breadth-first search from the identity; on a coupling graph every permutation gets an entry. */
  method Preprocess(g: Net, perms: seq<seq<nat>>) returns (ids: map<seq<nat>, nat>, swaps: seq<seq<Swap>>)
    requires Coupling(g) && Enumeration(perms, |g.adj|) && |perms| <= UNDEF
    ensures Ids(perms, ids) && AllStored(g, perms, swaps)
  {
    hide Coupling, Enumeration, Ids, Cayley, Resting, Expanding, Stored, StoredAt, Dist, Reach, Tried, Marked;
    assert WellFormed(g) by { CouplingShape(g); }
    assert |perms| > 0 && forall a: nat, b: nat :: a < b < |perms| ==> perms[a] != perms[b] by { EnumerationDistinct(perms, |g.adj|); }
    ids := NumberAssigns(perms);
    ghost var cay := Cayley(g, perms);
    CayleyFacts(g, perms, 0);
    var inserted: seq<bool> := seq(|perms|, _ => false);
    swaps := seq(|perms|, _ => []);
    var q: seq<nat> := [0];
    inserted := inserted[0 := true];
    assert Marked(inserted) == {0};
    Start(cay, 0);
    StoredStart(g, perms, swaps);
    while q != []
      invariant |inserted| == |perms| == |swaps| && Resting(cay, 0, Marked(inserted), q) && Stored(g, perms, Marked(inserted), swaps)
      decreases |perms| - |Marked(inserted)|, |q|
    {
      Pop(cay, 0, Marked(inserted), q);
      var a := q[0];
      q := q[1..];
      ghost var before := Marked(inserted);
      CayleyFacts(g, perms, a);
      q, inserted, swaps := Expand(g, perms, ids, a, q, inserted, swaps);
      SkipAll(cay, 0, Marked(inserted), q, a, 0);
      Finish(cay, 0, Marked(inserted), q, a, |perms|);
      MoreMarked(cay, before, Marked(inserted));
    }
    Exhausted(cay, 0, Marked(inserted));
    AllReached(g, perms, Marked(inserted), swaps);
  }

  lemma EnumerationDistinct(perms: seq<seq<nat>>, n: nat)
    requires Enumeration(perms, n)
    ensures |perms| > 0 && perms[0] == Identity(n) && forall a: nat, b: nat :: a < b < |perms| ==> perms[a] != perms[b]
  {
  }

  lemma StoredStart(g: Net, perms: seq<seq<nat>>, swaps: seq<seq<Swap>>)
    requires WellFormed(g) && Enumeration(perms, |g.adj|) && |swaps| == |perms| <= UNDEF && swaps[0] == []
    ensures Stored(g, perms, {0}, swaps)
  {
    hide Cayley;
    CayleyFacts(g, perms, 0);
    Start(Cayley(g, perms), 0);
    NoSwaps(g, Identity(|g.adj|));
    assert StoredAt(g, perms, 0, []);
  }

  lemma AllReached(g: Net, perms: seq<seq<nat>>, seen: set<nat>, swaps: seq<seq<Swap>>)
    requires Coupling(g) && Enumeration(perms, |g.adj|) && Stored(g, perms, seen, swaps)
    requires forall c: nat :: Reach(Cayley(g, perms), 0, c) <==> c in seen
    ensures AllStored(g, perms, swaps)
  {
    hide Coupling, Enumeration, Cayley, StoredAt, Reach;
    forall c: nat | c < |perms|
      ensures StoredAt(g, perms, c, swaps[c])
    {
      EveryPermutationReached(g, perms, c);
    }
  }

  // Queries.

  /** getTargetId: the target as seen by someone who calls the token on vertex i "i". */
  method RealTarget(source: seq<nat>, target: seq<nat>) returns (realtgt: seq<nat>)
    requires |source| == |target| && Permutation(source) && Permutation(target)
    ensures |realtgt| == |source| && Permutation(realtgt)
    ensures Pick(source, realtgt) == target
  {
    var n := |source|;
    var translator: seq<nat> := seq(n, _ => 0);
    for i := 0 to n
      invariant |translator| == n && forall k :: 0 <= k < i ==> translator[source[k]] == k
    {
      translator := translator[source[i] := i];
    }
    realtgt := seq(n, _ => 0);
    for i := 0 to n
      invariant |realtgt| == n && forall k :: 0 <= k < i ==> realtgt[k] < n && source[realtgt[k]] == target[k]
    {
      PermutationHits(source, target[i]);
      realtgt := realtgt[i := translator[target[i]]];
    }
  }

  /** What the stored sequence does to the identity it does, renamed, to any starting placement. */
  lemma QueryReaches(source: seq<nat>, target: seq<nat>, realtgt: seq<nat>, s: seq<Swap>)
    requires |source| == |realtgt| && Permutation(source) && Permutation(realtgt) && Pick(source, realtgt) == target
    requires OnBoard(s, |source|)
    ensures Apply(Identity(|source|), s) == realtgt <==> Apply(source, s) == target
  {
    hide Apply;
    var id := Identity(|source|);
    ApplyRenamed(source, id, s);
    assert Pick(source, id) == source;
    ApplyPermutation(id, s);
    PickInjective(source, Apply(id, s), realtgt);
  }

  lemma PickInjective(f: seq<nat>, a: seq<nat>, b: seq<nat>)
    requires Permutation(f) && |a| == |b| == |f| && Permutation(a) && Permutation(b)
    ensures Pick(f, a) == Pick(f, b) <==> a == b
  {
    if Pick(f, a) == Pick(f, b) {
      forall i | 0 <= i < |a|
        ensures a[i] == b[i]
      {
        assert Pick(f, a)[i] == Pick(f, b)[i];
      }
    }
  }

  /** Brings `from` to `to`, and nothing that does so is shorter. */
  ghost predicate Optimal(g: Net, from: seq<nat>, to: seq<nat>, s: seq<Swap>)
    requires |from| == |g.adj|
  {
    && OnEdges(g, s) && OnBoard(s, |from|) && Apply(from, s) == to
    && forall r :: OnEdges(g, r) && OnBoard(r, |from|) && Apply(from, r) == to ==> |s| <= |r|
  }

  lemma StoredIsOptimal(g: Net, perms: seq<seq<nat>>, from: seq<nat>, to: seq<nat>, realtgt: seq<nat>, c: nat, s: seq<Swap>)
    requires Enumeration(perms, |g.adj|) && StoredAt(g, perms, c, s) && perms[c] == realtgt
    requires |from| == |g.adj| == |realtgt| && Permutation(from) && Permutation(realtgt) && Pick(from, realtgt) == to
    ensures Optimal(g, from, to, s)
  {
    hide Cayley, Enumeration, Apply, OnEdges, OnBoard, Permutation;
    QueryReaches(from, to, realtgt, s);
    forall r | OnEdges(g, r) && OnBoard(r, |from|) && Apply(from, r) == to
      ensures |s| <= |r|
    {
      QueryReaches(from, to, realtgt, r);
      var b := SwapsAreSteps(g, perms, r);
      assert b == c by { SameIndex(perms, |g.adj|, b, c); }
      StepsBoundDist(Cayley(g, perms), 0, c, |r|);
    }
  }

  lemma SameIndex(perms: seq<seq<nat>>, n: nat, b: nat, c: nat)
    requires Enumeration(perms, n) && b < |perms| && c < |perms| && perms[b] == perms[c]
    ensures b == c
  {
  }

  lemma StepsBoundDist(g: Net, u: nat, v: nat, k: nat)
    requires Steps(g, u, v, k)
    ensures Dist(g, u, v) <= k
  {
    assert Reach(g, u, v);
  }

  class ExpFinder {
    var graph: Option<Net>
    var inverseMaps: seq<seq<nat>>
    var mapId: map<seq<nat>, nat>
    var swaps: seq<seq<Swap>>

    ghost predicate Ready()
      reads this
    {
      graph.Some? ==>
        && Coupling(graph.value) && Enumeration(inverseMaps, |graph.value.adj|)
        && Ids(inverseMaps, mapId) && AllStored(graph.value, inverseMaps, swaps)
    }

    constructor ()
      ensures graph == None && Ready()
    {
      graph, inverseMaps, mapId, swaps := None, [], map[], [];
    }

    /** Permutations are numbered by machine words, so there may not be too many of them. */
    method SetGraph(g: Net)
      requires Coupling(g) && Factorial(|g.adj|) <= UNDEF
      modifies this
      ensures Ready() && graph == Some(g)
    {
      hide Coupling, Enumeration, Factorial, AllStored, Ids;
      graph := Some(g);
      inverseMaps := GenAllAssigns(|g.adj|);
      mapId, swaps := Preprocess(g, inverseMaps);
    }

    method Find(from: seq<nat>, to: seq<nat>) returns (r: Outcome<seq<Swap>>)
      requires Ready()
      requires graph.Some? && |from| == |to| ==> PermutationOf(from, |graph.value.adj|) && PermutationOf(to, |from|)
      ensures r.Abort? <==> graph.None? || |from| != |to|
      ensures r.Done? ==> Optimal(graph.value, from, to, r.value)
    {
      hide Optimal, Enumeration, StoredAt, Coupling;
      if graph.None? || |from| != |to| {
        return Abort;
      }
      var realtgt := RealTarget(from, to);
      assert PermutationOf(realtgt, |graph.value.adj|);
      assert realtgt in mapId by { EnumerationLists(inverseMaps, |graph.value.adj|, realtgt); }
      var c := mapId[realtgt];
      StoredIsOptimal(graph.value, inverseMaps, from, to, realtgt, c, swaps[c]);
      r := Done(swaps[c]);
    }
  }

  lemma EnumerationLists(perms: seq<seq<nat>>, n: nat, p: seq<nat>)
    requires Enumeration(perms, n) && PermutationOf(p, n)
    ensures p in perms
  {
  }

  /** An approximate answer that reaches the target lies between the exact one and four times that. */
  lemma OptimalSolves(g: Net, from: seq<nat>, to: seq<nat>, s: seq<Swap>, ours: seq<Swap>)
    requires |from| == |g.adj| && Optimal(g, from, to, s) && FourApproximate(g, from, to, ours) && Permutation(to)
    requires OnEdges(g, ours) && OnBoard(ours, |from|) && Apply(from, ours) == to
    ensures OnBoard(s, |from|) && Apply(from, s) == to && |s| <= |ours| <= 4 * |s|
  {
    assert Solved(to, to);
  }
}
