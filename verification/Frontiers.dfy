/**
  What every breadth-first search in the program keeps true, whatever it records on the way.
  `seen` is the set of vertices that have been pushed, `q` the queue, front first.
 */
module Frontiers {
  import opened Networks
  import opened Sums

  ghost predicate Queued(g: Net, s: nat, seen: set<nat>, q: seq<nat>) {
    && s in seen
    && (forall v :: v in seen ==> v < |g.adj| && Reach(g, s, v))
    && (forall k :: 0 <= k < |q| ==> q[k] in seen)
    && Distinct(q)
    && forall j, k :: 0 <= j <= k < |q| ==> Dist(g, s, q[j]) <= Dist(g, s, q[k])
  }

  /** Every vertex at most `d` steps away from `s` has been seen. */
  ghost predicate SeenUpTo(g: Net, s: nat, seen: set<nat>, d: nat) {
    forall v: nat :: Reach(g, s, v) && Dist(g, s, v) <= d ==> v in seen
  }

  /** Between two pops: the queue spans at most two levels, and what left it is fully expanded. */
  ghost predicate Resting(g: Net, s: nat, seen: set<nat>, q: seq<nat>) {
    && Queued(g, s, seen, q)
    && (forall w, v :: w in seen && w !in q && v in g.adj[w] ==> v in seen)
    && (|q| > 0 ==> SeenUpTo(g, s, seen, Dist(g, s, q[0])))
    && forall k :: 0 <= k < |q| ==> Dist(g, s, q[k]) <= Dist(g, s, q[0]) + 1
  }

  /** `u` has been popped and its neighbours numbered below `i` have been looked at. */
  ghost predicate Expanding(g: Net, s: nat, seen: set<nat>, q: seq<nat>, u: nat, i: nat) {
    && Queued(g, s, seen, q)
    && u in seen && u !in q
    && (forall w, v :: w in seen && w !in q && v in g.adj[w] ==> v in seen || (w == u && v >= i))
    && SeenUpTo(g, s, seen, Dist(g, s, u))
    && forall k :: 0 <= k < |q| ==> Dist(g, s, u) <= Dist(g, s, q[k]) <= Dist(g, s, u) + 1
  }

  lemma Start(g: Net, s: nat)
    requires WellFormed(g) && s < |g.adj|
    ensures Resting(g, s, {s}, [s])
    ensures Dist(g, s, s) == 0
  {
    assert Steps(g, s, s, 0);
    forall v: nat | Reach(g, s, v) && Dist(g, s, v) <= 0
      ensures v == s
    {
      DistZero(g, s, v);
    }
  }

  lemma Pop(g: Net, s: nat, seen: set<nat>, q: seq<nat>)
    requires WellFormed(g) && Resting(g, s, seen, q) && |q| > 0
    ensures q[0] < |g.adj| && q[0] in seen && Reach(g, s, q[0])
    ensures Expanding(g, s, seen, q[1..], q[0], 0)
  {
  }

  /** A neighbour met for the first time is exactly one step further out than `u`. */
  lemma OneFurther(g: Net, s: nat, seen: set<nat>, q: seq<nat>, u: nat, i: nat, x: nat)
    requires WellFormed(g) && Expanding(g, s, seen, q, u, i)
    requires u < |g.adj| && x in g.adj[u] && x !in seen
    ensures x < |g.adj| && Reach(g, s, x) && Dist(g, s, x) == Dist(g, s, u) + 1
  {
    hide Steps, Shortest, Reach;
    DistExtend(g, s, u, x);
  }

  /** Pushing such a neighbour, in whatever order the neighbours are visited. */
  lemma Discover(g: Net, s: nat, seen: set<nat>, q: seq<nat>, u: nat, i: nat, x: nat)
    requires WellFormed(g) && Expanding(g, s, seen, q, u, i)
    requires u < |g.adj| && x in g.adj[u] && x !in seen
    ensures x < |g.adj| && Reach(g, s, x) && Dist(g, s, x) == Dist(g, s, u) + 1
    ensures Expanding(g, s, seen + {x}, q + [x], u, i)
  {
    hide Steps, Shortest, Reach;
    OneFurther(g, s, seen, q, u, i, x);
    var q' := q + [x];
    assert Queued(g, s, seen + {x}, q') by {
      assert forall k :: 0 <= k < |q'| ==> q'[k] == if k < |q| then q[k] else x;
    }
    forall w, v | w in seen + {x} && w !in q' && v in g.adj[w]
      ensures v in seen + {x} || (w == u && v >= i)
    {
      assert q'[|q|] == x;
      assert w !in q by {
        assert forall k :: 0 <= k < |q| ==> q[k] == q'[k];
      }
    }
  }

  lemma Skip(g: Net, s: nat, seen: set<nat>, q: seq<nat>, u: nat, i: nat)
    requires Expanding(g, s, seen, q, u, i)
    requires i !in g.adj[u] || i in seen
    ensures Expanding(g, s, seen, q, u, i + 1)
  {
    hide Steps, Shortest, Reach;
  }

  lemma SkipAll(g: Net, s: nat, seen: set<nat>, q: seq<nat>, u: nat, i: nat)
    requires WellFormed(g) && u < |g.adj| && Expanding(g, s, seen, q, u, i) && g.adj[u] <= seen
    ensures Expanding(g, s, seen, q, u, |g.adj|)
  {
    hide Steps, Shortest, Reach;
  }

  lemma Finish(g: Net, s: nat, seen: set<nat>, q: seq<nat>, u: nat, i: nat)
    requires WellFormed(g) && Expanding(g, s, seen, q, u, i) && i >= |g.adj|
    ensures Resting(g, s, seen, q)
  {
    hide Steps, Shortest, Reach;
    forall w, v | w in seen && w !in q && v in g.adj[w]
      ensures v in seen
    {
      assert v < |g.adj|;
    }
    if |q| > 0 && Dist(g, s, q[0]) != Dist(g, s, u) {
      forall v: nat | Reach(g, s, v) && Dist(g, s, v) <= Dist(g, s, q[0])
        ensures v in seen
      {
        if Dist(g, s, v) > Dist(g, s, u) {
          DistZero(g, s, s);
          var w := DistLastEdge(g, s, v);
          assert w in seen;
          assert w !in q;
        }
      }
    }
  }

  /** When the queue runs dry, exactly the reachable vertices have been seen. */
  lemma Exhausted(g: Net, s: nat, seen: set<nat>)
    requires WellFormed(g) && Resting(g, s, seen, [])
    ensures forall v: nat :: Reach(g, s, v) <==> v in seen
  {
    forall v: nat | Reach(g, s, v)
      ensures v in seen
    {
      AllSeen(g, s, seen, v, Dist(g, s, v));
    }
  }

  lemma {:induction false} AllSeen(g: Net, s: nat, seen: set<nat>, v: nat, k: nat)
    requires WellFormed(g) && Resting(g, s, seen, []) && Steps(g, s, v, k)
    ensures v in seen
    decreases k
  {
    if k > 0 {
      var w: nat :| w < |g.adj| && Steps(g, s, w, k - 1) && v in g.adj[w];
      AllSeen(g, s, seen, w, k - 1);
    }
  }

  // The program keeps `seen` as a vector of flags.

  /** The recorded distances are right on the seen vertices and undefined on the others. */
  ghost predicate Recorded(g: Net, s: nat, seen: set<nat>, d: seq<Word>) {
    && |d| == |g.adj|
    && forall v: nat :: v < |d| ==> if v in seen then d[v] == Dist(g, s, v) < UNDEF else d[v] == UNDEF
  }

  /** Each seen vertex remembers the vertex it was first reached from, one step closer to `s`. */
  ghost predicate Parents(g: Net, s: nat, seen: set<nat>, parent: seq<nat>) {
    && |parent| == |g.adj| && s < |parent| && parent[s] == UNDEF
    && forall v: nat :: v < |parent| && v != s ==>
         if v in seen then
           parent[v] < |parent| && parent[v] in seen && v in g.adj[parent[v]] && Dist(g, s, v) == Dist(g, s, parent[v]) + 1
         else
           parent[v] == UNDEF
  }

  /** The vertices a search from `s` has reached, read off the parents it leaves. */
  ghost function Found(s: nat, parent: seq<nat>): (r: set<nat>)
    ensures forall v: nat :: v in r <==> v < |parent| && (v == s || parent[v] != UNDEF)
  {
    set v: nat | v < |parent| && (v == s || parent[v] != UNDEF)
  }

  lemma ParentsFound(g: Net, s: nat, seen: set<nat>, parent: seq<nat>)
    requires WellFormed(g) && Parents(g, s, seen, parent) && s in seen && forall v :: v in seen ==> v < |g.adj|
    ensures Found(s, parent) == seen
  {
    hide Dist;
    forall v: nat
      ensures v in Found(s, parent) <==> v in seen
    {
    }
  }

  ghost function Marked(flags: seq<bool>): (s: set<nat>)
    ensures forall v: nat :: v in s <==> v < |flags| && flags[v]
  {
    set v: nat | v < |flags| && flags[v]
  }

  lemma MarkedUpdate(flags: seq<bool>, v: nat)
    requires v < |flags|
    ensures Marked(flags[v := true]) == Marked(flags) + {v}
  {
  }

  lemma MoreMarked(g: Net, a: set<nat>, b: set<nat>)
    requires a <= b && forall v :: v in b ==> v < |g.adj|
    ensures |b| <= |g.adj| && (a != b ==> |a| < |b|)
  {
    SubsetSize(a, b);
    BelowSize(b, |g.adj|);
  }

}
