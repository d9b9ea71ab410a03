/** The graph object: successor and predecessor sets that `PutEdge` keeps mutually inverse. */
module Graphs {
  import opened Networks

  /** `j` is a successor of `i` exactly when `i` is a predecessor of `j`. */
  ghost predicate Mutual(succ: seq<set<nat>>, pred: seq<set<nat>>) {
    && |succ| == |pred|
    && (forall i: nat, j: nat :: i < |succ| && j in succ[i] ==> j < |succ|)
    && (forall i: nat, j: nat :: i < |succ| && j in pred[i] ==> j < |succ|)
    && forall i: nat, j: nat :: i < |succ| && j < |succ| ==> (j in succ[i] <==> i in pred[j])
  }

  ghost predicate TwoWay(succ: seq<set<nat>>) {
    forall i: nat, j: nat :: i < |succ| && j < |succ| && j in succ[i] ==> i in succ[j]
  }

  ghost function Joined(succ: seq<set<nat>>, pred: seq<set<nat>>): (g: Net)
    requires Mutual(succ, pred) && |succ| <= UNDEF
    ensures |g.adj| == |succ|
    ensures forall i: nat :: i < |succ| ==> g.adj[i] == succ[i] + pred[i]
    ensures WellFormed(g) && Symmetric(g)
  {
    Net(seq(|succ|, i requires 0 <= i < |succ| && |succ| == |pred| => succ[i] + pred[i]))
  }

  class Graph {
    const n: nat
    const directed: bool
    var succ: seq<set<nat>>
    var pred: seq<set<nat>>

    ghost predicate Valid()
      reads this
    {
      && |succ| == n <= UNDEF
      && Mutual(succ, pred)
      && (!directed ==> TwoWay(succ))
    }

    ghost predicate Edge(i: nat, j: nat)
      reads this
    {
      i < |succ| && j in succ[i]
    }

    /** The two-way adjacency the searches walk on. */
    ghost function Ways(): (g: Net)
      requires Valid()
      reads this
      ensures |g.adj| == n && WellFormed(g) && Symmetric(g)
      ensures forall i: nat :: i < n ==> g.adj[i] == succ[i] + pred[i]
    {
      Joined(succ, pred)
    }

    lemma WaysAreEdges(i: nat, j: nat)
      requires Valid() && i < n && j < n
      ensures j in Ways().adj[i] <==> Edge(i, j) || Edge(j, i)
    {
    }

    constructor (n: nat, directed: bool)
      requires n <= UNDEF
      ensures Valid() && this.n == n && this.directed == directed
      ensures forall i: nat, j: nat :: !Edge(i, j)
    {
      this.n, this.directed := n, directed;
      succ, pred := seq(n, _ => {}), seq(n, _ => {});
    }

    method PutEdge(i: nat, j: nat)
      requires Valid() && i < n && j < n
      modifies this
      ensures Valid()
      ensures forall a: nat, b: nat ::
        Edge(a, b) <==> old(Edge(a, b)) || (a == i && b == j) || (!directed && a == j && b == i)
    {
      succ := succ[i := succ[i] + {j}];
      pred := pred[j := pred[j] + {i}];
      if !directed {
        succ := succ[j := succ[j] + {i}];
        pred := pred[i := pred[i] + {j}];
      }
    }

    method Adj(i: nat) returns (a: set<nat>)
      requires Valid() && i < n
      ensures a == Ways().adj[i]
    {
      a := pred[i] + succ[i];
    }

    method HasEdge(i: nat, j: nat) returns (b: bool)
      requires Valid() && i < n
      ensures b <==> Edge(i, j)
    {
      b := j in succ[i];
    }
  }
}
