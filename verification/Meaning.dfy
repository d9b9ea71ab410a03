/**
  What a program does, with the gates left abstract: `act(g, s)` is the effect of gate g on the state s.
  All that is assumed of it is that gates acting on disjoint wires commute.
 */
module Meaning {
  import opened Sums
  import opened Schedules
  import opened Layers

  ghost function Run<S>(act: (nat, S) -> S, order: seq<nat>, s: S): S {
    if order == [] then s else act(order[|order| - 1], Run(act, order[..|order| - 1], s))
  }

  ghost predicate CommutesApart<S(!new)>(prints: Circuit, act: (nat, S) -> S) {
    forall g: nat, h: nat, s: S :: g < |prints| && h < |prints| && !Share(prints, g, h) ==>
      act(g, act(h, s)) == act(h, act(g, s))
  }

  lemma RunSnoc<S>(act: (nat, S) -> S, order: seq<nat>, g: nat, s: S)
    ensures Run(act, order + [g], s) == act(g, Run(act, order, s))
  {
    assert (order + [g])[..|order|] == order;
  }

  /** A gate may be postponed past gates on other wires. */
  lemma {:induction false} Postpone<S(!new)>(prints: Circuit, act: (nat, S) -> S, front: seq<nat>, g: nat, rest: seq<nat>, s: S)
    requires CommutesApart(prints, act) && g < |prints|
    requires forall i :: 0 <= i < |rest| ==> rest[i] < |prints| && !Share(prints, g, rest[i])
    ensures Run(act, front + [g] + rest, s) == Run(act, front + rest + [g], s)
    decreases |rest|
  {
    if rest == [] {
      assert front + [g] + rest == front + rest + [g];
    } else {
      var k := |rest| - 1;
      var h := rest[k];
      assert front + [g] + rest == (front + [g] + rest[..k]) + [h];
      assert front + rest == (front + rest[..k]) + [h];
      RunSnoc(act, front + [g] + rest[..k], h, s);
      Postpone(prints, act, front, g, rest[..k], s);
      RunSnoc(act, front + rest[..k], g, s);
      RunSnoc(act, front + rest[..k], h, s);
      RunSnoc(act, front + rest, g, s);
    }
  }

  /** The last gate of the program can be postponed to the end of such an order. */
  lemma LargestLast<S(!new)>(prints: Circuit, act: (nat, S) -> S, order: seq<nat>, s: S) returns (t: seq<nat>)
    requires CommutesApart(prints, act) && order != []
    requires Permutation(order) && |order| <= |prints| && Respects(prints, order)
    ensures |t| == |order| - 1 && Permutation(t) && Respects(prints, t)
    ensures Run(act, order, s) == Run(act, t + [|order| - 1], s)
  {
    hide Share, Run, CommutesApart;
    var n := |order| - 1;
    PermutationHits(order, n);
    var k :| 0 <= k < |order| && order[k] == n;
    var front, rest := order[..k], order[k + 1..];
    assert order == front + [n] + rest;
    forall i | 0 <= i < |rest|
      ensures rest[i] < |prints| && !Share(prints, n, rest[i])
    {
      assert rest[i] == order[k + 1 + i];
    }
    Postpone(prints, act, front, n, rest, s);
    WithoutLargest(prints, order, k);
    t := front + rest;
  }

  /** Any order that lists the first n gates once and keeps the order on every wire does what the original order does. */
  lemma {:induction false} ReorderKeepsMeaning<S(!new)>(prints: Circuit, act: (nat, S) -> S, order: seq<nat>, s: S)
    requires CommutesApart(prints, act)
    requires Permutation(order) && |order| <= |prints| && Respects(prints, order)
    ensures Run(act, order, s) == Run(act, Identity(|order|), s)
    decreases |order|
  {
    hide Share, Run, Respects, Permutation, CommutesApart;
    if order == [] {
      assert Identity(0) == order;
    } else {
      var n := |order| - 1;
      var t := LargestLast(prints, act, order, s);
      ReorderKeepsMeaning(prints, act, t, s);
      RunSnoc(act, t, n, s);
      RunSnoc(act, Identity(n), n, s);
      assert Identity(n) + [n] == Identity(n + 1);
    }
  }

  lemma WithoutLargest(prints: Circuit, order: seq<nat>, k: nat)
    requires Permutation(order) && Respects(prints, order) && k < |order| && order[k] == |order| - 1
    ensures Permutation(order[..k] + order[k + 1..]) && Respects(prints, order[..k] + order[k + 1..])
  {
  }

  /** A layering, emitted layer by layer, means what the circuit means. */
  lemma LayeringKeepsMeaning<S(!new)>(prints: Circuit, act: (nat, S) -> S, ls: seq<seq<nat>>, s: S)
    requires CommutesApart(prints, act) && IsLayering(prints, ls)
    ensures Run(act, Flatten(ls), s) == Run(act, Identity(|prints|), s)
  {
    LayeredRespects(prints, ls);
    ReorderKeepsMeaning(prints, act, Flatten(ls), s);
  }

  // One way to meet the assumption: the state gives every wire a value, and a gate reads and writes its own wires only.

  ghost predicate WireLocal<V(!new)>(prints: Circuit, act: (nat, seq<V>) -> seq<V>) {
    && (forall g: nat, s: seq<V> :: g < |prints| ==> |act(g, s)| == |s|)
    && (forall g: nat, s: seq<V>, w: nat :: g < |prints| && w < |s| && w !in prints[g] ==> act(g, s)[w] == s[w])
    && forall g: nat, s: seq<V>, t: seq<V>, w: nat ::
         g < |prints| && |s| == |t| && w < |s| && w in prints[g] && SameOn(prints[g], s, t) ==> act(g, s)[w] == act(g, t)[w]
  }

  ghost predicate SameOn<V>(wires: set<nat>, s: seq<V>, t: seq<V>)
    requires |s| == |t|
  {
    forall w: nat :: w in wires && w < |s| ==> s[w] == t[w]
  }

  lemma WireLocalCommutes<V(!new)>(prints: Circuit, act: (nat, seq<V>) -> seq<V>)
    requires WireLocal(prints, act)
    ensures CommutesApart(prints, act)
  {
    forall g: nat, h: nat, s: seq<V> | g < |prints| && h < |prints| && !Share(prints, g, h)
      ensures act(g, act(h, s)) == act(h, act(g, s))
    {
      var a, b := act(g, act(h, s)), act(h, act(g, s));
      assert SameOn(prints[g], s, act(h, s)) && SameOn(prints[h], s, act(g, s));
      forall w: nat | w < |s|
        ensures a[w] == b[w]
      {
        if w in prints[g] {
          assert w !in prints[h];
        }
      }
      assert a == b;
    }
  }
}
