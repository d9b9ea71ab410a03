/**
  When an order that respects one set of footprints keeps the meaning of gates that act on more.
  `prints` are the wires the gates are scheduled by, `named` the wires they act on.
 */
module Conflicts {
  import opened Sums
  import opened Schedules
  import opened Layers
  import opened Stages
  import opened Meaning

  type Logs = seq<seq<nat>>

  /** Whatever the gates do on their wires, this order does what the original one does. */
  ghost predicate KeepsMeaning(named: Circuit, order: seq<nat>) {
    forall act: (nat, Logs) -> Logs :: WireLocal(named, act) ==> SameRun(act, order, |named|)
  }

  ghost predicate SameRun(act: (nat, Logs) -> Logs, order: seq<nat>, n: nat) {
    forall s :: Run(act, order, s) == Run(act, Identity(n), s)
  }

  // An effect that tells orders apart: every gate leaves its number on each of its wires.

  ghost function Logging(named: Circuit): (nat, Logs) -> Logs {
    (g: nat, s: Logs) => if g < |named| then Logged(named[g], g, s) else s
  }

  ghost function Logged(wires: set<nat>, g: nat, s: Logs): (r: Logs)
    ensures |r| == |s| && forall w: nat :: w < |s| ==> r[w] == if w in wires then s[w] + [g] else s[w]
  {
    seq(|s|, w requires 0 <= w < |s| => if w in wires then s[w] + [g] else s[w])
  }

  lemma LoggingIsLocal(named: Circuit)
    ensures WireLocal(named, Logging(named))
  {
  }

  /** The gates of an order that lie on wire `w`. */
  ghost function Along(named: Circuit, order: seq<nat>, w: nat): seq<nat> {
    if order == [] then []
    else
      var k := |order| - 1;
      Along(named, order[..k], w) + if order[k] < |named| && w in named[order[k]] then [order[k]] else []
  }

  lemma {:induction false} LogIsAlong(named: Circuit, order: seq<nat>, s: Logs, w: nat)
    requires w < |s|
    ensures |Run(Logging(named), order, s)| == |s| && Run(Logging(named), order, s)[w] == s[w] + Along(named, order, w)
  {
    if order != [] {
      LogIsAlong(named, order[..|order| - 1], s, w);
    }
  }

  /** Two gates on a wire stand there as they stand in the order. */
  lemma {:induction false} AlongKeepsOrder(named: Circuit, order: seq<nat>, w: nat, a: nat, b: nat) returns (x: nat, y: nat)
    requires a < b < |order| && order[a] < |named| && order[b] < |named| && w in named[order[a]] && w in named[order[b]]
    ensures x < y < |Along(named, order, w)| && Along(named, order, w)[x] == order[a] && Along(named, order, w)[y] == order[b]
    decreases |order|
  {
    var k := |order| - 1;
    if b < k {
      x, y := AlongKeepsOrder(named, order[..k], w, a, b);
    } else {
      x := AlongPlace(named, order[..k], w, a);
      y := |Along(named, order[..k], w)|;
    }
  }

  lemma {:induction false} AlongPlace(named: Circuit, order: seq<nat>, w: nat, a: nat) returns (x: nat)
    requires a < |order| && order[a] < |named| && w in named[order[a]]
    ensures x < |Along(named, order, w)| && Along(named, order, w)[x] == order[a]
    decreases |order|
  {
    var k := |order| - 1;
    if a < k {
      x := AlongPlace(named, order[..k], w, a);
    } else {
      x := |Along(named, order[..k], w)|;
    }
  }

  lemma {:induction false} AlongAscends(named: Circuit, n: nat, w: nat)
    ensures forall x: nat, y: nat :: x < y < |Along(named, Identity(n), w)| ==> Along(named, Identity(n), w)[x] < Along(named, Identity(n), w)[y]
    ensures forall x: nat :: x < |Along(named, Identity(n), w)| ==> Along(named, Identity(n), w)[x] < n
  {
    if n > 0 {
      AlongAscends(named, n - 1, w);
      assert Identity(n)[..n - 1] == Identity(n - 1);
    }
  }

  /** An order keeps the meaning of all effects on the named wires exactly if it keeps the order on every such wire. */
  lemma KeepsIffRespects(named: Circuit, order: seq<nat>)
    requires Permutation(order) && |order| == |named|
    ensures KeepsMeaning(named, order) <==> Respects(named, order)
  {
    hide WireLocal, Respects, Permutation, Run;
    if Respects(named, order) {
      forall act: (nat, Logs) -> Logs | WireLocal(named, act)
        ensures SameRun(act, order, |named|)
      {
        RespectsKeeps(named, act, order);
      }
    }
    if KeepsMeaning(named, order) {
      LoggingIsLocal(named);
      assert SameRun(Logging(named), order, |named|);
      LogsTell(named, order);
    }
  }

  lemma RespectsKeeps<V(!new)>(named: Circuit, act: (nat, seq<V>) -> seq<V>, order: seq<nat>)
    requires Permutation(order) && |order| == |named| && Respects(named, order) && WireLocal(named, act)
    ensures forall s :: Run(act, order, s) == Run(act, Identity(|named|), s)
  {
    hide WireLocal, Respects, Permutation, Run, CommutesApart;
    WireLocalCommutes(named, act);
    forall s
      ensures Run(act, order, s) == Run(act, Identity(|named|), s)
    {
      ReorderKeepsMeaning(named, act, order, s);
    }
  }

  lemma LogsTell(named: Circuit, order: seq<nat>)
    requires |order| == |named| && SameRun(Logging(named), order, |named|)
    ensures Respects(named, order)
  {
    hide Run, Logging, Along;
    forall a: nat, b: nat | a < b < |order| && Share(named, order[a], order[b])
      ensures order[a] <= order[b]
    {
      var w: nat :| w in named[order[a]] && w in named[order[b]];
      var s: Logs := seq(w + 1, _ => []);
      LogIsAlong(named, order, s, w);
      LogIsAlong(named, Identity(|named|), s, w);
      assert Run(Logging(named), order, s) == Run(Logging(named), Identity(|named|), s);
      assert s[w] == [] && s[w] + Along(named, order, w) == Along(named, order, w);
      assert s[w] + Along(named, Identity(|named|), w) == Along(named, Identity(|named|), w);
      var x, y := AlongKeepsOrder(named, order, w, a, b);
      AlongAscends(named, |named|, w);
    }
  }

  // All layerings at once.

  /** A chain of gates from `i` up to `j`, each sharing a wire with the next. */
  ghost predicate Linked(prints: Circuit, i: nat, j: nat)
    decreases j
  {
    i == j || exists k: nat :: i <= k < j && Linked(prints, i, k) && Share(prints, k, j)
  }

  /** Any two gates that share a named wire are linked through scheduled ones. */
  ghost predicate Chained(prints: Circuit, named: Circuit) {
    forall i: nat, j: nat :: i < j && Share(named, i, j) ==> Linked(prints, i, j)
  }

  lemma {:induction false} LinkedPrepend(prints: Circuit, h: nat, g: nat, j: nat)
    requires h < g <= j && Share(prints, h, g) && Linked(prints, g, j)
    ensures Linked(prints, h, j)
    decreases j
  {
    if g == j {
      assert Linked(prints, h, h);
    } else {
      var k: nat :| g <= k < j && Linked(prints, g, k) && Share(prints, k, j);
      LinkedPrepend(prints, h, g, k);
    }
  }

  /** What is linked stays in order. */
  lemma {:induction false} LinkedFollows(prints: Circuit, order: seq<nat>, a: nat, b: nat)
    requires Permutation(order) && Respects(prints, order) && |order| == |prints|
    requires a < |order| && b < |order| && Linked(prints, order[a], order[b])
    ensures a <= b
    decreases order[b]
  {
    hide Share;
    if order[a] != order[b] {
      var k: nat :| order[a] <= k < order[b] && Linked(prints, order[a], k) && Share(prints, k, order[b]);
      PermutationHits(order, k);
      var c: nat :| c < |order| && order[c] == k;
      LinkedFollows(prints, order, a, c);
      if b < c {
        ShareBoth(prints, k, order[b]);
      }
    }
  }

  lemma ShareBoth(prints: Circuit, g: nat, h: nat)
    requires Share(prints, g, h)
    ensures Share(prints, h, g) && g < |prints| && h < |prints|
  {
  }

  lemma ChainedRespects(prints: Circuit, named: Circuit, order: seq<nat>)
    requires Permutation(order) && |order| == |prints| && Respects(prints, order) && Chained(prints, named)
    ensures Respects(named, order)
  {
    hide Share, Linked;
    forall a: nat, b: nat | a < b < |order| && Share(named, order[a], order[b])
      ensures order[a] <= order[b]
    {
      if order[b] < order[a] {
        ShareBoth(named, order[a], order[b]);
        LinkedFollows(prints, order, b, a);
      }
    }
  }

  /** The first `n` gates that are linked to `j`, or the others. */
  ghost function Part(prints: Circuit, j: nat, n: nat, linked: bool): (r: seq<nat>)
    ensures forall x :: 0 <= x < |r| ==> r[x] < n && Linked(prints, r[x], j) == linked
    ensures forall x, y :: 0 <= x < y < |r| ==> r[x] < r[y]
    ensures forall g: nat :: g < n && Linked(prints, g, j) == linked ==> g in r
  {
    if n == 0 then []
    else Part(prints, j, n - 1, linked) + if Linked(prints, n - 1, j) == linked then [n - 1] else []
  }

  lemma {:induction false} PartsAddUp(prints: Circuit, j: nat, n: nat)
    ensures |Part(prints, j, n, true)| + |Part(prints, j, n, false)| == n
  {
    hide Linked;
    if n > 0 {
      PartsAddUp(prints, j, n - 1);
    }
  }

  /** First what is linked to `j`, then the rest: that respects the scheduled wires. */
  lemma PartsRespect(prints: Circuit, j: nat) returns (order: seq<nat>)
    ensures order == Part(prints, j, |prints|, true) + Part(prints, j, |prints|, false)
    ensures Permutation(order) && |order| == |prints| && Respects(prints, order)
  {
    hide Linked, Share;
    var n := |prints|;
    var first, rest := Part(prints, j, n, true), Part(prints, j, n, false);
    PartsAddUp(prints, j, n);
    order := first + rest;
    forall a: nat, b: nat | a < b < |order| && Share(prints, order[a], order[b])
      ensures order[a] <= order[b]
    {
      if a < |first| <= b && order[b] < order[a] {
        ShareBoth(prints, order[a], order[b]);
        LinkedUp(prints, order[a], j);
        LinkedPrepend(prints, order[b], order[a], j);
      }
    }
  }

  lemma LinkedUp(prints: Circuit, i: nat, j: nat)
    ensures Linked(prints, i, j) ==> i <= j
    ensures i == j ==> Linked(prints, i, j)
  {
  }

  /** A pair that is not linked can be turned round by some layering. */
  lemma UnlinkedTurns(prints: Circuit, named: Circuit, i: nat, j: nat) returns (order: seq<nat>)
    requires |named| == |prints| && i < j && Share(named, i, j) && !Linked(prints, i, j)
    ensures Permutation(order) && |order| == |prints| && Respects(prints, order) && !Respects(named, order)
  {
    hide Share;
    ShareBoth(named, i, j);
    order := PartsRespect(prints, j);
    var first, rest := Part(prints, j, |prints|, true), Part(prints, j, |prints|, false);
    LinkedUp(prints, j, j);
    assert j in first && i in rest;
    var a :| 0 <= a < |first| && first[a] == j;
    var b :| 0 <= b < |rest| && rest[b] == i;
    assert order[a] == j && order[|first| + b] == i;
  }

  ghost function Singly(order: seq<nat>): (ls: seq<seq<nat>>)
    ensures |ls| == |order| && forall i :: 0 <= i < |ls| ==> ls[i] == [order[i]]
  {
    seq(|order|, i requires 0 <= i < |order| => [order[i]])
  }

  lemma {:induction false} FlattenSingly(order: seq<nat>)
    ensures Flatten(Singly(order)) == order
  {
    if order != [] {
      var k := |order| - 1;
      assert Singly(order)[..k] == Singly(order[..k]);
      FlattenSingly(order[..k]);
    }
  }

  lemma SinglyIsLayering(prints: Circuit, order: seq<nat>)
    requires Permutation(order) && |order| == |prints| && Respects(prints, order)
    ensures IsLayering(prints, Singly(order)) && Flatten(Singly(order)) == order
  {
    hide Share;
    FlattenSingly(order);
    var ls := Singly(order);
    forall i: nat, j: nat, x: nat, y: nat | i < |ls| && j < |ls| && x < |ls[i]| && y < |ls[j]|
      ensures Apart(prints, ls[i][x], ls[j][y], i, j)
    {
    }
  }

  ghost predicate AllLayeringsKeep(prints: Circuit, named: Circuit) {
    forall ls :: IsLayering(prints, ls) ==> KeepsMeaning(named, Flatten(ls))
  }

  /** Every layering keeps the meaning exactly if gates that share a named wire are linked through scheduled ones. */
  lemma LayeringsKeepIffChained(prints: Circuit, named: Circuit)
    requires |named| == |prints|
    ensures AllLayeringsKeep(prints, named) <==> Chained(prints, named)
  {
    hide KeepsMeaning, Respects, Share, Linked, Permutation;
    if Chained(prints, named) {
      forall ls | IsLayering(prints, ls)
        ensures KeepsMeaning(named, Flatten(ls))
      {
        LayeredRespects(prints, ls);
        ChainedRespects(prints, named, Flatten(ls));
        KeepsIffRespects(named, Flatten(ls));
      }
    } else {
      var i: nat, j: nat :| i < j && Share(named, i, j) && !Linked(prints, i, j);
      var order := UnlinkedTurns(prints, named, i, j);
      SinglyIsLayering(prints, order);
      KeepsIffRespects(named, order);
      assert IsLayering(prints, Singly(order)) && !KeepsMeaning(named, Flatten(Singly(order)));
    }
  }

  // The order the scheduler generates.

  /** Of two gates that share a named wire the earlier one has the earlier stage. */
  ghost predicate InStep(prints: Circuit, named: Circuit, q: nat) {
    forall i: nat, j: nat :: i < j && Share(named, i, j) ==> Before(prints, q, i, j)
  }

  lemma StagedRespects(prints: Circuit, named: Circuit, q: nat, order: seq<nat>)
    requires Permutation(order) && |order| == |prints| == |named| && Staged(prints, q, order)
    ensures Respects(named, order) <==> InStep(prints, named, q)
  {
    hide Share, Before;
    if InStep(prints, named, q) {
      forall a: nat, b: nat | a < b < |order| && Share(named, order[a], order[b])
        ensures order[a] <= order[b]
      {
        ShareBoth(named, order[a], order[b]);
        BeforeOneWay(prints, q, order[a], order[b]);
      }
    }
    if Respects(named, order) {
      forall i: nat, j: nat | i < j && Share(named, i, j)
        ensures Before(prints, q, i, j)
      {
        ShareBoth(named, i, j);
        PermutationHits(order, i);
        PermutationHits(order, j);
        var a: nat :| a < |order| && order[a] == i;
        var b: nat :| b < |order| && order[b] == j;
        assert !(b < a);
      }
    }
  }

  /** The generated order keeps the meaning exactly if stages agree with program order on every named wire. */
  lemma StagedKeepsIffInStep(prints: Circuit, named: Circuit, q: nat, order: seq<nat>)
    requires Permutation(order) && |order| == |prints| == |named| && Staged(prints, q, order)
    ensures KeepsMeaning(named, order) <==> InStep(prints, named, q)
  {
    StagedRespects(prints, named, q, order);
    KeepsIffRespects(named, order);
  }
}
