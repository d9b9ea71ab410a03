/**
  The exact place of every gate in the generated order. A gate's stage is its depth, whether it waits for
  the drain, the sweep of the drain that picks it up, and the least wire it lies on.
 */
module Stages {
  import opened Schedules
  import opened Layers

  ghost function Lowest(s: set<nat>): (w: nat)
    ensures s != {} ==> w in s && forall v :: v in s ==> w <= v
  {
    if s == {} then 0
    else
      var v :| v in s;
      LeastMember(s, v);
      var w :| w in s && forall v :: v in s ==> w <= v;
      w
  }

  lemma {:induction false} LeastMember(s: set<nat>, v: nat)
    requires v in s
    ensures exists w :: w in s && forall v :: v in s ==> w <= v
    decreases v
  {
    if u :| u in s && u < v {
      LeastMember(s, u);
    }
  }

  /** Gates on the same wires at the same depth. */
  ghost predicate Alike(prints: Circuit, q: nat, g: nat, h: nat) {
    g < |prints| && h < |prints| && prints[h] == prints[g] && Depth(prints, q, h) == Depth(prints, q, g)
  }

  /** How many of the first `k` gates are like `g`. */
  ghost function AlikeBelow(prints: Circuit, q: nat, g: nat, k: nat): nat {
    if k == 0 then 0 else AlikeBelow(prints, q, g, k - 1) + if Alike(prints, q, g, k - 1) then 1 else 0
  }

  /** The sweep of the drain that picks up a single-qubit gate. */
  ghost function Sweep(prints: Circuit, q: nat, g: nat): nat
    requires g < |prints|
  {
    if Drained(prints, q, g) then AlikeBelow(prints, q, g, g) else 0
  }

  lemma {:induction false} AlikeSame(prints: Circuit, q: nat, g: nat, h: nat, k: nat)
    requires Alike(prints, q, g, h)
    ensures AlikeBelow(prints, q, g, k) == AlikeBelow(prints, q, h, k)
  {
    hide Depth;
    if k > 0 {
      AlikeSame(prints, q, g, h, k - 1);
    }
  }

  lemma {:induction false} AlikeMonotone(prints: Circuit, q: nat, g: nat, j: nat, k: nat)
    requires j <= k
    ensures AlikeBelow(prints, q, g, j) <= AlikeBelow(prints, q, g, k)
  {
    hide Alike;
    if j < k {
      AlikeMonotone(prints, q, g, j, k - 1);
    }
  }

  /** Of two gates that are alike the earlier one has the smaller number. */
  lemma AlikeGrows(prints: Circuit, q: nat, g: nat, h: nat)
    requires Alike(prints, q, g, h) && h < g
    ensures AlikeBelow(prints, q, h, h) < AlikeBelow(prints, q, g, g)
  {
    hide Alike;
    AlikeSame(prints, q, g, h, h);
    AlikeMonotone(prints, q, g, h + 1, g);
  }

  /** Every smaller number is taken. */
  lemma {:induction false} AlikeHit(prints: Circuit, q: nat, g: nat, k: nat, m: nat) returns (h: nat)
    requires m < AlikeBelow(prints, q, g, k)
    ensures h < k && Alike(prints, q, g, h) && AlikeBelow(prints, q, h, h) == m
  {
    hide Alike;
    if m < AlikeBelow(prints, q, g, k - 1) {
      h := AlikeHit(prints, q, g, k - 1, m);
    } else {
      h := k - 1;
      AlikeSame(prints, q, g, h, h);
    }
  }

  // The order of the stages.

  ghost predicate Before(prints: Circuit, q: nat, g: nat, h: nat) {
    && g < |prints| && h < |prints|
    && var d, e, s, t := Depth(prints, q, g), Depth(prints, q, h), Sweep(prints, q, g), Sweep(prints, q, h);
       || d < e
       || (d == e && !Drained(prints, q, g) && Drained(prints, q, h))
       || (d == e && Drained(prints, q, g) == Drained(prints, q, h) && s < t)
       || (d == e && Drained(prints, q, g) == Drained(prints, q, h) && s == t && Lowest(prints[g]) < Lowest(prints[h]))
  }

  ghost predicate Staged(prints: Circuit, q: nat, order: seq<nat>) {
    forall a: nat, b: nat :: a < b < |order| ==> Before(prints, q, order[a], order[b])
  }

  lemma BeforeOneWay(prints: Circuit, q: nat, g: nat, h: nat)
    ensures !(Before(prints, q, g, h) && Before(prints, q, h, g))
  {
  }

  /** Only one order of the gates goes by the stages. */
  lemma {:induction false} StagedIsUnique(prints: Circuit, q: nat, a: seq<nat>, b: seq<nat>)
    requires Staged(prints, q, a) && Staged(prints, q, b) && |a| == |b| && forall g: nat :: g in a <==> g in b
    ensures a == b
    decreases |a|
  {
    hide Before;
    if a != [] {
      var n := |a| - 1;
      assert a[n] in b && b[n] in a;
      var i: nat :| i < |b| && b[i] == a[n];
      var j: nat :| j < |a| && a[j] == b[n];
      BeforeOneWay(prints, q, a[n], b[n]);
      assert a[n] == b[n];
      NotBeforeItself(prints, q, a, n);
      NotBeforeItself(prints, q, b, n);
      assert a == a[..n] + [a[n]] && b == b[..n] + [b[n]];
      assert forall g: nat :: g in a <==> g in a[..n] || g == a[n];
      assert forall g: nat :: g in b <==> g in b[..n] || g == b[n];
      StagedIsUnique(prints, q, a[..n], b[..n]);
    }
  }

  lemma NotBeforeItself(prints: Circuit, q: nat, a: seq<nat>, n: nat)
    requires Staged(prints, q, a) && n < |a|
    ensures a[n] !in a[..n]
  {
    hide Before;
    BeforeOneWay(prints, q, a[n], a[n]);
    assert forall i: nat :: i < n ==> Before(prints, q, a[i], a[n]);
  }

  // Layers that go by the stages.

  ghost predicate InWireOrder(prints: Circuit, l: seq<nat>) {
    forall x: nat, y: nat :: x < y < |l| ==> l[x] < |prints| && l[y] < |prints| && Lowest(prints[l[x]]) < Lowest(prints[l[y]])
  }

  /** How many layers of single-qubit gates stand at the end. */
  ghost function Trailing(prints: Circuit, q: nat, ls: seq<seq<nat>>): nat {
    if ls == [] || Controlled(prints, q, ls[|ls| - 1]) then 0 else Trailing(prints, q, ls[..|ls| - 1]) + 1
  }

  /** The single-qubit gates of a layer are all picked up in sweep `k`. */
  ghost predicate SweptIn(prints: Circuit, q: nat, l: seq<nat>, k: nat) {
    forall x: nat :: x < |l| && l[x] < |prints| && Drained(prints, q, l[x]) ==> Sweep(prints, q, l[x]) == k
  }

  ghost predicate Graded(prints: Circuit, q: nat, ls: seq<seq<nat>>) {
    forall i: nat :: i < |ls| ==> InWireOrder(prints, ls[i]) && SweptIn(prints, q, ls[i], Trailing(prints, q, ls[..i]))
  }

  lemma AddedGraded(prints: Circuit, q: nat, ls: seq<seq<nat>>, l: seq<nat>)
    requires Graded(prints, q, ls) && InWireOrder(prints, l) && SweptIn(prints, q, l, Trailing(prints, q, ls))
    ensures Graded(prints, q, ls + [l])
    ensures Trailing(prints, q, ls + [l]) == if Controlled(prints, q, l) then 0 else Trailing(prints, q, ls) + 1
  {
    hide InWireOrder, SweptIn, Controlled;
    var t := ls + [l];
    assert t[..|ls|] == ls;
    forall i: nat | i < |t|
      ensures InWireOrder(prints, t[i]) && SweptIn(prints, q, t[i], Trailing(prints, q, t[..i]))
    {
      if i < |ls| {
        assert t[..i] == ls[..i];
      }
    }
  }

  /** Between two layers with as many controlled layers up to each there are only layers of single-qubit gates. */
  lemma {:induction false} NoneControlled(prints: Circuit, q: nat, ls: seq<seq<nat>>, i: nat, j: nat)
    requires i < j < |ls| && ControlledLayers(prints, q, ls[..i + 1]) == ControlledLayers(prints, q, ls[..j + 1])
    ensures !Controlled(prints, q, ls[j])
    ensures Trailing(prints, q, ls[..j]) >= if Controlled(prints, q, ls[i]) then 0 else Trailing(prints, q, ls[..i]) + 1
    decreases j
  {
    hide Controlled;
    assert ls[..j + 1][..j] == ls[..j] && ls[..j][..j - 1] == ls[..j - 1];
    ControlledMonotone(prints, q, ls, i + 1, j);
    if i + 1 < j {
      NoneControlled(prints, q, ls, i, j - 1);
    }
  }

  /** A position in the concatenation is a place in a layer, and positions follow places. */
  lemma {:induction false} PlacesInOrder(ls: seq<seq<nat>>, a: nat, b: nat) returns (i: nat, x: nat, j: nat, y: nat)
    requires a < b < |Flatten(ls)|
    ensures i < |ls| && x < |ls[i]| && j < |ls| && y < |ls[j]|
    ensures ls[i][x] == Flatten(ls)[a] && ls[j][y] == Flatten(ls)[b] && (i < j || (i == j && x < y))
  {
    var k := |ls| - 1;
    var front := Flatten(ls[..k]);
    if b < |front| {
      i, x, j, y := PlacesInOrder(ls[..k], a, b);
    } else {
      j, y := k, b - |front|;
      if a < |front| {
        assert front[a] in front;
        i, x := FindInFlatten(ls[..k], front[a]);
      } else {
        i, x := k, a - |front|;
      }
    }
  }

  /** What the layers of the scheduler have in common, and all there is to know about their order. */
  ghost predicate ByStage(prints: Circuit, q: nat, ls: seq<seq<nat>>) {
    AtDepth(prints, q, ls) && Unmixed(prints, q, ls) && Graded(prints, q, ls)
  }

  lemma PlaceBefore(prints: Circuit, q: nat, ls: seq<seq<nat>>, i: nat, x: nat, j: nat, y: nat)
    requires ByStage(prints, q, ls) && i < |ls| && x < |ls[i]| && j < |ls| && y < |ls[j]| && (i < j || (i == j && x < y))
    ensures Before(prints, q, ls[i][x], ls[j][y])
  {
    hide Depth, Controlled, Sweep, Drained, ControlledLayers, Trailing;
    var g, h := ls[i][x], ls[j][y];
    assert Depth(prints, q, g) == ControlledLayers(prints, q, ls[..i + 1]);
    assert Depth(prints, q, h) == ControlledLayers(prints, q, ls[..j + 1]);
    assert OneKind(prints, q, ls[i]) && OneKind(prints, q, ls[j]);
    assert SweptIn(prints, q, ls[i], Trailing(prints, q, ls[..i])) && SweptIn(prints, q, ls[j], Trailing(prints, q, ls[..j]));
    assert !Drained(prints, q, g) ==> Sweep(prints, q, g) == 0 by { SweepOfUndrained(prints, q, g); }
    assert !Drained(prints, q, h) ==> Sweep(prints, q, h) == 0 by { SweepOfUndrained(prints, q, h); }
    if i < j {
      ControlledMonotone(prints, q, ls, i + 1, j + 1);
      if Depth(prints, q, g) == Depth(prints, q, h) {
        NoneControlled(prints, q, ls, i, j);
      }
    } else {
      assert InWireOrder(prints, ls[i]);
    }
  }

  lemma SweepOfUndrained(prints: Circuit, q: nat, g: nat)
    requires g < |prints|
    ensures !Drained(prints, q, g) ==> Sweep(prints, q, g) == 0
  {
  }

  /** The concatenated layers list the gates by stage. */
  lemma LayersAreStaged(prints: Circuit, q: nat, ls: seq<seq<nat>>)
    requires ByStage(prints, q, ls)
    ensures Staged(prints, q, Flatten(ls))
  {
    hide ByStage, Before, Flatten;
    forall a: nat, b: nat | a < b < |Flatten(ls)|
      ensures Before(prints, q, Flatten(ls)[a], Flatten(ls)[b])
    {
      var i, x, j, y := PlacesInOrder(ls, a, b);
      PlaceBefore(prints, q, ls, i, x, j, y);
    }
  }

  // Which single-qubit gates a sweep picks up.

  /** After `k` sweeps of round `r`. */
  ghost predicate SweepsDone(prints: Circuit, q: nat, done: set<nat>, r: nat, k: nat) {
    forall g: nat :: g < |prints| && Drained(prints, q, g) && Depth(prints, q, g) == r ==> (g in done <==> Sweep(prints, q, g) < k)
  }

  lemma NoSweepDone(prints: Circuit, q: nat, done: set<nat>, r: nat)
    requires Begun(prints, q, done, r)
    ensures SweepsDone(prints, q, done, r, 0)
  {
    hide Depth, Drained;
  }

  /** A single-qubit gate that is ready belongs to the next sweep. */
  lemma ReadyInSweep(prints: Circuit, n: nat, q: nat, cur: seq<nat>, done: set<nat>, r: nat, k: nat, g: nat)
    requires Proper(prints, n) && Consistent(prints, n, cur, done) && SweepsDone(prints, q, done, r, k)
    requires g < |prints| && Drained(prints, q, g) && Depth(prints, q, g) == r && Ready(prints, cur, g)
    ensures Sweep(prints, q, g) == k
  {
    hide Depth, Consistent, Ready, Proper;
    var w: nat :| w < q && prints[g] == {w};
    assert w in prints[g] && Share(prints, g, g);
    ReadyDeps(prints, n, cur, done, g, g);
    if Sweep(prints, q, g) > k {
      var h := AlikeHit(prints, q, g, g, k);
      assert w in prints[h] && Share(prints, g, h);
      assert Drained(prints, q, h) && Sweep(prints, q, h) == k;
      ReadyDeps(prints, n, cur, done, g, h);
    }
  }

  /** Conversely the gates of the next sweep are ready. */
  lemma SweepIsReady(prints: Circuit, n: nat, q: nat, cur: seq<nat>, done: set<nat>, r: nat, k: nat, g: nat)
    requires Proper(prints, n) && Consistent(prints, n, cur, done) && Draining(prints, q, done, r) && SweepsDone(prints, q, done, r, k)
    requires g < |prints| && Drained(prints, q, g) && Depth(prints, q, g) == r && Sweep(prints, q, g) == k
    ensures Ready(prints, cur, g)
  {
    hide Depth, Consistent, Ready, Proper;
    var w: nat :| w < q && prints[g] == {w};
    DepthOfDrained(prints, q, g);
    BelowIsMax(prints, q, g, g);
    forall h: nat | h < g && Share(prints, g, h)
      ensures h in done
    {
      if Drained(prints, q, h) && Depth(prints, q, h) == r {
        assert prints[h] == {w};
        AlikeGrows(prints, q, g, h);
      }
    }
    UnblockedIsReady(prints, n, cur, done, g);
  }
}
