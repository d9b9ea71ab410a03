/** Layerings of a circuit, and how few controlled layers one can have. */
module Layers {
  import opened Sums
  import opened Schedules

  ghost function Flatten(ls: seq<seq<nat>>): seq<nat> {
    if ls == [] then [] else Flatten(ls[..|ls| - 1]) + ls[|ls| - 1]
  }

  lemma FlattenSnoc(ls: seq<seq<nat>>, l: seq<nat>)
    ensures Flatten(ls + [l]) == Flatten(ls) + l
  {
    assert (ls + [l])[..|ls|] == ls;
  }

  /** Of two gates sharing a wire the earlier one lies in an earlier layer; in particular not in the same one. */
  ghost predicate Layered(prints: Circuit, ls: seq<seq<nat>>) {
    forall i: nat, j: nat, x: nat, y: nat :: i < |ls| && j < |ls| && x < |ls[i]| && y < |ls[j]| ==>
      Apart(prints, ls[i][x], ls[j][y], i, j)
  }

  ghost predicate Apart(prints: Circuit, g: nat, h: nat, i: nat, j: nat) {
    Share(prints, g, h) && h < g ==> j < i
  }

  /** The layers hold every gate exactly once and respect every wire. */
  ghost predicate IsLayering(prints: Circuit, ls: seq<seq<nat>>) {
    && Layered(prints, ls)
    && |Flatten(ls)| == |prints| && Permutation(Flatten(ls))
  }

  /** Gates sharing a wire keep their order. */
  ghost predicate Respects(prints: Circuit, order: seq<nat>) {
    forall a: nat, b: nat :: a < b < |order| && Share(prints, order[a], order[b]) ==> order[a] <= order[b]
  }

  /** A layer that asks for coupled qubits: some gate in it is not a single-qubit one. */
  ghost predicate Controlled(prints: Circuit, q: nat, l: seq<nat>) {
    exists x: nat :: x < |l| && l[x] < |prints| && !Drained(prints, q, l[x])
  }

  /** No layer is empty, and single-qubit gates have layers of their own. */
  ghost predicate Unmixed(prints: Circuit, q: nat, ls: seq<seq<nat>>) {
    forall i: nat :: i < |ls| ==> ls[i] != [] && OneKind(prints, q, ls[i])
  }

  ghost predicate OneKind(prints: Circuit, q: nat, l: seq<nat>) {
    forall x: nat :: x < |l| ==> l[x] < |prints| && (Drained(prints, q, l[x]) <==> !Controlled(prints, q, l))
  }

  /** The same, gate by gate: a layer holds gates on one single qubit only, or none of them. */
  lemma UnmixedByWires(prints: Circuit, q: nat, ls: seq<seq<nat>>)
    requires Unmixed(prints, q, ls)
    ensures forall i: nat :: i < |ls| ==> ls[i] != [] && (forall x: nat :: x < |ls[i]| ==> ls[i][x] < |prints|)
    ensures forall i: nat, x: nat, y: nat, w: nat :: i < |ls| && x < |ls[i]| && y < |ls[i]| && w < q && prints[ls[i][x]] == {w} ==>
      exists v: nat :: v < q && prints[ls[i][y]] == {v}
  {
    forall i: nat | i < |ls|
      ensures OneKind(prints, q, ls[i])
    {
    }
  }

  ghost function ControlledLayers(prints: Circuit, q: nat, ls: seq<seq<nat>>): nat {
    if ls == [] then 0
    else ControlledLayers(prints, q, ls[..|ls| - 1]) + if Controlled(prints, q, ls[|ls| - 1]) then 1 else 0
  }

  lemma {:induction false} ControlledMonotone(prints: Circuit, q: nat, ls: seq<seq<nat>>, i: nat, j: nat)
    requires i <= j <= |ls|
    ensures ControlledLayers(prints, q, ls[..i]) <= ControlledLayers(prints, q, ls[..j])
    decreases j
  {
    if i < j {
      assert ls[..j][..j - 1] == ls[..j - 1];
      ControlledMonotone(prints, q, ls, i, j - 1);
    }
  }

  lemma {:induction false} FindInFlatten(ls: seq<seq<nat>>, g: nat) returns (i: nat, x: nat)
    requires g in Flatten(ls)
    ensures i < |ls| && x < |ls[i]| && ls[i][x] == g
  {
    var k := |ls| - 1;
    if g in ls[k] {
      i := k;
      x :| x < |ls[k]| && ls[k][x] == g;
    } else {
      i, x := FindInFlatten(ls[..k], g);
    }
  }

  lemma {:induction false} InFlatten(ls: seq<seq<nat>>, i: nat, x: nat)
    requires i < |ls| && x < |ls[i]|
    ensures ls[i][x] in Flatten(ls)
  {
    var k := |ls| - 1;
    if i < k {
      InFlatten(ls[..k], i, x);
    } else {
      assert ls[k][x] in ls[k];
    }
  }

  /** In any layering a gate of depth d sits at or after the d-th controlled layer. */
  lemma {:induction false} DepthNeedsLayers(prints: Circuit, q: nat, ls: seq<seq<nat>>, i: nat, x: nat)
    requires IsLayering(prints, ls) && i < |ls| && x < |ls[i]|
    ensures ls[i][x] < |prints| && Depth(prints, q, ls[i][x]) <= ControlledLayers(prints, q, ls[..i + 1])
    decreases i
  {
    hide Permutation, Depth, Below;
    var g := ls[i][x];
    InFlatten(ls, i, x);
    assert g < |prints| by { Bounded(Flatten(ls), g); }
    DepthOfDrained(prints, q, g);
    BelowIsMax(prints, q, g, g);
    assert ls[..i + 1][..i] == ls[..i];
    if Below(prints, q, g, g) > 0 {
      var h: nat :| h < g && Share(prints, g, h) && Depth(prints, q, h) == Below(prints, q, g, g);
      assert h in Flatten(ls) by { PermutationHits(Flatten(ls), h); }
      var j, y := FindInFlatten(ls, h);
      assert Apart(prints, ls[i][x], ls[j][y], i, j);
      DepthNeedsLayers(prints, q, ls, j, y);
      ControlledMonotone(prints, q, ls, j + 1, i);
    }
  }

  lemma Bounded(s: seq<nat>, g: nat)
    requires Permutation(s) && g in s
    ensures g < |s|
  {
  }

  /** Every gate comes right after as many controlled layers as it is deep. */
  ghost predicate AtDepth(prints: Circuit, q: nat, ls: seq<seq<nat>>) {
    forall i: nat, x: nat :: i < |ls| && x < |ls[i]| ==>
      ls[i][x] < |prints| && Depth(prints, q, ls[i][x]) == ControlledLayers(prints, q, ls[..i + 1])
  }

  lemma {:induction false} LastControlled(prints: Circuit, q: nat, ls: seq<seq<nat>>) returns (i: nat, x: nat)
    requires ControlledLayers(prints, q, ls) > 0
    ensures i < |ls| && x < |ls[i]| && ControlledLayers(prints, q, ls[..i + 1]) == ControlledLayers(prints, q, ls)
  {
    var k := |ls| - 1;
    if Controlled(prints, q, ls[k]) {
      i := k;
      x :| x < |ls[k]| && ls[k][x] < |prints| && !Drained(prints, q, ls[k][x]);
      assert ls[..k + 1] == ls;
    } else {
      i, x := LastControlled(prints, q, ls[..k]);
      assert ls[..k][..i + 1] == ls[..i + 1];
    }
  }

  /** So no layering has fewer controlled layers. */
  lemma AtDepthIsMinimal(prints: Circuit, q: nat, ls: seq<seq<nat>>, others: seq<seq<nat>>)
    requires AtDepth(prints, q, ls) && IsLayering(prints, others)
    ensures ControlledLayers(prints, q, ls) <= ControlledLayers(prints, q, others)
  {
    hide Depth, IsLayering, ControlledLayers, Flatten;
    if ControlledLayers(prints, q, ls) > 0 {
      var i, x := LastControlled(prints, q, ls);
      var g := ls[i][x];
      LayeringLists(prints, others, g);
      var j, y := FindInFlatten(others, g);
      DepthNeedsLayers(prints, q, others, j, y);
      assert others[..|others|] == others;
      ControlledMonotone(prints, q, others, j + 1, |others|);
    }
  }

  lemma LayeringLists(prints: Circuit, ls: seq<seq<nat>>, g: nat)
    requires IsLayering(prints, ls) && g < |prints|
    ensures g in Flatten(ls)
  {
    PermutationHits(Flatten(ls), g);
  }

  /** Within one layer no two gates share a wire. */
  lemma LayerIsParallel(prints: Circuit, ls: seq<seq<nat>>, i: nat, x: nat, y: nat)
    requires Layered(prints, ls) && i < |ls| && x < |ls[i]| && y < |ls[i]| && ls[i][x] != ls[i][y]
    ensures !Share(prints, ls[i][x], ls[i][y])
  {
    assert Apart(prints, ls[i][x], ls[i][y], i, i);
    assert Apart(prints, ls[i][y], ls[i][x], i, i);
  }

  /** The order the layers are emitted in keeps the order of any two gates that share a wire. */
  lemma {:induction false} LayeredRespects(prints: Circuit, ls: seq<seq<nat>>)
    requires Layered(prints, ls)
    ensures Respects(prints, Flatten(ls))
  {
    if ls != [] {
      var k := |ls| - 1;
      forall i: nat, j: nat, x: nat, y: nat | i < k && j < k && x < |ls[..k][i]| && y < |ls[..k][j]|
        ensures Apart(prints, ls[..k][i][x], ls[..k][j][y], i, j)
      {
        assert Apart(prints, ls[i][x], ls[j][y], i, j);
      }
      LayeredRespects(prints, ls[..k]);
      var front := Flatten(ls[..k]);
      forall a: nat, b: nat | a < b < |Flatten(ls)| && Share(prints, Flatten(ls)[a], Flatten(ls)[b])
        ensures Flatten(ls)[a] <= Flatten(ls)[b]
      {
        if b >= |front| {
          if a >= |front| {
            assert Apart(prints, ls[k][a - |front|], ls[k][b - |front|], k, k);
          } else {
            assert front[a] in front;
            var i, x := FindInFlatten(ls[..k], front[a]);
            assert Apart(prints, ls[i][x], ls[k][b - |front|], i, k);
          }
        }
      }
    }
  }
}
