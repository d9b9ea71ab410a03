/** Scheduling gates wire by wire: what has been emitted, what is ready, and how deep a gate lies. */
module Schedules {
  import opened Wires

  type Circuit = seq<set<nat>>

  /** Every gate acts on at least one of the `n` wires. */
  ghost predicate Proper(prints: Circuit, n: nat) {
    forall g: nat :: g < |prints| ==> prints[g] != {} && forall w :: w in prints[g] ==> w < n
  }

  ghost predicate Share(prints: Circuit, g: nat, h: nat) {
    g < |prints| && h < |prints| && exists w: nat :: w in prints[g] && w in prints[h]
  }

  /** The gates the inner loop drains: those on one single qubit. */
  ghost predicate Drained(prints: Circuit, q: nat, g: nat)
    requires g < |prints|
  {
    exists w: nat :: w < q && prints[g] == {w}
  }

  /** cur[w] gates of wire `w` have been passed, and those are exactly the emitted ones on it. */
  ghost predicate Consistent(prints: Circuit, n: nat, cur: seq<nat>, done: set<nat>) {
    && |cur| == n
    && (forall g :: g in done ==> g < |prints|)
    && forall w: nat :: w < n ==> Passed(prints, w, cur[w], done)
  }

  ghost predicate Passed(prints: Circuit, w: nat, c: nat, done: set<nat>) {
    var on := OnWire(prints, w);
    c <= |on| && forall k: nat :: k < |on| ==> (on[k] in done <==> k < c)
  }

  /** The next gate on wire `w` is `g`. */
  ghost predicate Head(prints: Circuit, cur: seq<nat>, w: nat, g: nat) {
    w < |cur| && cur[w] < |OnWire(prints, w)| && OnWire(prints, w)[cur[w]] == g
  }

  /** `g` is next on all its wires. */
  ghost predicate Ready(prints: Circuit, cur: seq<nat>, g: nat) {
    g < |prints| && forall w :: w in prints[g] ==> Head(prints, cur, w, g)
  }

  lemma PlaceOnWire(prints: Circuit, w: nat, g: nat) returns (k: nat)
    requires g < |prints| && w in prints[g]
    ensures k < |OnWire(prints, w)| && OnWire(prints, w)[k] == g
  {
    OnWireComplete(prints, w, g);
    k :| k < |OnWire(prints, w)| && OnWire(prints, w)[k] == g;
  }

  /** On every wire, what comes before the next gate has been emitted and nothing else has. */
  lemma HeadSplits(prints: Circuit, n: nat, cur: seq<nat>, done: set<nat>, w: nat, g: nat, h: nat)
    requires Consistent(prints, n, cur, done) && Head(prints, cur, w, g)
    requires h < |prints| && w in prints[h]
    ensures h in done <==> h < g
  {
    var k := PlaceOnWire(prints, w, h);
    assert Passed(prints, w, cur[w], done);
  }

  /** Whatever has been emitted, every earlier gate sharing a wire with it has been emitted too. */
  lemma EmittedBefore(prints: Circuit, n: nat, cur: seq<nat>, done: set<nat>, g: nat, h: nat)
    requires Proper(prints, n) && Consistent(prints, n, cur, done) && g in done && h < g && Share(prints, g, h)
    ensures h in done
  {
    var w: nat :| w in prints[g] && w in prints[h];
    var i := PlaceOnWire(prints, w, h);
    var j := PlaceOnWire(prints, w, g);
    assert Passed(prints, w, cur[w], done);
  }

  /** A gate that has not been emitted although all earlier ones sharing a wire with it have is ready. */
  lemma UnblockedIsReady(prints: Circuit, n: nat, cur: seq<nat>, done: set<nat>, g: nat)
    requires Proper(prints, n) && Consistent(prints, n, cur, done) && g < |prints| && g !in done
    requires forall h: nat :: h < g && Share(prints, g, h) ==> h in done
    ensures Ready(prints, cur, g)
  {
    forall w | w in prints[g]
      ensures Head(prints, cur, w, g)
    {
      var k := PlaceOnWire(prints, w, g);
      var on := OnWire(prints, w);
      assert Passed(prints, w, cur[w], done);
      forall j | 0 <= j < k
        ensures on[j] in done
      {
        assert w in prints[on[j]] && Share(prints, g, on[j]);
      }
      assert k > 0 ==> on[k - 1] in done;
    }
  }

  lemma ReadyDeps(prints: Circuit, n: nat, cur: seq<nat>, done: set<nat>, g: nat, h: nat)
    requires Proper(prints, n) && Consistent(prints, n, cur, done) && Ready(prints, cur, g) && Share(prints, g, h)
    ensures g !in done && (h in done <==> h < g)
  {
    var w: nat :| w in prints[g] && w in prints[h];
    HeadSplits(prints, n, cur, done, w, g, h);
    HeadSplits(prints, n, cur, done, w, g, g);
  }

  /** Emitting a set of ready gates and moving past them on all their wires keeps the cursors consistent. */
  lemma EmitReady(prints: Circuit, n: nat, cur: seq<nat>, done: set<nat>, cur': seq<nat>, batch: set<nat>)
    requires Proper(prints, n) && Consistent(prints, n, cur, done) && |cur'| == n
    requires forall g :: g in batch ==> Ready(prints, cur, g)
    requires forall w: nat :: w < n ==>
      cur'[w] == if exists g :: g in batch && Head(prints, cur, w, g) then cur[w] + 1 else cur[w]
    ensures Consistent(prints, n, cur', done + batch)
  {
  }

  // How deep a gate lies: the longest chain of undrained gates, each sharing a wire with the next, that ends at it.

  ghost function Depth(prints: Circuit, q: nat, g: nat): nat
    requires g < |prints|
    decreases g, 1, 0
  {
    Below(prints, q, g, g) + if Drained(prints, q, g) then 0 else 1
  }

  /** The greatest depth among the gates before `k` that share a wire with `g`. */
  ghost function Below(prints: Circuit, q: nat, g: nat, k: nat): nat
    requires k <= g < |prints|
    decreases g, 0, k
  {
    if k == 0 then 0
    else
      var b := Below(prints, q, g, k - 1);
      if Share(prints, g, k - 1) && Depth(prints, q, k - 1) > b then Depth(prints, q, k - 1) else b
  }

  lemma {:induction false} BelowIsMax(prints: Circuit, q: nat, g: nat, k: nat)
    requires k <= g < |prints|
    ensures forall h: nat :: h < k && Share(prints, g, h) ==> Depth(prints, q, h) <= Below(prints, q, g, k)
    ensures Below(prints, q, g, k) == 0 || exists h: nat :: h < k && Share(prints, g, h) && Depth(prints, q, h) == Below(prints, q, g, k)
    decreases k
  {
    if k > 0 {
      BelowIsMax(prints, q, g, k - 1);
    }
  }

  // What a round has emitted, in terms of depth.

  /** At the start of round `r`: the undrained gates of depth at most r and the drained ones of smaller depth. */
  ghost predicate Begun(prints: Circuit, q: nat, done: set<nat>, r: nat) {
    forall g: nat :: g < |prints| ==> (g in done <==> Depth(prints, q, g) + (if Drained(prints, q, g) then 1 else 0) <= r)
  }

  /** During the drain: nothing deeper than r, and everything the round began with. */
  ghost predicate Draining(prints: Circuit, q: nat, done: set<nat>, r: nat) {
    && (forall g: nat :: g < |prints| && g in done ==> Depth(prints, q, g) <= r)
    && forall g: nat :: g < |prints| && Depth(prints, q, g) + (if Drained(prints, q, g) then 1 else 0) <= r ==> g in done
  }

  /** After the drain: exactly the gates of depth at most r. */
  ghost predicate Level(prints: Circuit, q: nat, done: set<nat>, r: nat) {
    forall g: nat :: g < |prints| ==> (g in done <==> Depth(prints, q, g) <= r)
  }

  ghost predicate NothingToDrain(prints: Circuit, q: nat, cur: seq<nat>) {
    forall w: nat, g: nat :: w < q && g < |prints| && Head(prints, cur, w, g) ==> prints[g] != {w}
  }

  lemma BelowDone(prints: Circuit, n: nat, q: nat, done: set<nat>, g: nat, r: nat)
    requires g < |prints| && forall h: nat :: h < |prints| && h in done ==> Depth(prints, q, h) <= r
    requires forall h: nat :: h < g && Share(prints, g, h) ==> h in done
    ensures Below(prints, q, g, g) <= r
  {
    BelowIsMax(prints, q, g, g);
  }

  /** A single-qubit gate found at a cursor lies exactly `r` deep, and emitting it keeps the drain's invariant. */
  lemma DrainStep(prints: Circuit, n: nat, q: nat, cur: seq<nat>, done: set<nat>, r: nat, w: nat, g: nat)
    requires Proper(prints, n) && Consistent(prints, n, cur, done) && Draining(prints, q, done, r) && q <= n
    requires w < q && g < |prints| && Head(prints, cur, w, g) && prints[g] == {w}
    ensures g !in done && Ready(prints, cur, g) && Depth(prints, q, g) == r
    ensures Draining(prints, q, done + {g}, r) && Consistent(prints, n, cur[w := cur[w] + 1], done + {g})
  {
    hide Depth, Below;
    assert Drained(prints, q, g);
    HeadSplits(prints, n, cur, done, w, g, g);
    forall h: nat | h < g && Share(prints, g, h)
      ensures h in done
    {
      HeadSplits(prints, n, cur, done, w, g, h);
    }
    BelowDone(prints, n, q, done, g, r);
    DepthOfDrained(prints, q, g);
    EmitReady(prints, n, cur, done, cur[w := cur[w] + 1], {g});
  }

  lemma DepthOfDrained(prints: Circuit, q: nat, g: nat)
    requires g < |prints|
    ensures Depth(prints, q, g) == Below(prints, q, g, g) + if Drained(prints, q, g) then 0 else 1
  {
  }

  lemma NotNextInLine(prints: Circuit, q: nat, cur: seq<nat>, g: nat)
    requires NothingToDrain(prints, q, cur) && g < |prints| && Drained(prints, q, g)
    ensures !Ready(prints, cur, g)
  {
    var w: nat :| w < q && prints[g] == {w};
    assert w in prints[g] && !Head(prints, cur, w, g);
  }

  /** When no cursor shows a single-qubit gate, all gates of depth at most r are out. */
  lemma {:induction false} DrainReaches(prints: Circuit, n: nat, q: nat, cur: seq<nat>, done: set<nat>, r: nat, g: nat)
    requires Proper(prints, n) && Consistent(prints, n, cur, done) && Draining(prints, q, done, r) && q <= n
    requires NothingToDrain(prints, q, cur) && g < |prints| && Depth(prints, q, g) <= r
    ensures g in done
    decreases g
  {
    hide Depth, Below;
    DepthOfDrained(prints, q, g);
    BelowIsMax(prints, q, g, g);
    forall h: nat | h < g && Share(prints, g, h)
      ensures h in done
    {
      DrainReaches(prints, n, q, cur, done, r, h);
    }
    if Drained(prints, q, g) {
      NotNextInLine(prints, q, cur, g);
    }
    if g !in done {
      UnblockedIsReady(prints, n, cur, done, g);
    }
  }

  lemma DrainEnds(prints: Circuit, n: nat, q: nat, cur: seq<nat>, done: set<nat>, r: nat)
    requires Proper(prints, n) && Consistent(prints, n, cur, done) && Draining(prints, q, done, r) && q <= n
    requires NothingToDrain(prints, q, cur)
    ensures Level(prints, q, done, r)
  {
    hide Depth, Consistent, Drained;
    forall g: nat | g < |prints| && Depth(prints, q, g) <= r
      ensures g in done
    {
      DrainReaches(prints, n, q, cur, done, r, g);
    }
  }

  /** The gates ready after the drain are exactly the undrained ones of depth r + 1. */
  lemma ReadyIsNextDepth(prints: Circuit, n: nat, q: nat, cur: seq<nat>, done: set<nat>, r: nat, g: nat)
    requires Proper(prints, n) && Consistent(prints, n, cur, done) && Level(prints, q, done, r) && q <= n
    requires g < |prints|
    ensures Ready(prints, cur, g) <==> Depth(prints, q, g) == r + 1 && !Drained(prints, q, g)
  {
    hide Depth, Below, Consistent, Drained;
    DepthOfDrained(prints, q, g);
    BelowIsMax(prints, q, g, g);
    if Ready(prints, cur, g) {
      var w :| w in prints[g];
      assert Share(prints, g, g);
      ReadyDeps(prints, n, cur, done, g, g);
      forall h: nat | h < g && Share(prints, g, h)
        ensures h in done
      {
        ReadyDeps(prints, n, cur, done, g, h);
      }
      BelowDone(prints, n, q, done, g, r);
    } else if Depth(prints, q, g) == r + 1 && !Drained(prints, q, g) {
      UnblockedIsReady(prints, n, cur, done, g);
    }
  }

  lemma RoundEnds(prints: Circuit, n: nat, q: nat, cur: seq<nat>, done: set<nat>, r: nat, batch: set<nat>)
    requires Proper(prints, n) && Consistent(prints, n, cur, done) && Level(prints, q, done, r) && q <= n
    requires forall g: nat :: g in batch <==> g < |prints| && Ready(prints, cur, g)
    ensures Begun(prints, q, done + batch, r + 1)
  {
    hide Depth, Consistent, Drained;
    forall g: nat | g < |prints|
      ensures g in done + batch <==> Depth(prints, q, g) + (if Drained(prints, q, g) then 1 else 0) <= r + 1
    {
      ReadyIsNextDepth(prints, n, q, cur, done, r, g);
    }
  }

  /** The first gate not yet emitted is ready, so a round that leaves gates over has something to emit. */
  lemma {:induction false} SomethingReady(prints: Circuit, n: nat, cur: seq<nat>, done: set<nat>, g: nat) returns (f: nat)
    requires Proper(prints, n) && Consistent(prints, n, cur, done) && g < |prints| && g !in done
    ensures f < |prints| && f !in done && Ready(prints, cur, f)
    decreases g
  {
    if h: nat :| h < g && Share(prints, g, h) && h !in done {
      f := SomethingReady(prints, n, cur, done, h);
    } else {
      UnblockedIsReady(prints, n, cur, done, g);
      f := g;
    }
  }
}
