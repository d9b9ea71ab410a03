/** The layer scheduler that walks the circuit graph, draining single-qubit gates eagerly. */
module Ordering {
  import opened Sums
  import opened Wires
  import opened Circuits
  import opened Schedules
  import opened Layers
  import opened Stages

  /** The statement numbers: gate x of the graph is statement x. */
  ghost predicate Numbered(g: CircuitGraph, ids: map<nat, nat>)
    reads g
  {
    forall x: nat :: x < |g.gates| ==> g.gates[x].node in ids && ids[g.gates[x].node] == x
  }

  /** The cursor of wire `w` stands just before its cur[w]-th gate. */
  ghost predicate Cursors(g: CircuitGraph, it: Iterator, cur: seq<nat>)
    reads g, g.nodes, it
  {
    && g.Valid() && it.On(g) && |cur| == g.Wires()
    && forall w: nat :: w < |cur| ==> it.pos[w] == cur[w] + 1
  }

  /** getNodeId of the node under a cursor, with its kind and number of bits. */
  method Peek(g: CircuitGraph, it: Iterator, ids: map<nat, nat>, ghost cur: seq<nat>, w: nat)
    returns (isGate: bool, x: nat, bits: nat)
    requires Cursors(g, it, cur) && Numbered(g, ids) && w < g.Wires()
    ensures cur[w] <= |OnWire(g.prints, w)|
    ensures isGate <==> cur[w] < |OnWire(g.prints, w)|
    ensures isGate ==> x < |g.prints| && Head(g.prints, cur, w, x) && w in g.prints[x] && bits == |g.prints[x]|
  {
    hide Threaded;
    StopKinds(g.P(), w, it.pos[w]);
    isGate := it.ptr[w].kind == Gate;
    x, bits := 0, 0;
    if isGate {
      ghost var y := OnWire(g.prints, w)[cur[w]];
      assert it.ptr[w] == g.gates[y];
      assert Footprint(g.Nexts()[g.gates[y]], g.Prevs()[g.gates[y]], g.prints[y]);
      x := ids[it.ptr[w].node];
      bits := |it.ptr[w].next.Keys|;
    }
  }

  lemma CursorPlace(g: CircuitGraph, it: Iterator, cur: seq<nat>, w: nat)
    requires Cursors(g, it, cur) && w < g.Wires()
    ensures |it.pos| == |cur| && it.pos[w] == cur[w] + 1 && Shape(g.P()) && |Stops(g.P(), w)| == |OnWire(g.prints, w)| + 2
  {
  }

  method Advance(g: CircuitGraph, it: Iterator, ghost cur: seq<nat>, w: nat) returns (ghost cur': seq<nat>)
    requires Cursors(g, it, cur) && w < g.Wires() && cur[w] < |OnWire(g.prints, w)|
    modifies it
    ensures cur' == cur[w := cur[w] + 1] && Cursors(g, it, cur')
  {
    hide Woven, Iterator.On;
    CursorPlace(g, it, cur, w);
    var moved := it.Next(g, w);
    cur' := cur[w := cur[w] + 1];
  }

  method Begin(g: CircuitGraph) returns (it: Iterator, ghost cur: seq<nat>)
    requires g.Valid()
    ensures fresh(it) && Cursors(g, it, cur) && cur == seq(g.Wires(), _ => 0)
  {
    hide Woven, Stops;
    it := new Iterator(g);
    var n := g.qubits + g.cbits;
    for i := 0 to n
      invariant fresh(it) && g.Valid() && it.On(g)
      invariant forall w: nat :: w < n ==> it.pos[w] == if w < i then 1 else 0
    {
      var moved := it.Next(g, i);
    }
    cur := seq(n, _ => 0);
  }

  // How many wires of a gate still have to be marked.

  /** The wires of gate `x` on which it has not been reached and marked yet. */
  ghost function Waiting(prints: Circuit, cur: seq<nat>, marked: seq<bool>, x: nat): set<nat>
    requires x < |prints|
  {
    set w | w in prints[x] && !(w < |marked| && marked[w] && Head(prints, cur, w, x))
  }

  /** The counters of the gates not emitted yet. */
  ghost predicate Tally(prints: Circuit, cur: seq<nat>, marked: seq<bool>, reached: map<nat, nat>, done: set<nat>) {
    && |marked| == |cur|
    && forall x: nat :: x < |prints| && x !in done ==> Counted(prints, cur, marked, reached, x)
  }

  ghost predicate Counted(prints: Circuit, cur: seq<nat>, marked: seq<bool>, reached: map<nat, nat>, x: nat)
    requires x < |prints|
  {
    if x in reached then reached[x] == |Waiting(prints, cur, marked, x)| else Waiting(prints, cur, marked, x) == prints[x]
  }

  /** A marked wire is held back by a gate on several wires. */
  ghost predicate Held(prints: Circuit, cur: seq<nat>, marked: seq<bool>) {
    && |marked| == |cur|
    && forall w: nat :: w < |marked| && marked[w] ==>
         cur[w] < |OnWire(prints, w)| && |prints[OnWire(prints, w)[cur[w]]]| != 1
  }

  /** Passing an unmarked wire on changes no counter. */
  lemma UnmarkedMoves(prints: Circuit, cur: seq<nat>, marked: seq<bool>, reached: map<nat, nat>, done: set<nat>, w: nat, x: nat)
    requires Tally(prints, cur, marked, reached, done) && Held(prints, cur, marked) && w < |cur| && !marked[w]
    ensures Tally(prints, cur[w := cur[w] + 1], marked, reached, done + {x}) && Held(prints, cur[w := cur[w] + 1], marked)
  {
    var cur' := cur[w := cur[w] + 1];
    forall y: nat | y < |prints| && y !in done + {x}
      ensures Counted(prints, cur', marked, reached, y)
    {
      assert Counted(prints, cur, marked, reached, y);
      assert Waiting(prints, cur', marked, y) == Waiting(prints, cur, marked, y);
    }
  }

  // What has been handed out so far.

  ghost predicate Emitted(prints: Circuit, q: nat, ls: seq<seq<nat>>, order: seq<nat>, done: set<nat>, r: nat) {
    && order == Flatten(ls) && Distinct(order) && (forall x: nat :: x in order <==> x in done)
    && Layered(prints, ls) && AtDepth(prints, q, ls) && Unmixed(prints, q, ls) && Graded(prints, q, ls) && ControlledLayers(prints, q, ls) == r
  }

  ghost function Members(l: seq<nat>): (s: set<nat>)
    ensures forall x: nat :: x in s <==> x in l
  {
    set x: nat | x in l
  }

  /** A layer of ready gates, all as deep as the controlled layers then number, extends what has been emitted. */
  lemma AddLayer(prints: Circuit, n: nat, q: nat, ls: seq<seq<nat>>, order: seq<nat>, cur: seq<nat>, done: set<nat>, r: nat, l: seq<nat>, r': nat)
    requires Proper(prints, n) && Consistent(prints, n, cur, done) && Emitted(prints, q, ls, order, done, r)
    requires InWireOrder(prints, l) && SweptIn(prints, q, l, Trailing(prints, q, ls))
    requires l != [] && Distinct(l) && OneKind(prints, q, l) && r' == r + if Controlled(prints, q, l) then 1 else 0
    requires forall i :: 0 <= i < |l| ==> l[i] < |prints| && Ready(prints, cur, l[i]) && Depth(prints, q, l[i]) == r'
    ensures Emitted(prints, q, ls + [l], order + l, done + Members(l), r')
    ensures Trailing(prints, q, ls + [l]) == if Controlled(prints, q, l) then 0 else Trailing(prints, q, ls) + 1
  {
    hide Depth, Consistent, Controlled, Ready, OneKind, Unmixed, AtDepth, Layered, Distinct, Flatten, ControlledLayers, Proper, Graded, InWireOrder, SweptIn, Trailing;
    FlattenSnoc(ls, l);
    AddedGraded(prints, q, ls, l);
    AddedUnmixed(prints, q, ls, l);
    AddedDistinct(prints, n, order, cur, done, l);
    AddedLayered(prints, n, ls, order, cur, done, l);
    AddedDepth(prints, q, ls, l, r');
  }

  lemma AddedUnmixed(prints: Circuit, q: nat, ls: seq<seq<nat>>, l: seq<nat>)
    requires Unmixed(prints, q, ls) && l != [] && OneKind(prints, q, l)
    ensures Unmixed(prints, q, ls + [l])
  {
    hide OneKind;
  }

  lemma AddedDepth(prints: Circuit, q: nat, ls: seq<seq<nat>>, l: seq<nat>, r': nat)
    requires AtDepth(prints, q, ls)
    requires r' == ControlledLayers(prints, q, ls) + if Controlled(prints, q, l) then 1 else 0
    requires forall i :: 0 <= i < |l| ==> l[i] < |prints| && Depth(prints, q, l[i]) == r'
    ensures AtDepth(prints, q, ls + [l]) && ControlledLayers(prints, q, ls + [l]) == r'
  {
    hide Depth, Controlled;
    var t := ls + [l];
    assert t[..|ls|] == ls && t[..|ls| + 1] == t;
    forall i: nat, x: nat | i < |t| && x < |t[i]|
      ensures t[i][x] < |prints| && Depth(prints, q, t[i][x]) == ControlledLayers(prints, q, t[..i + 1])
    {
      if i < |ls| {
        assert t[..i + 1] == ls[..i + 1];
        assert ls[i][x] < |prints| && Depth(prints, q, ls[i][x]) == ControlledLayers(prints, q, ls[..i + 1]);
      }
    }
  }

  lemma AddedDistinct(prints: Circuit, n: nat, order: seq<nat>, cur: seq<nat>, done: set<nat>, l: seq<nat>)
    requires Proper(prints, n) && Consistent(prints, n, cur, done)
    requires Distinct(order) && (forall x: nat :: x in order <==> x in done)
    requires Distinct(l) && forall i :: 0 <= i < |l| ==> l[i] < |prints| && Ready(prints, cur, l[i])
    ensures Distinct(order + l) && forall x: nat :: x in order + l <==> x in done + Members(l)
  {
    hide Consistent, Ready;
    forall i | 0 <= i < |l|
      ensures l[i] !in order
    {
      NotEmitted(prints, n, cur, done, l[i]);
    }
    var t := order + l;
    forall i, j | 0 <= i < j < |t|
      ensures t[i] != t[j]
    {
      if i < |order| <= j {
        assert t[i] in order;
      }
    }
  }

  lemma NotEmitted(prints: Circuit, n: nat, cur: seq<nat>, done: set<nat>, g: nat)
    requires Proper(prints, n) && Consistent(prints, n, cur, done) && g < |prints| && Ready(prints, cur, g)
    ensures g !in done
  {
    hide Consistent, Ready;
    var w :| w in prints[g];
    assert Share(prints, g, g);
    ReadyDeps(prints, n, cur, done, g, g);
  }

  lemma ReadyApart(prints: Circuit, n: nat, cur: seq<nat>, g: nat, h: nat)
    requires Ready(prints, cur, g) && Ready(prints, cur, h) && Share(prints, g, h)
    ensures g == h
  {
    var w: nat :| w in prints[g] && w in prints[h];
    assert Head(prints, cur, w, g) && Head(prints, cur, w, h);
  }

  lemma AddedLayered(prints: Circuit, n: nat, ls: seq<seq<nat>>, order: seq<nat>, cur: seq<nat>, done: set<nat>, l: seq<nat>)
    requires Proper(prints, n) && Consistent(prints, n, cur, done)
    requires order == Flatten(ls) && (forall x: nat :: x in order <==> x in done) && Layered(prints, ls)
    requires forall i :: 0 <= i < |l| ==> l[i] < |prints| && Ready(prints, cur, l[i])
    ensures Layered(prints, ls + [l])
  {
    hide Consistent, Ready, Share, Flatten;
    var t := ls + [l];
    forall i: nat, j: nat, x: nat, y: nat | i < |t| && j < |t| && x < |t[i]| && y < |t[j]|
      ensures Apart(prints, t[i][x], t[j][y], i, j)
    {
      if i < |ls| && j < |ls| {
        assert Apart(prints, ls[i][x], ls[j][y], i, j);
      } else if i < |ls| {
        InFlatten(ls, i, x);
        if Share(prints, t[i][x], t[j][y]) {
          ShareSymmetric(prints, t[i][x], t[j][y]);
          ReadyDeps(prints, n, cur, done, l[y], ls[i][x]);
        }
      } else if j == |ls| {
        if Share(prints, t[i][x], t[j][y]) {
          ReadyApart(prints, n, cur, l[x], l[y]);
        }
      }
    }
  }

  lemma ShareSymmetric(prints: Circuit, g: nat, h: nat)
    requires Share(prints, g, h)
    ensures Share(prints, h, g)
  {
  }

  // The phases of one outer round.

  lemma SingleWire(s: set<nat>, w: nat)
    requires w in s && |s| == 1
    ensures s == {w}
  {
    if v :| v in s && v != w {
      SubsetSize({w, v}, s);
    }
  }

  /** What one sweep over the qubits has picked up from wires below `i`. */
  ghost predicate Swept(prints: Circuit, q: nat, cur: seq<nat>, cur': seq<nat>, i: nat, layer: seq<nat>, r: nat) {
    && |cur'| == |cur| && Distinct(layer)
    && (forall k: nat :: i <= k < |cur| ==> cur'[k] == cur[k])
    && (forall x :: 0 <= x < |layer| ==> layer[x] < |prints| && Ready(prints, cur, layer[x]) && Depth(prints, q, layer[x]) == r)
    && (forall x :: 0 <= x < |layer| ==> Drained(prints, q, layer[x]) && forall k: nat :: i <= k ==> prints[layer[x]] != {k})
    && (layer == [] ==> cur' == cur && NothingToDrain(prints, if i < q then i else q, cur))
    && InWireOrder(prints, layer) && (forall x :: 0 <= x < |layer| ==> Lowest(prints[layer[x]]) < i)
    && forall w: nat, g: nat :: w < i && w < q && g < |prints| && Head(prints, cur, w, g) && prints[g] == {w} ==> g in layer
  }

  lemma SweptMore(prints: Circuit, n: nat, q: nat, cur: seq<nat>, cur': seq<nat>, i: nat, layer: seq<nat>, r: nat, x: nat)
    requires Swept(prints, q, cur, cur', i, layer, r) && i < q && i < |cur|
    requires x < |prints| && Head(prints, cur, i, x) && prints[x] == {i} && Depth(prints, q, x) == r
    ensures Swept(prints, q, cur, cur'[i := cur'[i] + 1], i + 1, layer + [x], r)
  {
  }

  lemma SweptSkip(prints: Circuit, q: nat, cur: seq<nat>, cur': seq<nat>, i: nat, layer: seq<nat>, r: nat)
    requires Swept(prints, q, cur, cur', i, layer, r) && i < q
    requires forall x: nat :: x < |prints| && Head(prints, cur, i, x) ==> prints[x] != {i}
    ensures Swept(prints, q, cur, cur', i + 1, layer, r)
  {
    hide Depth, Ready, Distinct;
  }

  /** One sweep: every qubit that shows a single-qubit gate passes it. */
  method DrainSweep(g: CircuitGraph, it: Iterator, ids: map<nat, nat>, marked: seq<bool>, ghost reached: map<nat, nat>,
                    ghost cur: seq<nat>, processed: set<nat>, ghost r: nat)
    returns (layer: seq<nat>, processed': set<nat>, ghost cur': seq<nat>)
    requires Cursors(g, it, cur) && Numbered(g, ids) && Proper(g.prints, g.Wires())
    requires Consistent(g.prints, g.Wires(), cur, processed) && Draining(g.prints, g.qubits, processed, r)
    requires Tally(g.prints, cur, marked, reached, processed) && Held(g.prints, cur, marked)
    modifies it
    ensures Cursors(g, it, cur') && processed' == processed + Members(layer)
    ensures Consistent(g.prints, g.Wires(), cur', processed') && Draining(g.prints, g.qubits, processed', r)
    ensures Tally(g.prints, cur', marked, reached, processed') && Held(g.prints, cur', marked)
    ensures Swept(g.prints, g.qubits, cur, cur', g.qubits, layer, r)
  {
    hide Cursors, Consistent, Draining, Tally, Held, Swept, Depth, Proper, Numbered, Head, OnWire, Ready, NothingToDrain;
    ghost var prints, n, q := g.prints, g.Wires(), g.qubits;
    layer, processed', cur' := [], processed, cur;
    SweptStart(prints, q, cur, r);
    CursorSize(g, it, cur);
    assert processed + Members([]) == processed;
    for i := 0 to g.qubits
      invariant Cursors(g, it, cur') && |cur'| == n && Swept(prints, q, cur, cur', i, layer, r)
      invariant processed' == processed + Members(layer)
      invariant Consistent(prints, n, cur', processed') && Draining(prints, q, processed', r)
      invariant Tally(prints, cur', marked, reached, processed') && Held(prints, cur', marked)
    {
      var isGate, x, bits := Peek(g, it, ids, cur', i);
      SweptHead(prints, q, cur, cur', i, layer, r);
      if isGate && bits == 1 {
        SingleWire(prints[x], i);
        DrainStep(prints, n, q, cur', processed', r, i, x);
        HeldNotSingle(prints, cur', marked, i, x);
        UnmarkedMoves(prints, cur', marked, reached, processed', i, x);
        SweptMore(prints, n, q, cur, cur', i, layer, r, x);
        assert processed' + {x} == processed + Members(layer + [x]);
        layer := layer + [x];
        processed' := processed' + {x};
        cur' := Advance(g, it, cur', i);
      } else {
        NotSingle(prints, cur', i, isGate, x, bits);
        SweptSkip(prints, q, cur, cur', i, layer, r);
      }
    }
  }

  lemma SweptStart(prints: Circuit, q: nat, cur: seq<nat>, r: nat)
    ensures Swept(prints, q, cur, cur, 0, [], r)
  {
  }

  lemma CursorSize(g: CircuitGraph, it: Iterator, cur: seq<nat>)
    requires Cursors(g, it, cur)
    ensures |cur| == g.Wires()
  {
  }

  lemma SweptHead(prints: Circuit, q: nat, cur: seq<nat>, cur': seq<nat>, i: nat, layer: seq<nat>, r: nat)
    requires Swept(prints, q, cur, cur', i, layer, r) && i < |cur|
    ensures forall x: nat :: Head(prints, cur', i, x) <==> Head(prints, cur, i, x)
  {
  }

  /** A marked wire never shows a single-bit gate. */
  lemma HeldNotSingle(prints: Circuit, cur: seq<nat>, marked: seq<bool>, w: nat, x: nat)
    requires Held(prints, cur, marked) && w < |cur| && x < |prints| && Head(prints, cur, w, x) && prints[x] == {w}
    ensures !marked[w]
  {
    assert |{w}| == 1;
  }

  lemma NotSingle(prints: Circuit, cur: seq<nat>, w: nat, isGate: bool, x: nat, bits: nat)
    requires w < |cur| && (isGate <==> cur[w] < |OnWire(prints, w)|)
    requires isGate ==> x < |prints| && Head(prints, cur, w, x) && bits == |prints[x]|
    requires !(isGate && bits == 1)
    ensures forall y: nat :: y < |prints| && Head(prints, cur, w, y) ==> prints[y] != {w}
  {
  }

  lemma SweptLayer(prints: Circuit, q: nat, cur: seq<nat>, cur': seq<nat>, i: nat, layer: seq<nat>, r: nat)
    requires Swept(prints, q, cur, cur', i, layer, r)
    ensures Distinct(layer) && !Controlled(prints, q, layer) && OneKind(prints, q, layer)
    ensures forall x :: 0 <= x < |layer| ==> layer[x] < |prints| && Ready(prints, cur, layer[x]) && Depth(prints, q, layer[x]) == r
    ensures layer == [] && i >= q ==> cur' == cur && NothingToDrain(prints, q, cur)
    ensures InWireOrder(prints, layer) && forall x :: 0 <= x < |layer| ==> Drained(prints, q, layer[x])
    ensures i >= q ==> forall g: nat :: g < |prints| && Drained(prints, q, g) && Ready(prints, cur, g) ==> g in layer
  {
    hide Depth, NothingToDrain, InWireOrder, Lowest, Head;
  }

  /** A sweep picks up exactly the gates whose turn it is. */
  lemma SweepStep(prints: Circuit, n: nat, q: nat, cur: seq<nat>, done: set<nat>, r: nat, k: nat, layer: seq<nat>)
    requires Proper(prints, n) && Consistent(prints, n, cur, done) && Draining(prints, q, done, r) && SweepsDone(prints, q, done, r, k)
    requires forall x :: 0 <= x < |layer| ==>
      layer[x] < |prints| && Ready(prints, cur, layer[x]) && Depth(prints, q, layer[x]) == r && Drained(prints, q, layer[x])
    requires forall g: nat :: g < |prints| && Drained(prints, q, g) && Ready(prints, cur, g) ==> g in layer
    ensures SweptIn(prints, q, layer, k) && SweepsDone(prints, q, done + Members(layer), r, k + 1)
  {
    hide Depth, Consistent, Draining, Proper, Ready, Drained, Sweep;
    forall g: nat | g < |prints| && Drained(prints, q, g) && Depth(prints, q, g) == r
      ensures g in layer <==> Sweep(prints, q, g) == k
    {
      if Ready(prints, cur, g) {
        ReadyInSweep(prints, n, q, cur, done, r, k, g);
      }
      if Sweep(prints, q, g) == k {
        SweepIsReady(prints, n, q, cur, done, r, k, g);
      }
    }
    assert forall x: nat :: x < |layer| ==> layer[x] in layer;
  }

  /** At most |prints| gates can be emitted, and every non-empty layer adds to them. */
  lemma MoreEmitted(prints: Circuit, n: nat, cur: seq<nat>, done: set<nat>, l: seq<nat>)
    requires Proper(prints, n) && Consistent(prints, n, cur, done)
    requires forall i :: 0 <= i < |l| ==> l[i] < |prints| && Ready(prints, cur, l[i])
    ensures |done + Members(l)| <= |prints| && (l != [] ==> |done| < |done + Members(l)|)
  {
    var all := done + Members(l);
    forall x | x in all
      ensures x < |prints|
    {
      if x in l {
        var i :| 0 <= i < |l| && l[i] == x;
      }
    }
    BelowSize(all, |prints|);
    SubsetSize(done, all);
    if l != [] {
      NotEmitted(prints, n, cur, done, l[0]);
      assert l[0] in all;
    }
  }

  /** The inner do-while: sweeps until no qubit shows a single-qubit gate. */
  method Drain(g: CircuitGraph, it: Iterator, ids: map<nat, nat>, marked: seq<bool>, ghost reached: map<nat, nat>,
               ghost cur: seq<nat>, processed: set<nat>, layers: seq<seq<nat>>, order: seq<nat>, ghost r: nat)
    returns (processed': set<nat>, layers': seq<seq<nat>>, order': seq<nat>, ghost cur': seq<nat>)
    requires Cursors(g, it, cur) && Numbered(g, ids) && Proper(g.prints, g.Wires())
    requires Consistent(g.prints, g.Wires(), cur, processed) && Draining(g.prints, g.qubits, processed, r)
    requires Tally(g.prints, cur, marked, reached, processed) && Held(g.prints, cur, marked)
    requires Emitted(g.prints, g.qubits, layers, order, processed, r)
    requires SweepsDone(g.prints, g.qubits, processed, r, 0) && Trailing(g.prints, g.qubits, layers) == 0
    modifies it
    ensures Cursors(g, it, cur') && processed <= processed'
    ensures Consistent(g.prints, g.Wires(), cur', processed') && Level(g.prints, g.qubits, processed', r)
    ensures Tally(g.prints, cur', marked, reached, processed') && Held(g.prints, cur', marked)
    ensures Emitted(g.prints, g.qubits, layers', order', processed', r)
  {
    hide Cursors, Consistent, Draining, Tally, Held, Swept, Depth, Proper, Numbered, Emitted, Ready, Distinct, NothingToDrain, Level, Trailing, SweepsDone, SweptIn, InWireOrder, Drained, OneKind, Controlled;
    ghost var prints, n, q := g.prints, g.Wires(), g.qubits;
    processed', layers', order', cur' := processed, layers, order, cur;
    while true
      invariant Cursors(g, it, cur') && processed <= processed'
      invariant Consistent(prints, n, cur', processed') && Draining(prints, q, processed', r)
      invariant Tally(prints, cur', marked, reached, processed') && Held(prints, cur', marked)
      invariant Emitted(prints, q, layers', order', processed', r)
      invariant SweepsDone(prints, q, processed', r, Trailing(prints, q, layers'))
      decreases |prints| - |processed'|
    {
      ghost var done0, cur0 := processed', cur';
      var layer;
      layer, processed', cur' := DrainSweep(g, it, ids, marked, reached, cur', processed', r);
      SweptLayer(prints, q, cur0, cur', q, layer, r);
      MoreEmitted(prints, n, cur0, done0, layer);
      SweepStep(prints, n, q, cur0, done0, r, Trailing(prints, q, layers'), layer);
      if layer != [] {
        AddLayer(prints, n, q, layers', order', cur0, done0, r, layer, r);
        order' := order' + layer;
        layers' := layers' + [layer];
      }
      if layer == [] {
        assert processed' == done0;
        DrainEnds(prints, n, q, cur', processed', r);
        break;
      }
    }
  }

  // Marking.

  ghost predicate AllMarked(prints: Circuit, cur: seq<nat>, marked: seq<bool>, i: nat) {
    |marked| == |cur| && forall w: nat :: w < i && w < |cur| && cur[w] < |OnWire(prints, w)| ==> marked[w]
  }

  ghost predicate MarkedAtGates(prints: Circuit, cur: seq<nat>, marked: seq<bool>) {
    |marked| == |cur| && forall w: nat :: w < |cur| && marked[w] ==> cur[w] < |OnWire(prints, w)|
  }

  /** Marking one more wire of gate `x` takes it off the wires still awaited. */
  lemma MarkStep(prints: Circuit, n: nat, cur: seq<nat>, marked: seq<bool>, reached: map<nat, nat>, done: set<nat>, w: nat, x: nat)
    requires Tally(prints, cur, marked, reached, done) && w < |cur| && !marked[w]
    requires x < |prints| && x !in done && Head(prints, cur, w, x) && w in prints[x]
    ensures |prints[x]| > 0 && (x in reached ==> reached[x] > 0)
    ensures Tally(prints, cur, marked[w := true], reached[x := (if x in reached then reached[x] else |prints[x]|) - 1], done)
  {
    var marked' := marked[w := true];
    var a, b := Waiting(prints, cur, marked, x), Waiting(prints, cur, marked', x);
    assert Counted(prints, cur, marked, reached, x);
    assert w in a && b == a - {w};
    var reached' := reached[x := (if x in reached then reached[x] else |prints[x]|) - 1];
    forall y: nat | y < |prints| && y !in done
      ensures Counted(prints, cur, marked', reached', y)
    {
      if y != x {
        assert Counted(prints, cur, marked, reached, y);
        assert Waiting(prints, cur, marked', y) == Waiting(prints, cur, marked, y);
      }
    }
  }

  lemma TallySize(prints: Circuit, cur: seq<nat>, marked: seq<bool>, reached: map<nat, nat>, done: set<nat>)
    requires Tally(prints, cur, marked, reached, done)
    ensures |marked| == |cur|
  {
  }

  lemma HeadNotDone(prints: Circuit, n: nat, cur: seq<nat>, done: set<nat>, w: nat, x: nat)
    requires Consistent(prints, n, cur, done) && Head(prints, cur, w, x) && x < |prints| && w in prints[x]
    ensures x !in done
  {
    HeadSplits(prints, n, cur, done, w, x, x);
  }

  method Mark(g: CircuitGraph, it: Iterator, ids: map<nat, nat>, marked: seq<bool>, reached: map<nat, nat>,
              ghost cur: seq<nat>, ghost done: set<nat>)
    returns (marked': seq<bool>, reached': map<nat, nat>)
    requires Cursors(g, it, cur) && Numbered(g, ids) && Proper(g.prints, g.Wires())
    requires Consistent(g.prints, g.Wires(), cur, done) && Tally(g.prints, cur, marked, reached, done)
    requires MarkedAtGates(g.prints, cur, marked)
    ensures Tally(g.prints, cur, marked', reached', done) && AllMarked(g.prints, cur, marked', |cur|)
    ensures MarkedAtGates(g.prints, cur, marked')
  {
    hide Cursors, Consistent, Tally, Proper, Numbered;
    ghost var prints, n := g.prints, g.Wires();
    marked', reached' := marked, reached;
    CursorSize(g, it, cur);
    TallySize(prints, cur, marked, reached, done);
    for i := 0 to g.qubits + g.cbits
      invariant |marked'| == |cur| && Tally(prints, cur, marked', reached', done)
      invariant AllMarked(prints, cur, marked', i) && MarkedAtGates(prints, cur, marked')
    {
      var isGate, x, bits := Peek(g, it, ids, cur, i);
      if isGate && !marked'[i] {
        HeadNotDone(prints, n, cur, done, i, x);
        MarkStep(prints, n, cur, marked', reached', done, i, x);
        marked' := marked'[i := true];
        var count := if x in reached' then reached'[x] else bits;
        reached' := reached'[x := count - 1];
      }
    }
  }

  // Emitting what is ready.

  /** Once everything at a cursor is marked, a counter is zero exactly when its gate is ready. */
  lemma ReadyIffZero(prints: Circuit, n: nat, cur: seq<nat>, marked: seq<bool>, reached: map<nat, nat>, done: set<nat>, w: nat, x: nat)
    requires Proper(prints, n) && Consistent(prints, n, cur, done)
    requires Tally(prints, cur, marked, reached, done) && AllMarked(prints, cur, marked, |cur|)
    requires w < |cur| && x < |prints| && Head(prints, cur, w, x) && w in prints[x]
    ensures x !in done && x in reached && (reached[x] == 0 <==> Ready(prints, cur, x))
  {
    HeadNotDone(prints, n, cur, done, w, x);
    assert Counted(prints, cur, marked, reached, x);
    assert w !in Waiting(prints, cur, marked, x);
    if Ready(prints, cur, x) {
      assert Waiting(prints, cur, marked, x) == {};
    } else {
      var v :| v in prints[x] && !Head(prints, cur, v, x);
      assert v in Waiting(prints, cur, marked, x);
    }
  }

  /** The gate under the cursor of wire `w` is ready. */
  ghost predicate ReadyHead(prints: Circuit, cur: seq<nat>, w: nat) {
    exists x: nat :: x < |prints| && Head(prints, cur, w, x) && Ready(prints, cur, x)
  }

  ghost predicate Stepped(prints: Circuit, cur: seq<nat>, cur': seq<nat>, marked: seq<bool>, marked': seq<bool>, i: nat) {
    && |cur'| == |cur| == |marked| == |marked'|
    && forall w: nat :: w < |cur| ==>
         if w < i && ReadyHead(prints, cur, w) then cur'[w] == cur[w] + 1 && !marked'[w]
         else cur'[w] == cur[w] && marked'[w] == marked[w]
  }

  /** The ready gates with a wire below `i`, each once. */
  ghost predicate Batch(prints: Circuit, cur: seq<nat>, layer: seq<nat>, i: nat) {
    && Distinct(layer) && InWireOrder(prints, layer)
    && (forall k :: 0 <= k < |layer| ==> layer[k] < |prints| && Ready(prints, cur, layer[k]))
    && forall x: nat :: x < |prints| && Ready(prints, cur, x) ==> (x in layer <==> Touches(prints, x, i))
  }

  ghost predicate Touches(prints: Circuit, x: nat, i: nat)
    requires x < |prints|
  {
    exists w: nat :: w < i && w in prints[x]
  }

  lemma BatchStep(prints: Circuit, cur: seq<nat>, layer: seq<nat>, i: nat, x: nat)
    requires Batch(prints, cur, layer, i) && x < |prints| && i in prints[x] && Ready(prints, cur, x)
    ensures Batch(prints, cur, if x in layer then layer else layer + [x], i + 1)
  {
    hide Head, InWireOrder;
    if x !in layer {
      BatchOrder(prints, cur, layer, i, x);
    }
    var l := if x in layer then layer else layer + [x];
    forall y: nat | y < |prints| && Ready(prints, cur, y)
      ensures y in l <==> Touches(prints, y, i + 1)
    {
      assert Touches(prints, y, i + 1) <==> Touches(prints, y, i) || i in prints[y];
      if i in prints[y] {
        assert Share(prints, x, y);
        ReadyApart(prints, 0, cur, x, y);
      }
    }
  }

  lemma BatchOrder(prints: Circuit, cur: seq<nat>, layer: seq<nat>, i: nat, x: nat)
    requires Batch(prints, cur, layer, i) && x < |prints| && i in prints[x] && Ready(prints, cur, x) && x !in layer
    ensures InWireOrder(prints, layer + [x])
  {
    hide Ready, Lowest;
    LowestTouched(prints, x, i);
    forall k: nat | k < |layer|
      ensures layer[k] < |prints| && Lowest(prints[layer[k]]) < Lowest(prints[x])
    {
      assert layer[k] in layer;
      LowestTouched(prints, layer[k], i);
    }
  }

  lemma LowestTouched(prints: Circuit, x: nat, i: nat)
    requires x < |prints|
    ensures prints[x] != {} ==> (Touches(prints, x, i) <==> Lowest(prints[x]) < i)
    ensures Touches(prints, x, i) ==> prints[x] != {}
    ensures i in prints[x] ==> Lowest(prints[x]) <= i
  {
  }

  lemma BatchSkip(prints: Circuit, cur: seq<nat>, layer: seq<nat>, i: nat)
    requires Batch(prints, cur, layer, i) && !ReadyHead(prints, cur, i)
    ensures Batch(prints, cur, layer, i + 1)
  {
  }

  lemma BatchIsReady(prints: Circuit, n: nat, cur: seq<nat>, layer: seq<nat>)
    requires Proper(prints, n) && Batch(prints, cur, layer, n)
    ensures InWireOrder(prints, layer)
    ensures forall x: nat :: x in Members(layer) <==> x < |prints| && Ready(prints, cur, x)
  {
    hide Ready, InWireOrder;
    forall x: nat | x < |prints| && Ready(prints, cur, x)
      ensures x in layer
    {
      var w :| w in prints[x];
      assert Touches(prints, x, n);
    }
  }

  lemma SteppedHead(prints: Circuit, cur: seq<nat>, cur': seq<nat>, marked: seq<bool>, marked': seq<bool>, i: nat, x: nat)
    requires Stepped(prints, cur, cur', marked, marked', i) && i < |cur|
    ensures Head(prints, cur', i, x) <==> Head(prints, cur, i, x)
    ensures cur'[i] == cur[i]
  {
    hide ReadyHead;
  }

  ghost predicate AtEnd(prints: Circuit, cur: seq<nat>, i: nat) {
    forall w: nat :: w < i && w < |cur| ==> cur[w] >= |OnWire(prints, w)|
  }

  /** Emits every ready gate once and moves all its wires on; reports whether all wires have reached the output. */
  method EmitLayer(g: CircuitGraph, it: Iterator, ids: map<nat, nat>, marked: seq<bool>, reached: map<nat, nat>,
                   ghost cur: seq<nat>, processed: set<nat>)
    returns (layer: seq<nat>, stop: bool, processed': set<nat>, marked': seq<bool>, ghost cur': seq<nat>)
    requires Cursors(g, it, cur) && Numbered(g, ids) && Proper(g.prints, g.Wires())
    requires Consistent(g.prints, g.Wires(), cur, processed) && Tally(g.prints, cur, marked, reached, processed)
    requires AllMarked(g.prints, cur, marked, |cur|)
    modifies it
    ensures Cursors(g, it, cur') && Stepped(g.prints, cur, cur', marked, marked', g.Wires())
    ensures Batch(g.prints, cur, layer, g.Wires()) && processed' == processed + Members(layer)
    ensures stop <==> AtEnd(g.prints, cur', g.Wires())
  {
    hide Cursors, Consistent, Tally, Proper, Numbered, Batch, AllMarked, ReadyHead, Ready, Head;
    ghost var prints, n := g.prints, g.Wires();
    layer, stop, processed', marked', cur' := [], true, processed, marked, cur;
    CursorSize(g, it, cur);
    TallySize(prints, cur, marked, reached, processed);
    NoBatch(prints, cur);
    assert processed + Members([]) == processed;
    for i := 0 to g.qubits + g.cbits
      invariant Cursors(g, it, cur') && Stepped(prints, cur, cur', marked, marked', i)
      invariant Batch(prints, cur, layer, i) && processed' == processed + Members(layer)
      invariant stop <==> AtEnd(prints, cur', i)
    {
      var isGate, x, bits := Peek(g, it, ids, cur', i);
      SteppedHead(prints, cur, cur', marked, marked', i, x);
      ghost var cur0, marked0 := cur', marked';
      var ready := false;
      if isGate {
        ReadyIffZero(prints, n, cur, marked, reached, processed, i, x);
        ready := reached[x] == 0;
      }
      HeadReady(prints, cur, i, isGate, x, ready);
      if ready {
        BatchStep(prints, cur, layer, i, x);
        if x !in processed' {
          assert processed' + {x} == processed + Members(layer + [x]);
          layer := layer + [x];
          processed' := processed' + {x};
        }
        marked' := marked'[i := false];
        cur' := Advance(g, it, cur', i);
      } else {
        BatchSkip(prints, cur, layer, i);
      }
      var more, y, b := Peek(g, it, ids, cur', i);
      if more {
        stop := false;
      }
    }
  }

  lemma NoBatch(prints: Circuit, cur: seq<nat>)
    ensures Batch(prints, cur, [], 0)
  {
  }

  lemma HeadReady(prints: Circuit, cur: seq<nat>, i: nat, isGate: bool, x: nat, ready: bool)
    requires i < |cur| && (isGate <==> cur[i] < |OnWire(prints, i)|)
    requires isGate ==> x < |prints| && Head(prints, cur, i, x) && (ready <==> Ready(prints, cur, x))
    requires ready ==> isGate
    ensures ready <==> ReadyHead(prints, cur, i)
  {
  }

  lemma LayerConsistent(prints: Circuit, n: nat, cur: seq<nat>, cur': seq<nat>, marked: seq<bool>, marked': seq<bool>, done: set<nat>, layer: seq<nat>)
    requires Proper(prints, n) && Consistent(prints, n, cur, done) && Batch(prints, cur, layer, n)
    requires |cur| == n && Stepped(prints, cur, cur', marked, marked', n)
    ensures Consistent(prints, n, cur', done + Members(layer))
  {
    hide Ready, Head;
    BatchIsReady(prints, n, cur, layer);
    EmitReady(prints, n, cur, done, cur', Members(layer));
  }

  lemma ReadyHeadIs(prints: Circuit, cur: seq<nat>, w: nat, y: nat)
    requires Head(prints, cur, w, y) && y < |prints|
    ensures ReadyHead(prints, cur, w) <==> Ready(prints, cur, y)
  {
  }

  lemma LayerTally(prints: Circuit, n: nat, cur: seq<nat>, cur': seq<nat>, marked: seq<bool>, marked': seq<bool>, reached: map<nat, nat>,
                   done: set<nat>, layer: seq<nat>)
    requires Proper(prints, n) && Tally(prints, cur, marked, reached, done) && Batch(prints, cur, layer, n)
    requires |cur| == n && Stepped(prints, cur, cur', marked, marked', n)
    ensures Tally(prints, cur', marked', reached, done + Members(layer))
  {
    hide Ready, Distinct;
    BatchIsReady(prints, n, cur, layer);
    forall y: nat | y < |prints| && y !in done + Members(layer)
      ensures Counted(prints, cur', marked', reached, y)
    {
      assert Counted(prints, cur, marked, reached, y);
      forall w: nat | w < n
        ensures marked'[w] && Head(prints, cur', w, y) <==> marked[w] && Head(prints, cur, w, y)
      {
        if Head(prints, cur, w, y) {
          ReadyHeadIs(prints, cur, w, y);
        }
      }
      assert Waiting(prints, cur', marked', y) == Waiting(prints, cur, marked, y);
    }
  }

  /** A wire that stays marked waits for a gate that is not ready, and so for one on several wires. */
  lemma LayerHeld(prints: Circuit, n: nat, cur: seq<nat>, cur': seq<nat>, marked: seq<bool>, marked': seq<bool>)
    requires Proper(prints, n) && MarkedAtGates(prints, cur, marked) && |cur| == n
    requires Stepped(prints, cur, cur', marked, marked', n)
    ensures Held(prints, cur', marked')
  {
    forall w: nat | w < n && marked'[w]
      ensures cur'[w] < |OnWire(prints, w)| && |prints[OnWire(prints, w)[cur'[w]]]| != 1
    {
      var x := OnWire(prints, w)[cur[w]];
      if |prints[x]| == 1 {
        SingleWire(prints[x], w);
        assert Ready(prints, cur, x) && Head(prints, cur, w, x);
      }
    }
  }

  lemma HeldAtGates(prints: Circuit, cur: seq<nat>, marked: seq<bool>)
    requires Held(prints, cur, marked)
    ensures MarkedAtGates(prints, cur, marked)
  {
  }

  /** All wires at their end means all gates emitted, and conversely. */
  lemma EndIsAll(prints: Circuit, n: nat, cur: seq<nat>, done: set<nat>)
    requires Proper(prints, n) && Consistent(prints, n, cur, done)
    ensures AtEnd(prints, cur, n) <==> forall g: nat :: g < |prints| ==> g in done
  {
    if AtEnd(prints, cur, n) {
      forall g: nat | g < |prints|
        ensures g in done
      {
        var w :| w in prints[g];
        var k := PlaceOnWire(prints, w, g);
        assert Passed(prints, w, cur[w], done);
      }
    }
    if forall g: nat :: g < |prints| ==> g in done {
      forall w: nat | w < n && w < |cur|
        ensures cur[w] >= |OnWire(prints, w)|
      {
        assert Passed(prints, w, cur[w], done);
        var on := OnWire(prints, w);
        assert on != [] ==> on[|on| - 1] in done;
      }
    }
  }

  /** A controlled layer holds the gates one level deeper; it is empty only when everything is out. */
  lemma LayerFacts(prints: Circuit, n: nat, q: nat, cur: seq<nat>, done: set<nat>, r: nat, layer: seq<nat>)
    requires Proper(prints, n) && q <= n && Consistent(prints, n, cur, done) && Level(prints, q, done, r) && Batch(prints, cur, layer, n)
    ensures Begun(prints, q, done + Members(layer), r + 1)
    ensures Distinct(layer) && forall k :: 0 <= k < |layer| ==> layer[k] < |prints| && Ready(prints, cur, layer[k]) && Depth(prints, q, layer[k]) == r + 1
    ensures layer != [] ==> Controlled(prints, q, layer) && OneKind(prints, q, layer)
    ensures InWireOrder(prints, layer) && forall k: nat :: SweptIn(prints, q, layer, k)
    ensures layer == [] ==> forall g: nat :: g < |prints| ==> g in done
  {
    hide Ready, Depth, Consistent, Drained, Level, Begun, InWireOrder;
    BatchIsReady(prints, n, cur, layer);
    RoundEnds(prints, n, q, cur, done, r, Members(layer));
    forall k | 0 <= k < |layer|
      ensures Depth(prints, q, layer[k]) == r + 1 && !Drained(prints, q, layer[k])
    {
      ReadyIsNextDepth(prints, n, q, cur, done, r, layer[k]);
    }
    if layer != [] {
      assert !Drained(prints, q, layer[0]) && layer[0] in layer;
    }
    forall g: nat | g < |prints| && g !in done
      ensures layer != []
    {
      var f := SomethingReady(prints, n, cur, done, g);
      assert f in Members(layer);
    }
  }

  lemma BegunDrains(prints: Circuit, q: nat, done: set<nat>, r: nat)
    requires Begun(prints, q, done, r)
    ensures Draining(prints, q, done, r)
  {
    hide Depth, Drained;
  }

  lemma NothingBegun(prints: Circuit, n: nat, q: nat, cur: seq<nat>, marked: seq<bool>)
    requires Proper(prints, n) && cur == seq(n, _ => 0) && marked == seq(n, _ => false)
    ensures Consistent(prints, n, cur, {}) && Begun(prints, q, {}, 0)
    ensures Tally(prints, cur, marked, map[], {}) && Held(prints, cur, marked) && Emitted(prints, q, [], [], {}, 0) && Trailing(prints, q, []) == 0
  {
  }

  lemma AllEmitted(prints: Circuit, n: nat, q: nat, layers: seq<seq<nat>>, order: seq<nat>, cur: seq<nat>, done: set<nat>, r: nat)
    requires Emitted(prints, q, layers, order, done, r) && Consistent(prints, n, cur, done)
    requires forall g: nat :: g < |prints| ==> g in done
    ensures IsLayering(prints, layers) && order == Flatten(layers) && ByStage(prints, q, layers)
  {
    hide Layered, AtDepth, Unmixed, Graded, Flatten;
    forall i | 0 <= i < |order|
      ensures order[i] < |prints|
    {
      assert order[i] in order;
    }
    DistinctBound(order, |prints|);
    CoverBound(order, |prints|);
  }

  lemma StagesAreUnmixed(prints: Circuit, q: nat, layers: seq<seq<nat>>)
    requires ByStage(prints, q, layers)
    ensures Unmixed(prints, q, layers)
  {
  }

  /** CNOTLBOWrapperPass::generate. */
  method Generate(g: CircuitGraph, ids: map<nat, nat>) returns (layers: seq<seq<nat>>, order: seq<nat>)
    requires g.Valid() && Numbered(g, ids) && Proper(g.prints, g.Wires())
    ensures IsLayering(g.prints, layers) && order == Flatten(layers)
    ensures ByStage(g.prints, g.qubits, layers) && Staged(g.prints, g.qubits, order)
    ensures forall i: nat :: i < |layers| ==> layers[i] != [] && (forall x: nat :: x < |layers[i]| ==> layers[i][x] < |g.prints|)
    ensures forall i: nat, x: nat, y: nat, w: nat ::
      i < |layers| && x < |layers[i]| && y < |layers[i]| && w < g.qubits && g.prints[layers[i][x]] == {w} ==>
        exists v: nat :: v < g.qubits && g.prints[layers[i][y]] == {v}
  {
    hide Woven, Cursors, Consistent, Tally, Held, Proper, Numbered, Emitted, Begun, Draining, Level, Batch, AllMarked, Stepped, AtEnd, Ready, Distinct, MarkedAtGates, IsLayering, AtDepth, Unmixed, OneKind, Controlled, ByStage, Staged, Graded, Trailing, InWireOrder, SweptIn, SweepsDone;
    ghost var prints, n, q := g.prints, g.Wires(), g.qubits;
    var marked: seq<bool> := seq(g.qubits + g.cbits, _ => false);
    var reached: map<nat, nat> := map[];
    var processed: set<nat> := {};
    layers, order := [], [];
    ghost var cur, r: nat := [], 0;
    var it;
    it, cur := Begin(g);
    NothingBegun(prints, n, q, cur, marked);
    while true
      invariant Cursors(g, it, cur) && Consistent(prints, n, cur, processed) && Begun(prints, q, processed, r)
      invariant Tally(prints, cur, marked, reached, processed) && Held(prints, cur, marked)
      invariant Emitted(prints, q, layers, order, processed, r) && Trailing(prints, q, layers) == 0
      decreases |prints| - |processed|
    {
      ghost var atStart := processed;
      BegunDrains(prints, q, processed, r);
      NoSweepDone(prints, q, processed, r);
      processed, layers, order, cur := Drain(g, it, ids, marked, reached, cur, processed, layers, order, r);
      HeldAtGates(prints, cur, marked);
      CursorSize(g, it, cur);
      marked, reached := Mark(g, it, ids, marked, reached, cur, processed);
      ghost var cur0, marked0, drained := cur, marked, processed;
      var layer, stop;
      layer, stop, processed, marked, cur := EmitLayer(g, it, ids, marked, reached, cur, processed);
      LayerConsistent(prints, n, cur0, cur, marked0, marked, drained, layer);
      LayerTally(prints, n, cur0, cur, marked0, marked, reached, drained, layer);
      LayerHeld(prints, n, cur0, cur, marked0, marked);
      LayerFacts(prints, n, q, cur0, drained, r, layer);
      EndIsAll(prints, n, cur, processed);
      MoreEmitted(prints, n, cur0, drained, layer);
      SubsetSize(atStart, drained);
      if layer != [] {
        AddLayer(prints, n, q, layers, order, cur0, drained, r, layer, r + 1);
        order := order + layer;
        layers := layers + [layer];
        r := r + 1;
      }
      if stop {
        break;
      }
    }
    AllEmitted(prints, n, q, layers, order, cur, processed, r);
    LayersAreStaged(prints, q, layers);
    assert Unmixed(prints, q, layers) by { StagesAreUnmixed(prints, q, layers); }
    UnmixedByWires(prints, q, layers);
  }
}
