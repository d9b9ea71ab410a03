/**
  The circuit graph: every gate is a node threaded into one doubly linked list per wire it acts on.
  All wires share one input node and one output node, so links are looked up by wire. The program's
  step map is split into its two halves; an absent key stands for a null pointer.
 */
module Circuits {
  import opened Wires
  import opened Xbits

  datatype Kind = Input | Output | Gate

  class CircuitNode {
    const kind: Kind
    const node: nat
    var prev: map<nat, CircuitNode>
    var next: map<nat, CircuitNode>

    constructor (kind: Kind, node: nat)
      ensures this.kind == kind && this.node == node && prev == map[] && next == map[]
    {
      this.kind, this.node := kind, node;
      prev, next := map[], map[];
    }
  }

  // The structure as a value: the nodes of a graph, and a snapshot of the links between them.

  datatype Parts = Parts(input: CircuitNode, output: CircuitNode, gates: seq<CircuitNode>, prints: seq<set<nat>>)

  type Pointers = map<nat, CircuitNode>

  type Links = map<CircuitNode, Pointers>

  ghost function Put(m: Pointers, id: nat, x: CircuitNode): (r: Pointers)
    ensures r.Keys == m.Keys + {id}
    ensures r[id] == x && forall w :: w in m && w != id ==> r[w] == m[w]
  {
    var r: Pointers := m[id := x];
    r
  }

  ghost predicate Shape(p: Parts) {
    && p.input.kind == Input && p.output.kind == Output && |p.gates| == |p.prints|
    && (forall g: nat :: g < |p.gates| ==> p.gates[g].kind == Gate)
    && forall g: nat, h: nat :: g < h < |p.gates| ==> p.gates[g] != p.gates[h]
  }

  /** What an iterator meets on wire `w`: the input node, the gates in append order, the output node. */
  ghost function Stops(p: Parts, w: nat): (r: seq<CircuitNode>)
    requires Shape(p)
    ensures |r| == |OnWire(p.prints, w)| + 2 && r[0] == p.input && r[|r| - 1] == p.output
    ensures forall k: nat :: 0 < k < |r| - 1 ==> r[k] == p.gates[OnWire(p.prints, w)[k - 1]]
    ensures forall j: nat, k: nat :: j < k < |r| ==> r[j] != r[k]
  {
    var on := OnWire(p.prints, w);
    [p.input] + seq(|on|, i requires 0 <= i < |on| && Shape(p) && on == OnWire(p.prints, w) => p.gates[on[i]]) + [p.output]
  }

  /** Two neighbouring stops on a wire point at each other. */
  ghost predicate Link(next: Links, prev: Links, w: nat, a: CircuitNode, b: CircuitNode) {
    a in next && w in next[a] && next[a][w] == b && b in prev && w in prev[b] && prev[b][w] == a
  }

  ghost predicate Threaded(stops: seq<CircuitNode>, next: Links, prev: Links, w: nat) {
    forall k: nat :: k + 1 < |stops| ==> Link(next, prev, w, stops[k], stops[k + 1])
  }

  lemma StopsWiden(p: Parts, id: nat, w: nat)
    requires Shape(p) && p.prints != [] && id !in p.prints[|p.prints| - 1]
    ensures var n := |p.prints| - 1; var p' := p.(prints := p.prints[n := p.prints[n] + {id}]);
            && Shape(p')
            && Stops(p', w) == if w == id then Stops(p, w)[..|Stops(p, w)| - 1] + [p.gates[n], p.output] else Stops(p, w)
  {
    OnWireWiden(p.prints, id, w);
  }

  lemma StopsGrow(p: Parts, x: CircuitNode, w: nat)
    requires Shape(p) && x.kind == Gate && x !in p.gates
    ensures var p' := p.(gates := p.gates + [x], prints := p.prints + [{}]);
            Shape(p') && Stops(p', w) == Stops(p, w)
  {
    OnWireSnoc(p.prints, {}, w);
  }

  lemma NewestNotOn(p: Parts, id: nat)
    requires Shape(p) && p.gates != [] && id !in p.prints[|p.gates| - 1]
    ensures p.gates[|p.gates| - 1] !in Stops(p, id)
    ensures p.gates[|p.gates| - 1] != p.output
  {
  }

  // Hooking a node in between the last stop and the output node.

  ghost function HookedNext(next: Links, last: CircuitNode, x: CircuitNode, output: CircuitNode, id: nat): (r: Links)
    requires last in next && x in next
    ensures r.Keys == next.Keys
    ensures forall a :: a in next ==> r[a] == if a == x then Put(next[a], id, output) else if a == last then Put(next[a], id, x) else next[a]
  {
    next[last := Put(next[last], id, x)][x := Put(next[x], id, output)]
  }

  ghost function HookedPrev(prev: Links, last: CircuitNode, x: CircuitNode, output: CircuitNode, id: nat): (r: Links)
    requires output in prev && x in prev && output != x
    ensures r.Keys == prev.Keys
    ensures forall a :: a in prev ==> r[a] == if a == x then Put(prev[a], id, last) else if a == output then Put(prev[a], id, x) else prev[a]
  {
    prev[x := Put(prev[x], id, last)][output := Put(prev[output], id, x)]
  }

  lemma OtherWire(stops: seq<CircuitNode>, next: Links, prev: Links, w: nat, last: CircuitNode, x: CircuitNode, output: CircuitNode, id: nat)
    requires Threaded(stops, next, prev, w) && w != id
    requires last in next && x in next && last != x && output in prev && x in prev && output != x
    ensures Threaded(stops, HookedNext(next, last, x, output, id), HookedPrev(prev, last, x, output, id), w)
  {
    forall k: nat | k + 1 < |stops|
      ensures Link(HookedNext(next, last, x, output, id), HookedPrev(prev, last, x, output, id), w, stops[k], stops[k + 1])
    {
      assert Link(next, prev, w, stops[k], stops[k + 1]);
    }
  }

  lemma HookedWire(stops: seq<CircuitNode>, next: Links, prev: Links, x: CircuitNode, id: nat)
    requires |stops| >= 2 && Threaded(stops, next, prev, id) && x !in stops && x in next && x in prev
    requires forall j: nat, k: nat :: j < k < |stops| ==> stops[j] != stops[k]
    requires stops[|stops| - 2] in next && stops[|stops| - 1] in prev
    ensures var last, output := stops[|stops| - 2], stops[|stops| - 1];
            Threaded(stops[..|stops| - 1] + [x, output], HookedNext(next, last, x, output, id), HookedPrev(prev, last, x, output, id), id)
  {
  }

  /** The footprints of the gates that are sound for `n` wires, and the links that thread them. */
  ghost predicate Woven(p: Parts, n: nat, next: Links, prev: Links) {
    && Shape(p)
    && (forall g: nat, w :: g < |p.prints| && w in p.prints[g] ==> w < n)
    && p.input in next && p.input in prev && p.output in next && p.output in prev
    && (forall w: nat :: w < n ==> Threaded(Stops(p, w), next, prev, w))
    && forall g: nat :: g < |p.gates| ==> p.gates[g] in next && p.gates[g] in prev && Footprint(next[p.gates[g]], prev[p.gates[g]], p.prints[g])
  }

  /** A gate node has a step for exactly the wires it acts on. */
  ghost predicate Footprint(next: Pointers, prev: Pointers, wires: set<nat>) {
    next.Keys == wires && prev.Keys == wires
  }

  /** Hooking the newest node in on one more wire keeps the weave. */
  lemma HookKeeps(p: Parts, n: nat, next: Links, prev: Links, x: CircuitNode, id: nat) returns (last: CircuitNode)
    requires Woven(p, n, next, prev) && p.gates != [] && x == p.gates[|p.gates| - 1] && id < n && |p.prints| == |p.gates|
    requires id !in p.prints[|p.gates| - 1]
    ensures last in next && last in prev && x in next && x in prev && p.output in next && p.output in prev
    ensures last != x && x != p.output && last != p.output
    ensures id in prev[p.output] && prev[p.output][id] == last
    ensures Woven(Widened(p, id), n, HookedNext(next, last, x, p.output, id), HookedPrev(prev, last, x, p.output, id))
  {
    hide Shape, Stops, OnWire, Threaded, HookedNext, HookedPrev, Footprint, Put;
    var s := Stops(p, id);
    LastLink(s, next, prev, id);
    NewestNotOn(p, id);
    last := s[|s| - 2];
    var p' := Widened(p, id);
    var next', prev' := HookedNext(next, last, x, p.output, id), HookedPrev(prev, last, x, p.output, id);
    StopsWiden(p, id, id);
    forall w: nat | w < n
      ensures Threaded(Stops(p', w), next', prev', w)
    {
      StopsWiden(p, id, w);
      if w == id {
        HookedWire(s, next, prev, x, id);
      } else {
        OtherWire(Stops(p, w), next, prev, w, last, x, p.output, id);
      }
    }
    FootprintsKept(p, next, prev, last, id);
  }

  /** The last gate's footprint gains the wire `id`. */
  ghost function Widened(p: Parts, id: nat): Parts
    requires p.prints != []
  {
    var n := |p.prints| - 1;
    p.(prints := p.prints[n := p.prints[n] + {id}])
  }

  lemma PartSizes(p: Parts)
    requires Shape(p)
    ensures |p.gates| == |p.prints|
  {
  }

  lemma LastLink(stops: seq<CircuitNode>, next: Links, prev: Links, w: nat)
    requires |stops| >= 2 && Threaded(stops, next, prev, w)
    ensures Link(next, prev, w, stops[|stops| - 2], stops[|stops| - 1])
  {
    var k := |stops| - 2;
    assert Link(next, prev, w, stops[k], stops[k + 1]);
  }

  lemma FootprintsKept(p: Parts, next: Links, prev: Links, last: CircuitNode, id: nat)
    requires Shape(p) && p.gates != [] && last in next && p.output in prev && last != p.gates[|p.gates| - 1]
    requires forall g: nat :: g < |p.gates| ==> p.gates[g] in next && p.gates[g] in prev && Footprint(next[p.gates[g]], prev[p.gates[g]], p.prints[g])
    requires last == p.input || exists h: nat :: h < |p.gates| && last == p.gates[h] && id in p.prints[h]
    ensures var n := |p.gates| - 1; var x := p.gates[n];
            forall g: nat :: g < |p.gates| ==>
              Footprint(HookedNext(next, last, x, p.output, id)[p.gates[g]], HookedPrev(prev, last, x, p.output, id)[p.gates[g]],
                        p.prints[n := p.prints[n] + {id}][g])
  {
    hide HookedNext, HookedPrev;
  }

  /** A node with no wires yet can be added without touching any link. */
  lemma GrowKeeps(p: Parts, n: nat, next: Links, prev: Links, x: CircuitNode, next': Links, prev': Links)
    requires Woven(p, n, next, prev) && x.kind == Gate && x !in p.gates && x !in next && x !in prev
    requires next' == next[x := map[]] && prev' == prev[x := map[]]
    ensures Woven(p.(gates := p.gates + [x], prints := p.prints + [{}]), n, next', prev')
  {
    hide Shape, Stops, OnWire, Threaded;
    PartSizes(p);
    StopsGrow(p, x, 0);
    forall w: nat | w < n
      ensures Threaded(Stops(p.(gates := p.gates + [x], prints := p.prints + [{}]), w), next', prev', w)
    {
      StopsGrow(p, x, w);
      StillThreaded(Stops(p, w), next, prev, x, w);
    }
  }

  lemma StillThreaded(stops: seq<CircuitNode>, next: Links, prev: Links, x: CircuitNode, w: nat)
    requires Threaded(stops, next, prev, w) && x !in next && x !in prev
    ensures Threaded(stops, next[x := map[]], prev[x := map[]], w)
  {
  }

  /** Every wire of an empty graph runs straight from the input to the output. */
  lemma EmptyWoven(p: Parts, n: nat, next: Links, prev: Links)
    requires p.gates == [] && p.prints == [] && p.input.kind == Input && p.output.kind == Output
    requires p.input in next && p.input in prev && p.output in next && p.output in prev
    requires forall w: nat :: w < n ==> Link(next, prev, w, p.input, p.output)
    ensures Woven(p, n, next, prev)
  {
  }

  class CircuitGraph {
    const qubits: nat
    const cbits: nat
    const input: CircuitNode
    const output: CircuitNode
    ghost var gates: seq<CircuitNode>
    ghost var prints: seq<set<nat>>
    ghost var nodes: set<CircuitNode>

    ghost function Wires(): nat {
      qubits + cbits
    }

    ghost function P(): Parts
      reads this
    {
      Parts(input, output, gates, prints)
    }

    ghost function Nexts(): (r: Links)
      reads this, nodes
      ensures r.Keys == nodes
    {
      map a | a in nodes :: a.next
    }

    ghost function Prevs(): (r: Links)
      reads this, nodes
      ensures r.Keys == nodes
    {
      map a | a in nodes :: a.prev
    }

    ghost predicate Valid()
      reads this, nodes
    {
      Woven(P(), Wires(), Nexts(), Prevs())
    }

    constructor (qubits: nat, cbits: nat)
      ensures Valid() && this.qubits == qubits && this.cbits == cbits && prints == []
      ensures fresh(nodes)
    {
      this.qubits, this.cbits := qubits, cbits;
      input := new CircuitNode(Input, 0);
      output := new CircuitNode(Output, 0);
      gates, prints, nodes := [], [], {input, output};
      new;
      for i := 0 to qubits + cbits
        invariant gates == [] && prints == [] && nodes == {input, output}
        invariant forall w: nat :: w < i ==> Link(Nexts(), Prevs(), w, input, output)
      {
        ghost var next, prev := Nexts(), Prevs();
        input.next := input.next[i := output];
        output.prev := output.prev[i := input];
        forall w: nat | w < i + 1
          ensures Link(Nexts(), Prevs(), w, input, output)
        {
          assert w < i ==> Link(next, prev, w, input, output);
        }
      }
      EmptyWoven(P(), Wires(), Nexts(), Prevs());
    }

    // The four pointer writes that put `newNode` between `lastNode` and the output node.

    method HookNext(lastNode: CircuitNode, newNode: CircuitNode, id: nat)
      requires lastNode in nodes && newNode in nodes
      modifies lastNode`next, newNode`next
      ensures unchanged(this) && Prevs() == old(Prevs())
      ensures Nexts() == HookedNext(old(Nexts()), lastNode, newNode, output, id)
    {
      lastNode.next := lastNode.next[id := newNode];
      newNode.next := newNode.next[id := output];
      assert newNode.next == Put(old(newNode.next), id, output);
    }

    method HookPrev(lastNode: CircuitNode, newNode: CircuitNode, id: nat)
      requires newNode in nodes && output in nodes && newNode != output
      modifies newNode`prev, output`prev
      ensures unchanged(this) && Nexts() == old(Nexts())
      ensures Prevs() == HookedPrev(old(Prevs()), lastNode, newNode, output, id)
    {
      newNode.prev := newNode.prev[id := lastNode];
      output.prev := output.prev[id := newNode];
    }

    ghost method Widen(id: nat)
      requires |prints| == |gates| > 0
      modifies this`prints
      ensures prints == old(prints)[|gates| - 1 := old(prints[|gates| - 1]) + {id}]
      ensures P() == Widened(old(P()), id)
      ensures Nexts() == old(Nexts()) && Prevs() == old(Prevs())
    {
      prints := prints[|gates| - 1 := prints[|gates| - 1] + {id}];
    }

    method Hook(lastNode: CircuitNode, newNode: CircuitNode, id: nat)
      requires lastNode in nodes && newNode in nodes && output in nodes && newNode != output && |prints| == |gates| > 0
      modifies this`prints, lastNode`next, newNode, output`prev
      ensures prints == old(prints)[|gates| - 1 := old(prints[|gates| - 1]) + {id}] && P() == Widened(old(P()), id)
      ensures Nexts() == HookedNext(old(Nexts()), lastNode, newNode, output, id)
      ensures Prevs() == HookedPrev(old(Prevs()), lastNode, newNode, output, id)
    {
      hide P, Nexts, Prevs, HookedNext, HookedPrev, Widened;
      Widen(id);
      HookNext(lastNode, newNode, id);
      HookPrev(lastNode, newNode, id);
    }

    ghost predicate IsLoose(x: CircuitNode)
      reads this, nodes
    {
      Loose(P(), Wires(), Prevs(), x)
    }

    ghost predicate IsTangled(x: CircuitNode, d: nat)
      reads this, nodes
    {
      Tangled(Prevs(), output, x, d)
    }

    /** One pass of append's loop: hooks the newest node in at the end of wire `id`; a second time tangles the wire. */
    method Thread(newNode: CircuitNode, id: nat)
      requires IsLoose(newNode) && id < Wires() && |prints| == |gates| > 0
      modifies this`prints, nodes
      ensures IsLoose(newNode) && prints == old(prints)[|gates| - 1 := old(prints[|gates| - 1]) + {id}]
      ensures old(Valid() && id !in prints[|gates| - 1]) ==> Valid()
      ensures old(Valid() && id in prints[|gates| - 1]) ==> IsTangled(newNode, id)
      ensures forall d: nat :: old(IsTangled(newNode, d)) ==> IsTangled(newNode, d)
    {
      hide Valid, Woven, P, Nexts, Prevs, HookedNext, HookedPrev, Widened, Loose, Tangled, Put, OnWire, Stops;
      ghost var p, next, prev := P(), Nexts(), Prevs();
      LooseEnd(newNode, id);
      var lastNode := output.prev[id];
      HookedLoose(p, Wires(), next, prev, newNode, id);
      ghost var was := Valid();
      if was {
        IsWoven();
      }
      Hook(lastNode, newNode, id);
      if was && id !in old(prints[|gates| - 1]) {
        IsValid();
      }
    }

    lemma LooseEnd(x: CircuitNode, id: nat)
      requires IsLoose(x) && id < Wires()
      ensures x in nodes && output in nodes && x != output && id in output.prev
      ensures output.prev[id] in nodes && output.prev[id] == Prevs()[output][id] && P().output == output && P().prints == prints && P().gates == gates
    {
    }

    lemma IsWoven()
      requires Valid()
      ensures Woven(P(), Wires(), Nexts(), Prevs())
    {
    }

    lemma IsValid()
      requires Woven(P(), Wires(), Nexts(), Prevs())
      ensures Valid()
    {
    }

    ghost method Add(newNode: CircuitNode)
      requires Valid() && newNode.kind == Gate && newNode !in nodes && newNode.next == map[] && newNode.prev == map[]
      modifies this
      ensures Valid() && gates == old(gates) + [newNode] && prints == old(prints) + [{}] && nodes == old(nodes) + {newNode}
    {
      hide Woven;
      WovenNodes(P(), Wires(), Nexts(), Prevs());
      ghost var p, next, prev := P(), Nexts(), Prevs();
      gates, prints, nodes := gates + [newNode], prints + [{}], nodes + {newNode};
      assert Nexts() == next[newNode := map[]] && Prevs() == prev[newNode := map[]];
      GrowKeeps(p, Wires(), next, prev, newNode, Nexts(), Prevs());
    }

    /** Appends a gate to the given bits; the program aborts on a bit out of range. A bit given twice spoils the graph. */
    method Append(xbits: seq<Xbit>, node: nat) returns (ok: bool)
      requires Valid()
      modifies this, nodes
      ensures ok <==> forall i :: 0 <= i < |xbits| ==> (xbits[i].Q? ==> xbits[i].id < qubits) && (xbits[i].C? ==> xbits[i].id < cbits)
      ensures ok ==> (Valid() <==> AllApart(xbits, qubits))
      ensures ok ==> prints == old(prints) + [WiresOf(xbits, qubits)]
      ensures ok ==> |gates| == |old(gates)| + 1 && gates[..|old(gates)|] == old(gates) && gates[|old(gates)|].node == node
      ensures ok ==> |prints| == |gates| && forall w: nat ::
        w in prints[|gates| - 1] <==> if w < qubits then Q(w) in xbits else C(w - qubits) in xbits
      ensures fresh(nodes - old(nodes))
    {
      hide Woven, P, Nexts, Prevs, Valid, IsLoose, IsTangled, InRange, WiresOf, AllApart;
      RangeByKind(xbits, qubits, cbits);
      var newNode := new CircuitNode(Gate, node);
      Add(newNode);
      ghost var g := |old(gates)|;
      SizesOf();
      ValidIsLoose(newNode);
      ghost var twice := false;
      ghost var d: nat := 0;
      assert xbits[..0] == [] && WiresOf([], qubits) == {};
      for i := 0 to |xbits|
        invariant gates == old(gates) + [newNode] && |old(prints)| == g && nodes == old(nodes) + {newNode}
        invariant IsLoose(newNode) && prints == old(prints) + [WiresOf(xbits[..i], qubits)]
        invariant forall k :: 0 <= k < i ==> InRange(xbits[k], qubits, cbits)
        invariant twice <==> !AllApart(xbits[..i], qubits)
        invariant if twice then IsTangled(newNode, d) else Valid()
      {
        if !InRange(xbits[i], qubits, cbits) {
          return false;
        }
        var id := RealId(xbits[i], qubits);
        WiresSnoc(xbits, qubits, i);
        ghost var again := id in prints[g];
        Thread(newNode, id);
        if !twice && again {
          twice, d := true, id;
        }
      }
      assert xbits[..|xbits|] == xbits;
      WiresByKind(xbits, qubits, cbits);
      if twice {
        TangledIsInvalid(newNode, d);
      }
      ok := true;
    }

    lemma ValidIsLoose(x: CircuitNode)
      requires Valid() && gates != [] && x == gates[|gates| - 1]
      ensures IsLoose(x)
    {
      hide Stops, OnWire;
      forall w: nat | w < Wires()
        ensures w in Prevs()[output] && Prevs()[output][w] in Prevs()
      {
        LastStop(P(), Wires(), Nexts(), Prevs(), w);
      }
    }

    lemma TangledIsInvalid(x: CircuitNode, d: nat)
      requires IsLoose(x) && IsTangled(x, d)
      ensures !Valid()
    {
      hide Woven;
      if Valid() {
        NoLoop(P(), Wires(), Nexts(), Prevs(), |gates| - 1, d);
      }
    }

    lemma SizesOf()
      requires Valid()
      ensures |gates| == |prints|
    {
    }
  }

  /** Two neighbouring stops of a valid graph, read off the nodes themselves. */
  lemma StopLinks(g: CircuitGraph, w: nat, k: nat)
    requires g.Valid() && w < g.Wires()
    ensures Shape(g.P()) && |Stops(g.P(), w)| >= 2
    ensures k + 1 < |Stops(g.P(), w)| ==>
      var a, b := Stops(g.P(), w)[k], Stops(g.P(), w)[k + 1];
      w in a.next && a.next[w] == b && w in b.prev && b.prev[w] == a
  {
    hide OnWire, Stops;
    assert Threaded(Stops(g.P(), w), g.Nexts(), g.Prevs(), w);
    if k + 1 < |Stops(g.P(), w)| {
      assert Link(g.Nexts(), g.Prevs(), w, Stops(g.P(), w)[k], Stops(g.P(), w)[k + 1]);
    }
  }

  lemma WovenNodes(p: Parts, n: nat, next: Links, prev: Links)
    requires Woven(p, n, next, prev)
    ensures |p.gates| == |p.prints| && forall g: nat :: g < |p.gates| ==> p.gates[g] in next
  {
  }

  /** What a pass of append's loop needs of the links: every wire has a node before the output. */
  ghost predicate Loose(p: Parts, n: nat, prev: Links, x: CircuitNode) {
    && x in prev && p.output in prev && x != p.output && |p.prints| == |p.gates| > 0 && x == p.gates[|p.gates| - 1]
    && forall w: nat :: w < n ==> w in prev[p.output] && prev[p.output][w] in prev
  }

  /** Going back along wire `d` from the end leads to `x` and never leaves it. */
  ghost predicate Tangled(prev: Links, output: CircuitNode, x: CircuitNode, d: nat) {
    x in prev && output in prev && d in prev[x] && prev[x][d] == x && d in prev[output] && prev[output][d] == x
  }

  lemma HookedLoose(p: Parts, n: nat, next: Links, prev: Links, x: CircuitNode, id: nat)
    requires Loose(p, n, prev, x) && id < n && next.Keys == prev.Keys
    ensures p.output in prev && id in prev[p.output] && prev[p.output][id] in next && x in next && x in prev && x != p.output && p.prints != []
    ensures var last := prev[p.output][id];
      var next', prev' := HookedNext(next, last, x, p.output, id), HookedPrev(prev, last, x, p.output, id);
      && Loose(Widened(p, id), n, prev', x)
      && (forall d: nat :: Tangled(prev, p.output, x, d) ==> Tangled(prev', p.output, x, d))
      && (Woven(p, n, next, prev) && id in p.prints[|p.prints| - 1] ==> Tangled(prev', p.output, x, id))
      && (Woven(p, n, next, prev) && id !in p.prints[|p.prints| - 1] ==> Woven(Widened(p, id), n, next', prev'))
  {
    hide Woven;
    if Woven(p, n, next, prev) {
      if id in p.prints[|p.prints| - 1] {
        NewestLast(p, n, next, prev, id);
      } else {
        var last := HookKeeps(p, n, next, prev, x, id);
      }
    }
  }

  /** The node before the output, on any wire of a woven graph. */
  lemma LastStop(p: Parts, n: nat, next: Links, prev: Links, w: nat)
    requires Woven(p, n, next, prev) && w < n
    ensures Shape(p) && p.output in prev && |Stops(p, w)| >= 2
    ensures w in prev[p.output] && prev[p.output][w] == Stops(p, w)[|Stops(p, w)| - 2] && prev[p.output][w] in next
  {
    hide Shape, Stops, OnWire;
    assert Threaded(Stops(p, w), next, prev, w);
    LastLink(Stops(p, w), next, prev, w);
  }

  /** If the newest gate is on a wire it is the last one there. */
  lemma NewestLast(p: Parts, n: nat, next: Links, prev: Links, id: nat)
    requires Woven(p, n, next, prev) && id < n && p.gates != [] && |p.prints| == |p.gates| && id in p.prints[|p.gates| - 1]
    ensures p.output in prev && id in prev[p.output] && prev[p.output][id] == p.gates[|p.gates| - 1]
  {
    LastStop(p, n, next, prev, id);
  }

  /** No gate of a woven graph precedes itself. */
  lemma NoLoop(p: Parts, n: nat, next: Links, prev: Links, g: nat, d: nat)
    requires Woven(p, n, next, prev) && g < |p.gates| && p.gates[g] in prev && d in prev[p.gates[g]]
    ensures prev[p.gates[g]][d] != p.gates[g]
  {
    hide OnWire;
    PartSizes(p);
    assert Footprint(next[p.gates[g]], prev[p.gates[g]], p.prints[g]);
    OnWireComplete(p.prints, d, g);
    var on, s := OnWire(p.prints, d), Stops(p, d);
    var k :| 0 <= k < |on| && on[k] == g;
    assert Threaded(s, next, prev, d);
    assert Link(next, prev, d, s[k], s[k + 1]) && s[k + 1] == p.gates[g];
  }

  /** A cursor per wire. */
  class Iterator {
    var ptr: seq<CircuitNode>
    ghost var pos: seq<nat>

    ghost predicate On(g: CircuitGraph)
      requires g.Valid()
      reads this, g, g.nodes
    {
      && |ptr| == |pos| == g.Wires()
      && forall w: nat :: w < |pos| ==> pos[w] < |Stops(g.P(), w)| && ptr[w] == Stops(g.P(), w)[pos[w]]
    }

    constructor (g: CircuitGraph)
      requires g.Valid()
      ensures On(g) && pos == seq(g.Wires(), _ => 0)
    {
      ptr := seq(g.qubits + g.cbits, _ => g.input);
      pos := seq(g.qubits + g.cbits, _ => 0);
    }

    method Next(g: CircuitGraph, id: nat) returns (moved: bool)
      requires g.Valid() && On(g) && id < g.Wires()
      modifies this
      ensures g.Valid() && On(g) && moved == (old(pos[id]) + 1 < |Stops(g.P(), id)|)
      ensures pos == if moved then old(pos)[id := old(pos[id]) + 1] else old(pos)
    {
      hide Woven, Shape, OnWire, Stops;
      StopLinks(g, id, pos[id]);
      StopKinds(g.P(), id, pos[id]);
      if ptr[id].kind == Output {
        return false;
      }
      ptr := ptr[id := ptr[id].next[id]];
      pos := pos[id := pos[id] + 1];
      moved := true;
    }

    method Back(g: CircuitGraph, id: nat) returns (moved: bool)
      requires g.Valid() && On(g) && id < g.Wires()
      modifies this
      ensures g.Valid() && On(g) && moved == (old(pos[id]) > 0)
      ensures pos == if moved then old(pos)[id := old(pos[id]) - 1] else old(pos)
    {
      hide Woven, Shape, OnWire, Stops;
      StopLinks(g, id, if pos[id] == 0 then 0 else pos[id] - 1);
      StopKinds(g.P(), id, pos[id]);
      if ptr[id].kind == Input {
        return false;
      }
      ptr := ptr[id := ptr[id].prev[id]];
      pos := pos[id := pos[id] - 1];
      moved := true;
    }
  }

  lemma StopKinds(p: Parts, w: nat, k: nat)
    requires Shape(p) && k < |Stops(p, w)|
    ensures Stops(p, w)[k].kind == if k == 0 then Input else if k + 1 == |Stops(p, w)| then Output else Gate
  {
  }
}
