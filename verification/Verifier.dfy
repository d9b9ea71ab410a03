/** The architecture check that every rewritten program must pass. */
module Verifier {
  import opened Outcomes
  import opened Graphs
  import opened Placements

  type Name = string

  /** The kinds of operation the check tells apart. */
  datatype Gate = Cnot | Intrinsic(marked: Option<IntrinsicKind>) | Other

  /** A gate that has the name of an intrinsic one also carries its kind, unless it was never marked as intrinsic. */
  datatype IntrinsicKind = Swap | LongCnot | ReverseCnot

  datatype Operation = Operation(gate: Gate, qargs: seq<Name>)

  datatype Statement = Plain(op: Operation) | Conditional(op: Operation)

  /** A coupling graph whose vertices have names. */
  class Architecture {
    const graph: Graph
    var names: seq<Name>
    var ids: map<Name, nat>
    var count: nat

    ghost predicate Valid()
      reads this, graph
    {
      && graph.Valid() && |names| == graph.n && count <= graph.n
      && (forall s :: s in ids ==> ids[s] < count && names[ids[s]] == s)
      && forall i: nat :: i < count ==> names[i] in ids && ids[names[i]] == i
    }

    constructor (graph: Graph)
      requires graph.Valid()
      ensures Valid() && this.graph == graph && count == 0 && ids == map[]
    {
      this.graph := graph;
      names, ids, count := seq(graph.n, _ => ""), map[], 0;
    }

    /** Vertices get their numbers in the order their names first appear. */
    method PutVertex(s: Name) returns (id: nat)
      requires Valid() && (s !in ids ==> count < graph.n)
      modifies this
      ensures Valid() && s in ids && id == ids[s] && names[id] == s
      ensures old(s in ids) ==> ids == old(ids) && count == old(count) && names == old(names)
      ensures old(s !in ids) ==> id == old(count) && count == id + 1 && ids == old(ids)[s := id] && names == old(names)[id := s]
    {
      if s in ids {
        return ids[s];
      }
      id := count;
      count := count + 1;
      names := names[id := s];
      ids := ids[s := id];
    }

    /** The coupling graph has the directed edge that a CNOT between these two named qubits needs. */
    ghost predicate Has(leg: Leg)
      reads this, graph
    {
      leg.control in ids && leg.target in ids && graph.Edge(ids[leg.control], ids[leg.target])
    }
  }

  /** A CNOT between two named qubits, the way the hardware has it. */
  datatype Leg = Leg(control: Name, target: Name)

  ghost predicate Joins(leg: Leg, a: Name, b: Name) {
    leg == Leg(a, b) || leg == Leg(b, a)
  }

  /** The CNOTs an operation stands for: a reversed one turns round, a swap goes either way, a long one passes the middle qubit. */
  ghost predicate Realises(op: Operation, legs: seq<Leg>) {
    match op.gate
    case Other => legs == []
    case Cnot => |op.qargs| == 2 && legs == [Leg(op.qargs[0], op.qargs[1])]
    case Intrinsic(None) => false
    case Intrinsic(Some(ReverseCnot)) => |op.qargs| == 2 && legs == [Leg(op.qargs[1], op.qargs[0])]
    case Intrinsic(Some(Swap)) => |op.qargs| == 2 && |legs| == 1 && Joins(legs[0], op.qargs[0], op.qargs[1])
    case Intrinsic(Some(LongCnot)) =>
      |op.qargs| == 3 && |legs| == 2 && Joins(legs[0], op.qargs[0], op.qargs[1]) && Joins(legs[1], op.qargs[1], op.qargs[2])
  }

  ghost predicate Known(a: Architecture, op: Operation)
    reads a
  {
    forall s :: s in op.qargs ==> s in a.ids
  }

  /** What the architecture can carry out: the operation names known qubits, and its CNOTs lie on directed edges. */
  ghost predicate Carries(a: Architecture, op: Operation)
    reads a, a.graph
  {
    Known(a, op) && exists legs :: Realises(op, legs) && forall k: nat :: k < |legs| ==> a.Has(legs[k])
  }

  /** The check aborts on operations that name known qubits only but stand for nothing: too few or too many, or no kind. */
  ghost predicate Malformed(a: Architecture, op: Operation)
    reads a
  {
    Known(a, op) && forall legs :: !Realises(op, legs)
  }

  method CheckCnot(a: Architecture, u: nat, v: nat) returns (ok: bool)
    requires a.Valid() && u < a.graph.n
    ensures ok <==> a.graph.Edge(u, v)
  {
    ok := a.graph.HasEdge(u, v);
  }

  method CheckEitherWay(a: Architecture, u: nat, v: nat) returns (ok: bool)
    requires a.Valid() && u < a.graph.n && v < a.graph.n
    ensures ok <==> a.graph.Edge(u, v) || a.graph.Edge(v, u)
  {
    ok := CheckCnot(a, u, v);
    if !ok {
      ok := CheckCnot(a, v, u);
    }
  }

  /** The numbers of the qubits an operation names, unless one is unknown. */
  method QubitIds(a: Architecture, qargs: seq<Name>) returns (known: bool, us: seq<nat>)
    requires a.Valid()
    ensures known <==> forall s :: s in qargs ==> s in a.ids
    ensures known ==> |us| == |qargs| && forall i :: 0 <= i < |qargs| ==> us[i] == a.ids[qargs[i]]
  {
    us := [];
    for i := 0 to |qargs|
      invariant |us| == i && forall k :: 0 <= k < i ==> qargs[k] in a.ids && us[k] == a.ids[qargs[k]]
    {
      if qargs[i] !in a.ids {
        return false, us;
      }
      us := us + [a.ids[qargs[i]]];
    }
    known := true;
  }

  /** The edge of the coupling graph from the qubit at position `i` of an operation to the one at `j`. */
  ghost predicate EdgeAt(a: Architecture, op: Operation, i: nat, j: nat)
    requires i < |op.qargs| && j < |op.qargs| && Known(a, op)
    reads a, a.graph
  {
    a.graph.Edge(a.ids[op.qargs[i]], a.ids[op.qargs[j]])
  }

  method VisitOperation(a: Architecture, op: Operation) returns (r: Outcome<bool>)
    requires a.Valid()
    ensures r.Abort? <==> Malformed(a, op)
    ensures r.Done? ==> (r.value <==> Carries(a, op))
    // The same, kind by kind.
    ensures !Known(a, op) ==> r == Done(false)
    ensures Known(a, op) && op.gate == Cnot ==>
      if |op.qargs| == 2 then r == Done(EdgeAt(a, op, 0, 1)) else r == Abort
    ensures Known(a, op) && op.gate == Intrinsic(Some(ReverseCnot)) ==>
      if |op.qargs| == 2 then r == Done(EdgeAt(a, op, 1, 0)) else r == Abort
    ensures Known(a, op) && op.gate == Intrinsic(Some(IntrinsicKind.Swap)) ==>
      if |op.qargs| == 2 then r == Done(EdgeAt(a, op, 0, 1) || EdgeAt(a, op, 1, 0)) else r == Abort
    ensures Known(a, op) && op.gate == Intrinsic(Some(LongCnot)) ==>
      if |op.qargs| == 3 then
        r == Done((EdgeAt(a, op, 0, 1) || EdgeAt(a, op, 1, 0)) && (EdgeAt(a, op, 1, 2) || EdgeAt(a, op, 2, 1)))
      else r == Abort
    ensures Known(a, op) && op.gate == Intrinsic(None) ==> r == Abort
    ensures Known(a, op) && op.gate == Other ==> r == Done(true)
  {
    hide Carries, Malformed, Realises, Architecture.Has;
    var known, us := QubitIds(a, op.qargs);
    if !known {
      UnknownFails(a, op);
      return Done(false);
    }
    KindByKind(a, op);
    assert forall i :: 0 <= i < |us| ==> op.qargs[i] in op.qargs && us[i] < a.graph.n;
    var ok := true;
    match op.gate {
      case Cnot =>
        if |us| != 2 { return Abort; }
        ok := CheckCnot(a, us[0], us[1]);
      case Intrinsic(None) =>
        return Abort;
      case Intrinsic(Some(Swap)) =>
        if |us| != 2 { return Abort; }
        ok := CheckEitherWay(a, us[0], us[1]);
      case Intrinsic(Some(LongCnot)) =>
        if |us| != 3 { return Abort; }
        ok := CheckEitherWay(a, us[0], us[1]);
        if ok {
          ok := CheckEitherWay(a, us[1], us[2]);
        }
      case Intrinsic(Some(ReverseCnot)) =>
        if |us| != 2 { return Abort; }
        ok := CheckCnot(a, us[1], us[0]);
      case Other =>
    }
    r := Done(ok);
  }

  lemma UnknownFails(a: Architecture, op: Operation)
    ensures !Known(a, op) ==> !Carries(a, op) && !Malformed(a, op)
  {
  }

  /** The edges each kind of operation asks for. */
  lemma KindByKind(a: Architecture, op: Operation)
    requires Known(a, op)
    ensures Malformed(a, op) <==>
      || (op.gate == Intrinsic(None))
      || (op.gate == Intrinsic(Some(LongCnot)) && |op.qargs| != 3)
      || (op.gate != Other && op.gate != Intrinsic(Some(LongCnot)) && |op.qargs| != 2)
    ensures op.gate == Other ==> Carries(a, op)
    ensures op.gate == Cnot && |op.qargs| == 2 ==> (Carries(a, op) <==> EdgeAt(a, op, 0, 1))
    ensures op.gate == Intrinsic(Some(ReverseCnot)) && |op.qargs| == 2 ==> (Carries(a, op) <==> EdgeAt(a, op, 1, 0))
    ensures op.gate == Intrinsic(Some(IntrinsicKind.Swap)) && |op.qargs| == 2 ==>
      (Carries(a, op) <==> EdgeAt(a, op, 0, 1) || EdgeAt(a, op, 1, 0))
    ensures op.gate == Intrinsic(Some(LongCnot)) && |op.qargs| == 3 ==>
      (Carries(a, op) <==> (EdgeAt(a, op, 0, 1) || EdgeAt(a, op, 1, 0)) && (EdgeAt(a, op, 1, 2) || EdgeAt(a, op, 2, 1)))
  {
    hide Carries, Malformed, Realises, EdgeAt;
    MalformedWhen(a, op);
    match op.gate
    case Other => NothingCarried(a, op);
    case Cnot => if |op.qargs| == 2 { CnotCarried(a, op); }
    case Intrinsic(None) =>
    case Intrinsic(Some(ReverseCnot)) => if |op.qargs| == 2 { ReverseCarried(a, op); }
    case Intrinsic(Some(Swap)) => if |op.qargs| == 2 { SwapCarried(a, op); }
    case Intrinsic(Some(LongCnot)) => if |op.qargs| == 3 { LongCarried(a, op); }
  }

  lemma MalformedWhen(a: Architecture, op: Operation)
    requires Known(a, op)
    ensures Malformed(a, op) <==>
      || (op.gate == Intrinsic(None))
      || (op.gate == Intrinsic(Some(LongCnot)) && |op.qargs| != 3)
      || (op.gate != Other && op.gate != Intrinsic(Some(LongCnot)) && |op.qargs| != 2)
  {
    hide Realises;
    StandsForSomething(op);
  }

  lemma NothingCarried(a: Architecture, op: Operation)
    requires Known(a, op) && op.gate == Other
    ensures Carries(a, op)
  {
    assert Realises(op, []);
  }

  lemma CnotCarried(a: Architecture, op: Operation)
    requires Known(a, op) && op.gate == Cnot && |op.qargs| == 2
    ensures Carries(a, op) <==> EdgeAt(a, op, 0, 1)
  {
    OneLeg(a, op, Leg(op.qargs[0], op.qargs[1]));
  }

  lemma ReverseCarried(a: Architecture, op: Operation)
    requires Known(a, op) && op.gate == Intrinsic(Some(ReverseCnot)) && |op.qargs| == 2
    ensures Carries(a, op) <==> EdgeAt(a, op, 1, 0)
  {
    OneLeg(a, op, Leg(op.qargs[1], op.qargs[0]));
  }

  lemma OneLeg(a: Architecture, op: Operation, leg: Leg)
    requires Known(a, op) && forall legs :: Realises(op, legs) <==> legs == [leg]
    ensures Carries(a, op) <==> a.Has(leg)
  {
    hide Realises;
    if a.Has(leg) {
      assert Realises(op, [leg]);
    }
    if Carries(a, op) {
      var legs :| Realises(op, legs) && forall k: nat :: k < |legs| ==> a.Has(legs[k]);
      assert a.Has(legs[0]);
    }
  }

  lemma SwapCarried(a: Architecture, op: Operation)
    requires Known(a, op) && op.gate == Intrinsic(Some(IntrinsicKind.Swap)) && |op.qargs| == 2
    ensures Carries(a, op) <==> EdgeAt(a, op, 0, 1) || EdgeAt(a, op, 1, 0)
  {
    var p, q := op.qargs[0], op.qargs[1];
    assert Realises(op, [Leg(p, q)]) && Realises(op, [Leg(q, p)]);
    if Carries(a, op) {
      var legs :| Realises(op, legs) && forall k: nat :: k < |legs| ==> a.Has(legs[k]);
      assert a.Has(legs[0]);
    }
  }

  lemma LongCarried(a: Architecture, op: Operation)
    requires Known(a, op) && op.gate == Intrinsic(Some(LongCnot)) && |op.qargs| == 3
    ensures Carries(a, op) <==>
      (EdgeAt(a, op, 0, 1) || EdgeAt(a, op, 1, 0)) && (EdgeAt(a, op, 1, 2) || EdgeAt(a, op, 2, 1))
  {
    var p, q, r := op.qargs[0], op.qargs[1], op.qargs[2];
    if Carries(a, op) {
      var legs :| Realises(op, legs) && forall k: nat :: k < |legs| ==> a.Has(legs[k]);
      assert a.Has(legs[0]) && a.Has(legs[1]);
    } else {
      var first := if EdgeAt(a, op, 0, 1) then Leg(p, q) else Leg(q, p);
      var second := if EdgeAt(a, op, 1, 2) then Leg(q, r) else Leg(r, q);
      var legs := [first, second];
      assert Realises(op, legs);
    }
  }

  lemma StandsForSomething(op: Operation)
    ensures (exists legs :: Realises(op, legs)) <==>
      match op.gate
      case Other => true
      case Cnot => |op.qargs| == 2
      case Intrinsic(None) => false
      case Intrinsic(Some(LongCnot)) => |op.qargs| == 3
      case Intrinsic(Some(_)) => |op.qargs| == 2
  {
    if op.gate == Other {
      assert Realises(op, []);
    } else if |op.qargs| == 2 {
      assert op.gate == Intrinsic(Some(ReverseCnot)) ==> Realises(op, [Leg(op.qargs[1], op.qargs[0])]);
      assert op.gate == Cnot || op.gate == Intrinsic(Some(IntrinsicKind.Swap)) ==> Realises(op, [Leg(op.qargs[0], op.qargs[1])]);
    } else if |op.qargs| == 3 {
      var legs := [Leg(op.qargs[0], op.qargs[1]), Leg(op.qargs[1], op.qargs[2])];
      assert op.gate == Intrinsic(Some(LongCnot)) ==> Realises(op, legs);
    }
  }

  /** The visitor remembers whether everything it has seen conforms. */
  class Visitor {
    const arch: Architecture
    var success: bool

    constructor (arch: Architecture)
      ensures this.arch == arch && success
    {
      this.arch, success := arch, true;
    }

    method Visit(st: Statement) returns (aborted: bool)
      requires arch.Valid()
      modifies this`success
      ensures aborted <==> old(success) && Malformed(arch, st.op)
      ensures !aborted ==> (success <==> old(success) && Carries(arch, st.op))
    {
      if success {
        var r := VisitOperation(arch, st.op);
        if r.Abort? {
          return true;
        }
        success := r.value;
      }
      aborted := false;
    }
  }

  class ArchVerifier {
    const arch: Architecture
    var data: bool

    constructor (arch: Architecture)
      ensures this.arch == arch && !data
    {
      this.arch, data := arch, false;
    }

    /** The run stops at the first statement that does not conform. */
    method Run(stmts: seq<Statement>) returns (aborted: bool)
      requires arch.Valid()
      modifies this`data
      ensures aborted <==> exists i: nat ::
        i < |stmts| && Malformed(arch, stmts[i].op) && forall k: nat :: k < i ==> Carries(arch, stmts[k].op)
      ensures !aborted ==> (data <==> forall i: nat :: i < |stmts| ==> Carries(arch, stmts[i].op))
      ensures !aborted && data ==> forall i: nat :: i < |stmts| ==>
        exists legs :: Realises(stmts[i].op, legs) && forall k: nat :: k < |legs| ==> arch.Has(legs[k])
    {
      hide Malformed, Realises;
      data := true;
      var visitor := new Visitor(arch);
      var i: nat := 0;
      while i < |stmts| && data
        invariant i <= |stmts| && visitor.success == data && visitor.arch == arch && fresh(visitor)
        invariant data ==> forall k: nat :: k < i ==> Carries(arch, stmts[k].op)
        invariant !data ==> i > 0 && !Carries(arch, stmts[i - 1].op)
        invariant forall k: nat :: k < i ==> !Malformed(arch, stmts[k].op)
        invariant forall k: nat :: k + 1 < i ==> Carries(arch, stmts[k].op)
      {
        aborted := visitor.Visit(stmts[i]);
        if aborted {
          return;
        }
        data := data && visitor.success;
        i := i + 1;
      }
      aborted := false;
    }
  }

  // The check and the swap finders.

  /** Each swap written as an intrinsic swap of the two named qubits. */
  ghost function Written(names: seq<Name>, swaps: seq<Placements.Swap>): (r: seq<Statement>)
    requires OnBoard(swaps, |names|)
    ensures |r| == |swaps|
    ensures forall i: nat :: i < |r| ==> r[i] == Plain(Operation(Intrinsic(Some(IntrinsicKind.Swap)), [names[swaps[i].u], names[swaps[i].v]]))
  {
    seq(|swaps|, i requires 0 <= i < |swaps| => Plain(Operation(Intrinsic(Some(IntrinsicKind.Swap)), [names[swaps[i].u], names[swaps[i].v]])))
  }

  /** On an architecture whose qubits all have names, swaps pass exactly when they all lie on edges. */
  lemma SwapsCarried(a: Architecture, swaps: seq<Placements.Swap>)
    requires a.Valid() && a.count == a.graph.n && OnBoard(swaps, a.graph.n)
    ensures (forall i: nat :: i < |swaps| ==> Carries(a, Written(a.names, swaps)[i].op)) <==> OnEdges(a.graph.Ways(), swaps)
    ensures forall i: nat :: i < |swaps| ==> !Malformed(a, Written(a.names, swaps)[i].op)
  {
    hide Carries, Malformed, Realises, Graph.Ways;
    var stmts := Written(a.names, swaps);
    forall i: nat | i < |swaps|
      ensures Carries(a, stmts[i].op) <==> swaps[i].v in a.graph.Ways().adj[swaps[i].u]
      ensures !Malformed(a, stmts[i].op)
    {
      assert stmts[i].op.qargs == [a.names[swaps[i].u], a.names[swaps[i].v]];
      KindByKind(a, stmts[i].op);
      a.graph.WaysAreEdges(swaps[i].u, swaps[i].v);
    }
  }
}
