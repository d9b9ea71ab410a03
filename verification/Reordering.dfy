/** Reordering a program: number the statements, build their circuit graph, generate an order and follow it. */
module Reordering {
  import opened Outcomes
  import opened Sums
  import opened Xbits
  import opened Circuits
  import opened Schedules
  import opened Layers
  import opened Stages
  import opened Ordering
  import opened Conflicts

  /** A statement with its own reference and the bits it names, by number; a conditional may hold a measurement. */
  datatype Statement =
    | Operation(ref: nat, qargs: seq<nat>)
    | Measure(ref: nat, cbit: nat, qargs: seq<nat>)
    | Conditional(ref: nat, register: seq<nat>, measured: Option<nat>, qargs: seq<nat>)

  // The bits of a statement, read off its own fields.

  /** The classical bits it is appended on: the whole register a conditional tests, but not a bit it measures into. */
  ghost predicate AppendedOn(st: Statement, b: nat) {
    match st
    case Operation(_, _) => false
    case Measure(_, cbit, _) => b == cbit
    case Conditional(_, register, _, _) => b in register
  }

  /** The classical bits it reads or writes. */
  ghost function NamedClbits(st: Statement): set<nat> {
    match st
    case Operation(_, _) => {}
    case Measure(_, cbit, _) => {cbit}
    case Conditional(_, register, None, _) => set b | b in register
    case Conditional(_, register, Some(m), _) => {m} + set b | b in register
  }

  /** The wires of the qubits and classical bits it names; classical bits are numbered after the qubits. */
  ghost function NamedWires(st: Statement, qubits: nat): set<nat> {
    (set x | x in st.qargs) + (set b | b in NamedClbits(st) :: b + qubits)
  }

  ghost function AppendedWires(st: Statement, qubits: nat): set<nat> {
    (set x | x in st.qargs) + (set b | b in NamedClbits(st) && AppendedOn(st, b) :: b + qubits)
  }

  lemma WiresByField(st: Statement, qubits: nat, w: nat)
    ensures w in AppendedWires(st, qubits) <==> w in st.qargs || (w >= qubits && AppendedOn(st, w - qubits))
    ensures w in NamedWires(st, qubits) <==> w in st.qargs || (w >= qubits && w - qubits in NamedClbits(st))
  {
    assert w >= qubits ==> (w - qubits) + qubits == w;
  }

  // What the grammar and the checks before this pass guarantee, and what the builder checks itself.

  /** The statements are different objects, and each names at least one bit and none twice. */
  ghost predicate Program(stmts: seq<Statement>) {
    && DistinctRefs(stmts)
    && forall i: nat :: i < |stmts| ==> stmts[i].qargs != [] && NoRepeats(stmts[i])
  }

  ghost predicate DistinctRefs(stmts: seq<Statement>) {
    forall i: nat, j: nat :: i < j < |stmts| ==> stmts[i].ref != stmts[j].ref
  }

  ghost predicate NoRepeats(st: Statement) {
    Distinct(st.qargs) && (st.Conditional? ==> Distinct(st.register))
  }

  ghost predicate Declared(st: Statement, qubits: nat, cbits: nat) {
    && (forall x :: x in st.qargs ==> x < qubits)
    && (st.Measure? ==> st.cbit < cbits)
    && (st.Conditional? ==> forall b :: b in st.register ==> b < cbits)
  }

  ghost predicate AllDeclared(stmts: seq<Statement>, qubits: nat, cbits: nat) {
    forall i: nat :: i < |stmts| ==> Declared(stmts[i], qubits, cbits)
  }

  ghost function Prints(stmts: seq<Statement>, qubits: nat): (r: Circuit)
    ensures |r| == |stmts| && forall i: nat :: i < |stmts| ==> r[i] == AppendedWires(stmts[i], qubits)
  {
    seq(|stmts|, i requires 0 <= i < |stmts| => AppendedWires(stmts[i], qubits))
  }

  ghost predicate Refers(g: CircuitGraph, stmts: seq<Statement>)
    reads g
  {
    |g.gates| == |stmts| && forall i: nat :: i < |stmts| ==> g.gates[i].node == stmts[i].ref
  }

  lemma PrintsProper(stmts: seq<Statement>, qubits: nat, cbits: nat)
    requires Program(stmts) && AllDeclared(stmts, qubits, cbits)
    ensures Proper(Prints(stmts, qubits), qubits + cbits)
  {
    var prints := Prints(stmts, qubits);
    forall g: nat | g < |prints|
      ensures prints[g] != {} && forall w :: w in prints[g] ==> w < qubits + cbits
    {
      assert Declared(stmts[g], qubits, cbits) && stmts[g].qargs[0] in prints[g];
    }
  }

  method NumberClbits(ids: seq<nat>, cbits: nat) returns (r: Option<seq<Xbit>>)
    ensures r.None? <==> exists b :: b in ids && b >= cbits
    ensures r.Some? ==> |r.value| == |ids| && forall i :: 0 <= i < |ids| ==> r.value[i] == C(ids[i])
  {
    var xbits: seq<Xbit> := [];
    for i := 0 to |ids|
      invariant |xbits| == i && forall k :: 0 <= k < i ==> xbits[k] == C(ids[k]) && ids[k] < cbits
    {
      if ids[i] >= cbits {
        assert ids[i] in ids;
        return None;
      }
      xbits := xbits + [C(ids[i])];
    }
    r := Some(xbits);
  }

  method NumberQubits(ids: seq<nat>, qubits: nat) returns (r: Option<seq<Xbit>>)
    ensures r.None? <==> exists x :: x in ids && x >= qubits
    ensures r.Some? ==> |r.value| == |ids| && forall i :: 0 <= i < |ids| ==> r.value[i] == Q(ids[i])
  {
    var xbits: seq<Xbit> := [];
    for i := 0 to |ids|
      invariant |xbits| == i && forall k :: 0 <= k < i ==> xbits[k] == Q(ids[k]) && ids[k] < qubits
    {
      if ids[i] >= qubits {
        assert ids[i] in ids;
        return None;
      }
      xbits := xbits + [Q(ids[i])];
    }
    r := Some(xbits);
  }

  /** The bits of one statement; the program aborts on a name it has no number for. */
  method CollectBits(st: Statement, qubits: nat, cbits: nat) returns (r: Option<seq<Xbit>>)
    ensures r.None? <==>
      || (exists x :: x in st.qargs && x >= qubits)
      || (st.Measure? && st.cbit >= cbits)
      || (st.Conditional? && exists b :: b in st.register && b >= cbits)
    ensures r.Some? ==> forall x: nat :: Q(x) in r.value <==> x in st.qargs
    ensures r.Some? && st.Operation? ==> forall b: nat :: C(b) !in r.value
    ensures r.Some? && st.Measure? ==> forall b: nat :: C(b) in r.value <==> b == st.cbit
    ensures r.Some? && st.Conditional? ==> forall b: nat :: C(b) in r.value <==> b in st.register
    ensures r.Some? && NoRepeats(st) ==> AllApart(r.value, qubits)
  {
    hide AllApart, NoRepeats;
    var clbits: seq<nat> := [];
    if st.Conditional? {
      clbits := st.register;
    } else if st.Measure? {
      clbits := [st.cbit];
    }
    assert st.Measure? ==> clbits[0] in clbits;
    var classical := NumberClbits(clbits, cbits);
    if classical.None? {
      return None;
    }
    var quantum := NumberQubits(st.qargs, qubits);
    if quantum.None? {
      return None;
    }
    r := Some(classical.value + quantum.value);
    BothKinds(clbits, st.qargs, qubits, classical.value, quantum.value);
    assert NoRepeats(st) ==> Distinct(clbits) && Distinct(st.qargs) by { RepeatsNothing(st); }
  }

  lemma RepeatsNothing(st: Statement)
    ensures NoRepeats(st) ==> Distinct(st.qargs) && (st.Conditional? ==> Distinct(st.register))
  {
  }

  lemma BothKinds(clbits: seq<nat>, qargs: seq<nat>, qubits: nat, classical: seq<Xbit>, quantum: seq<Xbit>)
    requires |classical| == |clbits| && forall i :: 0 <= i < |clbits| ==> classical[i] == C(clbits[i])
    requires |quantum| == |qargs| && forall i :: 0 <= i < |qargs| ==> quantum[i] == Q(qargs[i])
    requires forall x :: x in qargs ==> x < qubits
    ensures forall x: nat :: Q(x) in classical + quantum <==> x in qargs
    ensures forall b: nat :: C(b) in classical + quantum <==> b in clbits
    ensures Distinct(clbits) && Distinct(qargs) ==> AllApart(classical + quantum, qubits)
  {
    assert forall b: nat :: C(b) in classical <==> b in clbits;
    assert forall x: nat :: Q(x) in quantum <==> x in qargs;
    assert forall i :: 0 <= i < |qargs| ==> qargs[i] in qargs;
  }

  /** The wires the collected bits are numbered by. */
  lemma CollectedWires(st: Statement, qubits: nat, cbits: nat, xbits: seq<Xbit>)
    requires Declared(st, qubits, cbits)
    requires forall x: nat :: Q(x) in xbits <==> x in st.qargs
    requires forall b: nat :: C(b) in xbits <==> AppendedOn(st, b)
    ensures WiresOf(xbits, qubits) == AppendedWires(st, qubits)
    ensures forall i :: 0 <= i < |xbits| ==> (xbits[i].Q? ==> xbits[i].id < qubits) && (xbits[i].C? ==> xbits[i].id < cbits)
  {
    hide WiresOf, AppendedWires, AppendedOn, Declared;
    CollectedRange(st, qubits, cbits, xbits);
    WiresByKind(xbits, qubits, cbits);
    forall w: nat
      ensures w in AppendedWires(st, qubits) <==> w in WiresOf(xbits, qubits)
    {
      WiresByField(st, qubits, w);
      SmallOperands(st, qubits, cbits, w);
    }
  }

  lemma SmallOperands(st: Statement, qubits: nat, cbits: nat, w: nat)
    requires Declared(st, qubits, cbits)
    ensures w in st.qargs ==> w < qubits
  {
  }

  lemma CollectedRange(st: Statement, qubits: nat, cbits: nat, xbits: seq<Xbit>)
    requires Declared(st, qubits, cbits)
    requires forall x: nat :: Q(x) in xbits <==> x in st.qargs
    requires forall b: nat :: C(b) in xbits <==> AppendedOn(st, b)
    ensures forall i :: 0 <= i < |xbits| ==> (xbits[i].Q? ==> xbits[i].id < qubits) && (xbits[i].C? ==> xbits[i].id < cbits)
    ensures forall i :: 0 <= i < |xbits| ==> InRange(xbits[i], qubits, cbits)
  {
    forall i | 0 <= i < |xbits|
      ensures (xbits[i].Q? ==> xbits[i].id < qubits) && (xbits[i].C? ==> xbits[i].id < cbits)
    {
      assert xbits[i] in xbits;
    }
  }

  lemma PrintsSnoc(stmts: seq<Statement>, qubits: nat, i: nat)
    requires i < |stmts|
    ensures Prints(stmts[..i + 1], qubits) == Prints(stmts[..i], qubits) + [AppendedWires(stmts[i], qubits)]
  {
  }

  /** One node per statement, in program order. */
  method BuildGraph(stmts: seq<Statement>, qubits: nat, cbits: nat) returns (r: Option<CircuitGraph>)
    requires Program(stmts)
    ensures r.None? <==> !AllDeclared(stmts, qubits, cbits)
    ensures r.Some? ==> fresh(r.value) && fresh(r.value.nodes) && r.value.Valid() && r.value.qubits == qubits && r.value.cbits == cbits
    ensures r.Some? ==> r.value.prints == Prints(stmts, qubits) && Refers(r.value, stmts)
  {
    hide CircuitGraph.Valid, Declared, AppendedWires, NoRepeats, AllApart;
    var g := new CircuitGraph(qubits, cbits);
    StartsEmpty(g);
    for i := 0 to |stmts|
      invariant fresh(g) && fresh(g.nodes) && g.Valid() && AllDeclared(stmts[..i], qubits, cbits)
      invariant g.prints == Prints(stmts[..i], qubits) && Refers(g, stmts[..i])
    {
      var xbits := CollectBits(stmts[i], qubits, cbits);
      DeclaredByCase(stmts[i], qubits, cbits);
      if xbits.None? {
        return None;
      }
      PrintsSnoc(stmts, qubits, i);
      CollectedWires(stmts[i], qubits, cbits, xbits.value);
      var ok := g.Append(xbits.value, stmts[i].ref);
    }
    assert stmts[..|stmts|] == stmts;
    r := Some(g);
  }

  lemma DeclaredByCase(st: Statement, qubits: nat, cbits: nat)
    ensures !Declared(st, qubits, cbits) <==>
      || (exists x :: x in st.qargs && x >= qubits)
      || (st.Measure? && st.cbit >= cbits)
      || (st.Conditional? && exists b :: b in st.register && b >= cbits)
  {
  }

  lemma StartsEmpty(g: CircuitGraph)
    requires g.Valid() && g.prints == []
    ensures g.gates == []
  {
  }

  // The program and its reordering.

  /** A program's statements; one that has been moved out leaves nothing behind. */
  class QModule {
    const qubits: nat
    const cbits: nat
    var stmts: seq<Option<Statement>>

    constructor (qubits: nat, cbits: nat, stmts: seq<Statement>)
      ensures Whole() && Statements() == stmts && this.qubits == qubits && this.cbits == cbits
    {
      this.qubits, this.cbits := qubits, cbits;
      this.stmts := seq(|stmts|, i requires 0 <= i < |stmts| => Some(stmts[i]));
    }

    ghost predicate Whole()
      reads this
    {
      forall i: nat :: i < |stmts| ==> stmts[i].Some?
    }

    function Statements(): (r: seq<Statement>)
      requires Whole()
      reads this
      ensures |r| == |stmts| && forall i: nat :: i < |r| ==> stmts[i] == Some(r[i])
    {
      seq(|stmts|, i requires 0 <= i < |stmts| && Whole() reads this => stmts[i].value)
    }

    method OrderBy(order: seq<nat>)
      requires Whole() && Permutation(order) && |order| == |stmts|
      modifies this
      ensures Whole() && Statements() == Rearranged(old(Statements()), order)
    {
      var newstmts: seq<Option<Statement>> := [];
      ghost var was := Statements();
      for i := 0 to |order|
        invariant |stmts| == |was| && |newstmts| == i
        invariant forall k: nat :: k < i ==> newstmts[k] == Some(was[order[k]])
        invariant forall x: nat :: x < |stmts| && x !in order[..i] ==> stmts[x] == Some(was[x])
      {
        assert order[i] !in order[..i];
        newstmts := newstmts + [stmts[order[i]]];
        stmts := stmts[order[i] := None];
      }
      stmts := newstmts;
    }
  }

  ghost function Rearranged(stmts: seq<Statement>, order: seq<nat>): (r: seq<Statement>)
    requires forall i :: 0 <= i < |order| ==> order[i] < |stmts|
    ensures |r| == |order| && forall i :: 0 <= i < |order| ==> r[i] == stmts[order[i]]
  {
    seq(|order|, i requires 0 <= i < |order| => stmts[order[i]])
  }

  ghost predicate NumberedUpTo(stmts: seq<Statement>, i: nat, ids: map<nat, nat>) {
    && i <= |stmts| && |ids| == i
    && (forall ref :: ref in ids ==> ids[ref] < i && stmts[ids[ref]].ref == ref)
    && forall x: nat :: x < i ==> stmts[x].ref in ids && ids[stmts[x].ref] == x
  }

  lemma NumberedMore(stmts: seq<Statement>, i: nat, ids: map<nat, nat>)
    requires DistinctRefs(stmts) && i < |stmts| && NumberedUpTo(stmts, i, ids)
    ensures NumberedUpTo(stmts, i + 1, ids[stmts[i].ref := |ids|])
  {
  }

  lemma AllNumbered(stmts: seq<Statement>, ids: map<nat, nat>)
    ensures NumberedUpTo(stmts, 0, map[])
    ensures NumberedUpTo(stmts, |stmts|, ids) ==> forall i: nat :: i < |stmts| ==> stmts[i].ref in ids && ids[stmts[i].ref] == i
  {
  }

  class LayerBasedOrdering {
    var stmtId: map<nat, nat>
    var ordering: seq<nat>
    var layers: seq<seq<nat>>

    constructor ()
    {
      stmtId, ordering, layers := map[], [], [];
    }

    /** Numbers the statements, in program order. */
    method NumberAll(stmts: seq<Statement>)
      requires DistinctRefs(stmts)
      modifies this`stmtId
      ensures forall i: nat :: i < |stmts| ==> stmts[i].ref in stmtId && stmtId[stmts[i].ref] == i
    {
      hide *;
      stmtId := map[];
      AllNumbered(stmts, stmtId);
      for i := 0 to |stmts|
        invariant NumberedUpTo(stmts, i, stmtId)
      {
        NumberedMore(stmts, i, stmtId);
        stmtId := stmtId[stmts[i].ref := |stmtId|];
      }
      AllNumbered(stmts, stmtId);
    }

    /** The layers generated are added to those already there. */
    method Run(m: QModule) returns (ok: bool)
      requires m.Whole() && Program(m.Statements())
      modifies this, m
      ensures m.Whole() && ok == AllDeclared(old(m.Statements()), m.qubits, m.cbits)
      ensures !ok ==> m.Statements() == old(m.Statements()) && layers == old(layers)
      ensures ok ==> old(layers) <= layers && Ordered(old(m.Statements()), m.qubits, layers[|old(layers)|..], ordering)
      ensures ok ==> m.Statements() == Rearranged(old(m.Statements()), ordering)
    {
      hide CircuitGraph.Valid, IsLayering, ByStage, Staged, DistinctRefs, NoRepeats, AllDeclared, Prints, Proper;
      var stmts := m.Statements();
      NumberAll(stmts);
      var built := BuildGraph(stmts, m.qubits, m.cbits);
      if built.None? {
        return false;
      }
      var g := built.value;
      PrintsProper(stmts, m.qubits, m.cbits);
      assert Numbered(g, stmtId);
      var newLayers, order := Generate(g, stmtId);
      LayeringSize(Prints(stmts, m.qubits), newLayers);
      ordering := order;
      layers := layers + newLayers;
      m.OrderBy(ordering);
      ok := true;
    }
  }

  /** What the pass hands out: a layering of the program, its concatenation, and the stage every gate stands at. */
  ghost predicate Ordered(stmts: seq<Statement>, qubits: nat, ls: seq<seq<nat>>, order: seq<nat>) {
    && IsLayering(Prints(stmts, qubits), ls) && ByStage(Prints(stmts, qubits), qubits, ls)
    && order == Flatten(ls) && Permutation(order) && |order| == |stmts| && Staged(Prints(stmts, qubits), qubits, order)
  }

  lemma LayeringSize(prints: Circuit, layers: seq<seq<nat>>)
    requires IsLayering(prints, layers)
    ensures Permutation(Flatten(layers)) && |Flatten(layers)| == |prints|
  {
  }

  // What the reordered program means.

  ghost function Execute<S>(effect: (Statement, S) -> S, stmts: seq<Statement>, s: S): S {
    if stmts == [] then s else effect(stmts[|stmts| - 1], Execute(effect, stmts[..|stmts| - 1], s))
  }

  /** All that is asked of the statements' effects: those without a common bit commute. */
  ghost predicate Independent<S(!new)>(effect: (Statement, S) -> S, stmts: seq<Statement>, qubits: nat) {
    forall i: nat, j: nat, s: S :: i < |stmts| && j < |stmts| && !Share(Prints(stmts, qubits), i, j) ==>
      effect(stmts[i], effect(stmts[j], s)) == effect(stmts[j], effect(stmts[i], s))
  }

  ghost function Act<S>(effect: (Statement, S) -> S, stmts: seq<Statement>): (nat, S) -> S {
    (g: nat, s: S) => if g < |stmts| then effect(stmts[g], s) else s
  }

  lemma {:induction false} ExecuteRearranged<S>(effect: (Statement, S) -> S, stmts: seq<Statement>, order: seq<nat>, s: S)
    requires forall i :: 0 <= i < |order| ==> order[i] < |stmts|
    ensures Execute(effect, Rearranged(stmts, order), s) == Meaning.Run(Act(effect, stmts), order, s)
    decreases |order|
  {
    if order != [] {
      var k := |order| - 1;
      assert Rearranged(stmts, order)[..k] == Rearranged(stmts, order[..k]);
      ExecuteRearranged(effect, stmts, order[..k], s);
    }
  }

  lemma ExecuteInOrder<S>(effect: (Statement, S) -> S, stmts: seq<Statement>, s: S)
    ensures Execute(effect, stmts, s) == Meaning.Run(Act(effect, stmts), Identity(|stmts|), s)
  {
    hide Execute, Meaning.Run, Act;
    var all := Identity(|stmts|);
    assert Rearranged(stmts, all) == stmts;
    ExecuteRearranged(effect, stmts, all, s);
  }

  lemma IndependentCommutes<S(!new)>(effect: (Statement, S) -> S, stmts: seq<Statement>, qubits: nat)
    requires Independent(effect, stmts, qubits)
    ensures Meaning.CommutesApart(Prints(stmts, qubits), Act(effect, stmts))
  {
  }

  /** The reordered program takes every state where the original takes it. */
  lemma ReorderedMeansTheSame<S(!new)>(effect: (Statement, S) -> S, stmts: seq<Statement>, qubits: nat, layers: seq<seq<nat>>, s: S)
    requires IsLayering(Prints(stmts, qubits), layers) && Independent(effect, stmts, qubits)
    ensures forall i :: 0 <= i < |Flatten(layers)| ==> Flatten(layers)[i] < |stmts|
    ensures Execute(effect, Rearranged(stmts, Flatten(layers)), s) == Execute(effect, stmts, s)
  {
    hide IsLayering, Flatten, Share, Execute, Meaning.Run, Prints, Independent, Meaning.CommutesApart, Act;
    var order := Flatten(layers);
    LayeringSize(Prints(stmts, qubits), layers);
    ExecuteRearranged(effect, stmts, order, s);
    ExecuteInOrder(effect, stmts, s);
    IndependentCommutes(effect, stmts, qubits);
    Meaning.LayeringKeepsMeaning(Prints(stmts, qubits), Act(effect, stmts), layers, s);
  }

  // The bits a statement names are more than those it is appended on: a conditional measurement also writes a bit.

  ghost function NamedPrints(stmts: seq<Statement>, qubits: nat): (r: Circuit)
    ensures |r| == |stmts| && forall i: nat :: i < |stmts| ==> r[i] == NamedWires(stmts[i], qubits)
  {
    seq(|stmts|, i requires 0 <= i < |stmts| => NamedWires(stmts[i], qubits))
  }

  /** Only the bit a conditional measures into is named and not appended on. */
  lemma NamedAndAppended(st: Statement, qubits: nat)
    ensures NamedWires(st, qubits)
      == AppendedWires(st, qubits) + if st.Conditional? && st.measured.Some? then {st.measured.value + qubits} else {}
  {
  }

  /** Every statement reads and writes the bits it names and no others. */
  ghost predicate Local<V(!new)>(effect: (Statement, seq<V>) -> seq<V>, stmts: seq<Statement>, qubits: nat) {
    Meaning.WireLocal(NamedPrints(stmts, qubits), Act(effect, stmts))
  }

  ghost predicate SameEffect<V(!new)>(effect: (Statement, seq<V>) -> seq<V>, stmts: seq<Statement>, order: seq<nat>)
    requires forall i :: 0 <= i < |order| ==> order[i] < |stmts|
  {
    forall s: seq<V> :: Execute(effect, Rearranged(stmts, order), s) == Execute(effect, stmts, s)
  }

  /** Whatever the statements do with the bits they name, this order does what the program does. */
  ghost predicate KeepsEffects(stmts: seq<Statement>, qubits: nat, order: seq<nat>)
    requires forall i :: 0 <= i < |order| ==> order[i] < |stmts|
  {
    forall effect: (Statement, Logs) -> Logs :: Local(effect, stmts, qubits) ==> SameEffect(effect, stmts, order)
  }

  /** Appended bits alone: effects that stay on them are independent. */
  lemma LocalIsIndependent<V(!new)>(effect: (Statement, seq<V>) -> seq<V>, stmts: seq<Statement>, qubits: nat)
    requires Meaning.WireLocal(Prints(stmts, qubits), Act(effect, stmts))
    ensures Independent(effect, stmts, qubits)
  {
    hide Meaning.WireLocal, Share;
    Meaning.WireLocalCommutes(Prints(stmts, qubits), Act(effect, stmts));
    forall i: nat, j: nat, s: seq<V> | i < |stmts| && j < |stmts| && !Share(Prints(stmts, qubits), i, j)
      ensures effect(stmts[i], effect(stmts[j], s)) == effect(stmts[j], effect(stmts[i], s))
    {
      var act := Act(effect, stmts);
      assert act(i, act(j, s)) == act(j, act(i, s));
    }
  }

  /** An effect of statements that does what `act` does for their numbers. */
  ghost function Lifted<V>(act: (nat, seq<V>) -> seq<V>, stmts: seq<Statement>): (Statement, seq<V>) -> seq<V> {
    (st: Statement, s: seq<V>) => if st in stmts then act(IndexIn(stmts, st), s) else s
  }

  ghost function IndexIn(stmts: seq<Statement>, st: Statement): (i: nat)
    requires st in stmts
    ensures i < |stmts| && stmts[i] == st
  {
    var i: nat :| i < |stmts| && stmts[i] == st;
    i
  }

  lemma LiftedActs<V>(act: (nat, seq<V>) -> seq<V>, stmts: seq<Statement>)
    requires DistinctRefs(stmts)
    ensures forall g: nat, s: seq<V> :: g < |stmts| ==> Act(Lifted(act, stmts), stmts)(g, s) == act(g, s)
  {
    forall g: nat, s: seq<V> | g < |stmts|
      ensures Act(Lifted(act, stmts), stmts)(g, s) == act(g, s)
    {
      assert stmts[g] in stmts;
      var i := IndexIn(stmts, stmts[g]);
      assert i == g;
    }
  }

  lemma {:induction false} RunAgrees(a: (nat, Logs) -> Logs, b: (nat, Logs) -> Logs, order: seq<nat>, n: nat, s: Logs)
    requires forall g: nat, s: Logs :: g < n ==> a(g, s) == b(g, s)
    requires forall i :: 0 <= i < |order| ==> order[i] < n
    ensures Meaning.Run(a, order, s) == Meaning.Run(b, order, s)
    decreases |order|
  {
    if order != [] {
      var k := |order| - 1;
      RunAgrees(a, b, order[..k], n, s);
      var r := Meaning.Run(a, order[..k], s);
      assert order[k] < n && a(order[k], r) == b(order[k], r);
    }
  }

  lemma SameEffectIsSameRun<V(!new)>(effect: (Statement, seq<V>) -> seq<V>, stmts: seq<Statement>, order: seq<nat>, s: seq<V>)
    requires forall i :: 0 <= i < |order| ==> order[i] < |stmts|
    ensures Execute(effect, Rearranged(stmts, order), s) == Meaning.Run(Act(effect, stmts), order, s)
    ensures Execute(effect, stmts, s) == Meaning.Run(Act(effect, stmts), Identity(|stmts|), s)
  {
    ExecuteRearranged(effect, stmts, order, s);
    ExecuteInOrder(effect, stmts, s);
  }

  /** Effects of statements and effects of gate numbers come to the same. */
  lemma EffectsAreMeaning(stmts: seq<Statement>, qubits: nat, order: seq<nat>)
    requires DistinctRefs(stmts) && forall i :: 0 <= i < |order| ==> order[i] < |stmts|
    ensures KeepsEffects(stmts, qubits, order) <==> KeepsMeaning(NamedPrints(stmts, qubits), order)
  {
    hide Meaning.WireLocal, Meaning.Run, Execute, Act, Lifted, DistinctRefs;
    var named := NamedPrints(stmts, qubits);
    if KeepsMeaning(named, order) {
      forall effect: (Statement, Logs) -> Logs | Local(effect, stmts, qubits)
        ensures SameEffect(effect, stmts, order)
      {
        assert SameRun(Act(effect, stmts), order, |named|);
        forall s: Logs
          ensures Execute(effect, Rearranged(stmts, order), s) == Execute(effect, stmts, s)
        {
          SameEffectIsSameRun(effect, stmts, order, s);
        }
      }
    }
    if KeepsEffects(stmts, qubits, order) {
      forall act: (nat, Logs) -> Logs | Meaning.WireLocal(named, act)
        ensures SameRun(act, order, |named|)
      {
        var effect := Lifted(act, stmts);
        LiftedActs(act, stmts);
        AgreeingIsLocal(named, act, Act(effect, stmts));
        assert SameEffect(effect, stmts, order);
        forall s: Logs
          ensures Meaning.Run(act, order, s) == Meaning.Run(act, Identity(|named|), s)
        {
          SameEffectIsSameRun(effect, stmts, order, s);
          RunAgrees(Act(effect, stmts), act, order, |stmts|, s);
          RunAgrees(Act(effect, stmts), act, Identity(|named|), |stmts|, s);
        }
      }
    }
  }

  lemma AgreeingIsLocal(named: Circuit, a: (nat, Logs) -> Logs, b: (nat, Logs) -> Logs)
    requires Meaning.WireLocal(named, a) && forall g: nat, s: Logs :: g < |named| ==> b(g, s) == a(g, s)
    ensures Meaning.WireLocal(named, b)
  {
  }

  /** The pass keeps the meaning exactly if, on every bit two statements name, their stages agree with program order. */
  lemma OrderedKeepsIffInStep(stmts: seq<Statement>, qubits: nat, ls: seq<seq<nat>>, order: seq<nat>)
    requires DistinctRefs(stmts) && Ordered(stmts, qubits, ls, order)
    ensures KeepsEffects(stmts, qubits, order) <==> InStep(Prints(stmts, qubits), NamedPrints(stmts, qubits), qubits)
  {
    hide KeepsEffects, KeepsMeaning, InStep, IsLayering, ByStage, Staged;
    EffectsAreMeaning(stmts, qubits, order);
    StagedKeepsIffInStep(Prints(stmts, qubits), NamedPrints(stmts, qubits), qubits, order);
  }

  /** And then it does so for statements that act on bits with any values. */
  lemma InStepKeeps<V(!new)>(effect: (Statement, seq<V>) -> seq<V>, stmts: seq<Statement>, qubits: nat, ls: seq<seq<nat>>, order: seq<nat>)
    requires Ordered(stmts, qubits, ls, order) && Local(effect, stmts, qubits)
    requires InStep(Prints(stmts, qubits), NamedPrints(stmts, qubits), qubits)
    ensures SameEffect(effect, stmts, order)
  {
    hide InStep, IsLayering, ByStage, Staged, Meaning.WireLocal, Execute, Meaning.Run, Respects;
    StagedRespects(Prints(stmts, qubits), NamedPrints(stmts, qubits), qubits, order);
    RespectsKeeps(NamedPrints(stmts, qubits), Act(effect, stmts), order);
    forall s: seq<V>
      ensures Execute(effect, Rearranged(stmts, order), s) == Execute(effect, stmts, s)
    {
      SameEffectIsSameRun(effect, stmts, order, s);
    }
  }

  ghost predicate EveryLayeringKeeps(stmts: seq<Statement>, qubits: nat) {
    forall ls :: IsLayering(Prints(stmts, qubits), ls) ==>
      |Flatten(ls)| == |stmts| && Permutation(Flatten(ls)) && KeepsEffects(stmts, qubits, Flatten(ls))
  }

  /** Every layering keeps it exactly if statements that name a common bit are linked by ones that share appended bits. */
  lemma LayeringsKeepIffLinked(stmts: seq<Statement>, qubits: nat)
    requires DistinctRefs(stmts)
    ensures EveryLayeringKeeps(stmts, qubits) <==> Chained(Prints(stmts, qubits), NamedPrints(stmts, qubits))
  {
    hide KeepsEffects, KeepsMeaning, Chained, IsLayering, Flatten, Permutation;
    var prints, named := Prints(stmts, qubits), NamedPrints(stmts, qubits);
    forall ls | IsLayering(prints, ls)
      ensures |Flatten(ls)| == |stmts| && Permutation(Flatten(ls))
      ensures (forall i :: 0 <= i < |Flatten(ls)| ==> Flatten(ls)[i] < |stmts|) && (KeepsEffects(stmts, qubits, Flatten(ls)) <==> KeepsMeaning(named, Flatten(ls)))
    {
      LayeringSize(prints, ls);
      PermutationBounds(Flatten(ls));
      EffectsAreMeaning(stmts, qubits, Flatten(ls));
    }
    LayeringsKeepIffChained(prints, named);
  }

  lemma PermutationBounds(order: seq<nat>)
    requires Permutation(order)
    ensures forall i :: 0 <= i < |order| ==> order[i] < |order|
  {
  }

  /** Without conditional measurements nothing is hidden, and the pass keeps the meaning of every program. */
  lemma PlainProgramsKeep(stmts: seq<Statement>, qubits: nat)
    requires DistinctRefs(stmts)
    requires forall i: nat :: i < |stmts| && stmts[i].Conditional? ==> stmts[i].measured.None?
    ensures EveryLayeringKeeps(stmts, qubits)
  {
    hide EveryLayeringKeeps, DistinctRefs;
    var prints, named := Prints(stmts, qubits), NamedPrints(stmts, qubits);
    forall i: nat | i < |stmts|
      ensures named[i] == prints[i]
    {
      NamedAndAppended(stmts[i], qubits);
    }
    assert named == prints;
    forall i: nat, j: nat | i < j && Share(named, i, j)
      ensures Linked(prints, i, j)
    {
      assert Linked(prints, i, i);
    }
    LayeringsKeepIffLinked(stmts, qubits);
  }
}
