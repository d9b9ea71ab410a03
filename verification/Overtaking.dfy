/**
  A program whose meaning the pass changes. On three qubits and two classical bits it entangles q0 and q1,
  measures q1 into d if c is set, and measures q2 into d. The conditional measurement is not appended on d,
  so the plain one, which waits for nothing, overtakes it.
 */
module Overtaking {
  import opened Outcomes
  import opened Sums
  import opened Schedules
  import opened Stages
  import opened Reordering
  import Meaning

  function Overtaken(): (r: seq<Statement>)
    ensures |r| == 3 && forall i: nat :: i < 3 ==> r[i].ref == i
  {
    [Operation(0, [0, 1]), Conditional(1, [0], Some(1), [1]), Measure(2, 1, [2])]
  }

  ghost function Appended(): (p: Circuit)
    ensures |p| == 3 && p[0] == {0, 1} && p[1] == {3, 1} && p[2] == {4, 2}
  {
    [{0, 1}, {3, 1}, {4, 2}]
  }

  lemma OvertakenBits()
    ensures Prints(Overtaken(), 3) == Appended()
    ensures var named := NamedPrints(Overtaken(), 3); named[0] == {0, 1} && named[1] == {3, 1, 4} && named[2] == {4, 2}
  {
    var stmts, named := Overtaken(), NamedPrints(Overtaken(), 3);
    forall w: nat
      ensures w in Prints(stmts, 3)[0] <==> w in {0, 1}
      ensures w in Prints(stmts, 3)[1] <==> w in {3, 1}
      ensures w in Prints(stmts, 3)[2] <==> w in {4, 2}
      ensures w in named[0] <==> w in {0, 1}
      ensures w in named[1] <==> w in {3, 1, 4}
      ensures w in named[2] <==> w in {4, 2}
    {
      WiresByField(stmts[0], 3, w);
      WiresByField(stmts[1], 3, w);
      WiresByField(stmts[2], 3, w);
    }
    assert Prints(stmts, 3)[0] == Appended()[0] && Prints(stmts, 3)[1] == Appended()[1] && Prints(stmts, 3)[2] == Appended()[2];
  }

  lemma OvertakenDepths()
    ensures var p := Appended();
      && Depth(p, 3, 0) == 1 && Depth(p, 3, 1) == 2 && Depth(p, 3, 2) == 1
      && !Drained(p, 3, 0) && !Drained(p, 3, 1) && !Drained(p, 3, 2)
  {
    var p := Appended();
    hide Depth, Below, Appended;
    forall g: nat | g < 3
      ensures !Drained(p, 3, g)
    {
      assert |p[g]| == 2;
    }
    DepthOfDrained(p, 3, 0);
    DepthOfDrained(p, 3, 1);
    DepthOfDrained(p, 3, 2);
    BelowIsMax(p, 3, 0, 0);
    BelowIsMax(p, 3, 1, 1);
    BelowIsMax(p, 3, 2, 2);
    assert 1 in p[0] && 1 in p[1] && Share(p, 1, 0);
    assert !Share(p, 2, 0) && !Share(p, 2, 1);
  }

  lemma OvertakenOrder(order: seq<nat>)
    requires Staged(Appended(), 3, order) && Permutation(order) && |order| == 3
    ensures order == [0, 2, 1]
  {
    hide Depth, Sweep, Drained, Appended;
    var p := Appended();
    OvertakenDepths();
    SweepOfUndrained(p, 3, 0);
    SweepOfUndrained(p, 3, 2);
    assert Lowest(p[0]) <= 1 && Lowest(p[2]) >= 2;
    assert Before(p, 3, order[0], order[1]) && Before(p, 3, order[1], order[2]) && Before(p, 3, order[0], order[2]);
  }

  /** Wire 4 is the bit d: the last measurement into it leaves its number there. */
  ghost function LastWriter(): (Statement, seq<nat>) -> seq<nat> {
    (st: Statement, s: seq<nat>) => if |s| > 4 && st.ref > 0 then s[4 := st.ref] else s
  }

  lemma LastWriterIsLocal()
    ensures Local(LastWriter(), Overtaken(), 3)
  {
    hide NamedPrints, Overtaken, Appended;
    var named, act := NamedPrints(Overtaken(), 3), Act(LastWriter(), Overtaken());
    OvertakenBits();
    assert |named| == 3 && 4 in named[1] && 4 in named[2];
    forall g: nat, s: seq<nat> | g < 3
      ensures act(g, s) == if |s| > 4 && g > 0 then s[4 := g] else s
    {
      assert Overtaken()[g].ref == g;
    }
    WritesFour(named, act);
  }

  lemma WritesFour(named: Circuit, act: (nat, seq<nat>) -> seq<nat>)
    requires |named| == 3 && 4 in named[1] && 4 in named[2]
    requires forall g: nat, s: seq<nat> :: g < 3 ==> act(g, s) == if |s| > 4 && g > 0 then s[4 := g] else s
    ensures Meaning.WireLocal(named, act)
  {
  }

  lemma ExecuteThree<S>(effect: (Statement, S) -> S, stmts: seq<Statement>, s: S)
    requires |stmts| == 3
    ensures Execute(effect, stmts, s) == effect(stmts[2], effect(stmts[1], effect(stmts[0], s)))
  {
    assert stmts[..2][..1] == stmts[..1] && stmts[..1][..0] == [];
    assert Execute(effect, stmts[..1], s) == effect(stmts[0], s);
    assert Execute(effect, stmts[..2], s) == effect(stmts[1], effect(stmts[0], s));
  }

  lemma LastWriterRuns(stmts: seq<Statement>, s: seq<nat>)
    requires |stmts| == 3 && |s| == 5 && stmts[0].ref == 0 && stmts[1].ref > 0 && stmts[2].ref > 0
    ensures Execute(LastWriter(), stmts, s) == s[4 := stmts[2].ref]
  {
    hide Execute;
    ExecuteThree(LastWriter(), stmts, s);
  }

  /** Whatever the pass hands out for it, the other measurement writes last. */
  lemma OvertakenChanges(ls: seq<seq<nat>>, order: seq<nat>, s: seq<nat>)
    requires Ordered(Overtaken(), 3, ls, order) && |s| == 5
    ensures order == [0, 2, 1] && Local(LastWriter(), Overtaken(), 3)
    ensures Execute(LastWriter(), Overtaken(), s) == s[4 := 2]
    ensures Execute(LastWriter(), Rearranged(Overtaken(), order), s) == s[4 := 1]
  {
    hide *;
    OvertakenOrdered(ls, order);
    LastWriterIsLocal();
    OvertakenIsProgram();
    InProgramOrder(s);
    InOrder(order, s);
  }

  lemma InProgramOrder(s: seq<nat>)
    requires |s| == 5
    ensures Execute(LastWriter(), Overtaken(), s) == s[4 := 2]
  {
    hide *;
    LastWriterRuns(Overtaken(), s);
  }

  lemma InOrder(order: seq<nat>, s: seq<nat>)
    requires |s| == 5 && order == [0, 2, 1]
    ensures Execute(LastWriter(), Rearranged(Overtaken(), order), s) == s[4 := 1]
  {
    hide *;
    var t := Rearranged(Overtaken(), order);
    assert t[0] == Overtaken()[0] && t[1] == Overtaken()[2] && t[2] == Overtaken()[1];
    LastWriterRuns(t, s);
  }

  lemma OvertakenIsProgram()
    ensures Program(Overtaken()) && DistinctRefs(Overtaken()) && AllDeclared(Overtaken(), 3, 2)
  {
    hide NoRepeats, Declared;
    forall i: nat | i < 3
      ensures NoRepeats(Overtaken()[i]) && Declared(Overtaken()[i], 3, 2)
    {
      OneStatement(Overtaken()[i]);
    }
  }

  lemma OneStatement(st: Statement)
    requires st in Overtaken()
    ensures NoRepeats(st) && Declared(st, 3, 2)
  {
  }

  lemma OvertakenOrdered(ls: seq<seq<nat>>, order: seq<nat>)
    requires Ordered(Overtaken(), 3, ls, order)
    ensures order == [0, 2, 1]
  {
    hide Staged, Appended, Overtaken;
    OvertakenBits();
    OrderedIsStaged(Overtaken(), 3, ls, order);
    OvertakenOrder(order);
  }

  lemma OrderedIsStaged(stmts: seq<Statement>, qubits: nat, ls: seq<seq<nat>>, order: seq<nat>)
    requires Ordered(stmts, qubits, ls, order)
    ensures Staged(Prints(stmts, qubits), qubits, order) && Permutation(order) && |order| == |stmts|
  {
  }

  /** The pass at work on it. */
  method RunOvertaken(pass: LayerBasedOrdering) returns (m: QModule)
    modifies pass
    ensures fresh(m) && m.Whole()
    ensures forall s: seq<nat> :: |s| == 5 ==>
      Execute(LastWriter(), Overtaken(), s) == s[4 := 2] && Execute(LastWriter(), m.Statements(), s) == s[4 := 1]
  {
    hide *;
    OvertakenIsProgram();
    ghost var had := |pass.layers|;
    m := new QModule(3, 2, Overtaken());
    var ok := pass.Run(m);
    forall s: seq<nat> | |s| == 5
      ensures Execute(LastWriter(), Overtaken(), s) == s[4 := 2] && Execute(LastWriter(), m.Statements(), s) == s[4 := 1]
    {
      OvertakenChanges(pass.layers[had..], pass.ordering, s);
    }
  }
}
