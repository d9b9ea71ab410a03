/** Bits, quantum and classical, and the wires they are numbered by. */
module Xbits {
  import opened Outcomes

  datatype Xbit = Q(id: nat) | C(id: nat)

  /** The program aborts on a bit outside the register. */
  predicate InRange(x: Xbit, qubits: nat, cbits: nat) {
    if x.Q? then x.id < qubits else x.id < cbits
  }

  /** Classical bits are numbered after the qubits. */
  function RealId(x: Xbit, qubits: nat): nat {
    if x.Q? then x.id else x.id + qubits
  }

  const WORD := 0x1_0000_0000

  /** Turns a wire number back into a bit; none for a number beyond the wires, on which the program aborts. */
  function FromRealId(realId: nat, qubits: nat, cbits: nat): Option<Xbit> {
    if realId < qubits then Some(Q(realId))
    else if realId < qubits + cbits then Some(C((qubits - realId) % WORD))
    else None
  }

  /** The wire number of a bit in machine arithmetic. */
  function RealIdWord(x: Xbit, qubits: nat): nat {
    if x.Q? then x.id else (x.id + qubits) % WORD
  }

  /** Numbering a bit and back agrees on qubits and the first classical bit only, or half a word further on. */
  lemma RealIdReturns(realId: nat, qubits: nat, cbits: nat)
    requires qubits + cbits < WORD
    ensures FromRealId(realId, qubits, cbits).None? <==> realId >= qubits + cbits
    ensures realId < qubits ==> FromRealId(realId, qubits, cbits) == Some(Q(realId))
    ensures realId < qubits + cbits ==> (RealIdWord(FromRealId(realId, qubits, cbits).value, qubits) == realId <==> realId <= qubits || realId - qubits == WORD / 2)
    ensures forall x: Xbit :: InRange(x, qubits, cbits) ==> RealIdWord(x, qubits) == RealId(x, qubits)
  {
    if qubits < realId < qubits + cbits {
      assert (qubits - realId) % WORD == WORD + qubits - realId;
    }
  }

  ghost function WiresOf(xbits: seq<Xbit>, qubits: nat): (s: set<nat>)
    ensures forall i :: 0 <= i < |xbits| ==> RealId(xbits[i], qubits) in s
  {
    set i: nat | i < |xbits| :: RealId(xbits[i], qubits)
  }

  lemma RangeByKind(xbits: seq<Xbit>, qubits: nat, cbits: nat)
    ensures (forall i :: 0 <= i < |xbits| ==> InRange(xbits[i], qubits, cbits)) <==>
      forall i :: 0 <= i < |xbits| ==> (xbits[i].Q? ==> xbits[i].id < qubits) && (xbits[i].C? ==> xbits[i].id < cbits)
    ensures forall i :: 0 <= i < |xbits| && InRange(xbits[i], qubits, cbits) ==> RealId(xbits[i], qubits) < qubits + cbits
    ensures WiresOf([], qubits) == {} && AllApart([], qubits)
  {
  }

  /** The wires of bits in range: a qubit's below `qubits`, a classical bit's from there on. */
  lemma WiresByKind(xbits: seq<Xbit>, qubits: nat, cbits: nat)
    requires forall i :: 0 <= i < |xbits| ==> InRange(xbits[i], qubits, cbits)
    ensures forall w: nat :: w in WiresOf(xbits, qubits) <==> if w < qubits then Q(w) in xbits else C(w - qubits) in xbits
  {
    forall w: nat
      ensures w in WiresOf(xbits, qubits) <==> if w < qubits then Q(w) in xbits else C(w - qubits) in xbits
    {
      if w in WiresOf(xbits, qubits) {
        var i: nat :| i < |xbits| && w == RealId(xbits[i], qubits);
        assert xbits[i] in xbits;
      }
    }
  }

  ghost predicate AllApart(xbits: seq<Xbit>, qubits: nat) {
    forall i, j :: 0 <= i < j < |xbits| ==> RealId(xbits[i], qubits) != RealId(xbits[j], qubits)
  }

  lemma WiresSnoc(xbits: seq<Xbit>, qubits: nat, i: nat)
    requires i < |xbits|
    ensures WiresOf(xbits[..i + 1], qubits) == WiresOf(xbits[..i], qubits) + {RealId(xbits[i], qubits)}
    ensures AllApart(xbits[..i + 1], qubits) <==> AllApart(xbits[..i], qubits) && RealId(xbits[i], qubits) !in WiresOf(xbits[..i], qubits)
  {
    hide RealId;
    assert xbits[..i + 1] == xbits[..i] + [xbits[i]];
    var a, b := xbits[..i + 1], xbits[..i];
    assert forall k :: 0 <= k < i ==> a[k] == b[k];
    assert a[i] == xbits[i];
  }
}
