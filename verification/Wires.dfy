/** Which gates lie on which wire. `prints[g]` is the set of wires the g-th appended gate acts on. */
module Wires {

  /** The gates on wire `w`, in the order they were appended. */
  ghost function OnWire(prints: seq<set<nat>>, w: nat): (r: seq<nat>)
    ensures forall k :: 0 <= k < |r| ==> r[k] < |prints| && w in prints[r[k]]
    ensures forall j, k :: 0 <= j < k < |r| ==> r[j] < r[k]
  {
    if prints == [] then []
    else
      var n := |prints| - 1;
      OnWire(prints[..n], w) + if w in prints[n] then [n] else []
  }

  lemma {:induction false} OnWireComplete(prints: seq<set<nat>>, w: nat, g: nat)
    requires g < |prints| && w in prints[g]
    ensures g in OnWire(prints, w)
  {
    var n := |prints| - 1;
    if g < n {
      OnWireComplete(prints[..n], w, g);
    }
  }

  lemma OnWireSnoc(prints: seq<set<nat>>, s: set<nat>, w: nat)
    ensures OnWire(prints + [s], w) == OnWire(prints, w) + if w in s then [|prints|] else []
  {
    assert (prints + [s])[..|prints|] == prints;
  }

  /** Widening the last footprint by `id` puts the last gate at the end of that wire and changes no other. */
  lemma OnWireWiden(prints: seq<set<nat>>, id: nat, w: nat)
    requires prints != [] && id !in prints[|prints| - 1]
    ensures var n := |prints| - 1;
            OnWire(prints[n := prints[n] + {id}], w) == OnWire(prints, w) + if w == id then [n] else []
  {
    var n := |prints| - 1;
    assert prints[n := prints[n] + {id}][..n] == prints[..n];
  }
}
