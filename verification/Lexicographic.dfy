/** Permutations in lexicographic order: the library's successor step, and the list of all of them that repeating it gives. */
module Lexicographic {
  import opened Sums
  import opened Placements
  import opened Permutations

  /** `p` and `q` first differ at `k`, where `p` is smaller. */
  ghost predicate SmallerAt(p: seq<nat>, q: seq<nat>, k: nat) {
    k < |p| == |q| && p[k] < q[k] && forall i :: 0 <= i < k ==> p[i] == q[i]
  }

  ghost predicate Less(p: seq<nat>, q: seq<nat>) {
    exists k: nat :: SmallerAt(p, q, k)
  }

  lemma LessOneWay(p: seq<nat>, q: seq<nat>)
    ensures !(Less(p, q) && Less(q, p)) && !Less(p, p)
  {
  }

  lemma LessTransitive(p: seq<nat>, q: seq<nat>, r: seq<nat>)
    requires Less(p, q) && Less(q, r)
    ensures Less(p, r)
  {
    var j: nat :| SmallerAt(p, q, j);
    var k: nat :| SmallerAt(q, r, k);
    assert SmallerAt(p, r, if j < k then j else k);
  }

  lemma {:induction false} LessTotal(p: seq<nat>, q: seq<nat>, k: nat)
    requires |p| == |q| && k <= |p| && forall i :: 0 <= i < k ==> p[i] == q[i]
    ensures p == q || Less(p, q) || Less(q, p)
    decreases |p| - k
  {
    if k < |p| {
      if p[k] == q[k] {
        LessTotal(p, q, k + 1);
      } else {
        assert SmallerAt(p, q, k) || SmallerAt(q, p, k);
      }
    }
  }

  ghost predicate Falling(p: seq<nat>, i: nat) {
    forall x, y :: i <= x < y < |p| ==> p[x] > p[y]
  }

  ghost predicate Rising(p: seq<nat>, i: nat) {
    forall x, y :: i <= x < y < |p| ==> p[x] < p[y]
  }

  /** A falling tail admits nothing larger, a rising one nothing smaller. */
  lemma TailIsExtreme(p: seq<nat>, r: seq<nat>, i: nat, k: nat)
    requires Permutation(p) && Permutation(r) && |p| == |r|
    ensures Falling(p, i) && SmallerAt(p, r, k) ==> k < i
    ensures Rising(p, i) && SmallerAt(r, p, k) ==> k < i
  {
    if k < |r| {
      PermutationHits(p, r[k]);
      var m :| 0 <= m < |p| && p[m] == r[k];
    }
  }

  /** The successor in lexicographic order among the permutations of one size. */
  ghost predicate Successor(p: seq<nat>, q: seq<nat>) {
    && PermutationOf(q, |p|) && Less(p, q)
    && forall r :: PermutationOf(r, |p|) && Less(p, r) ==> r == q || Less(q, r)
  }

  ghost predicate Greatest(p: seq<nat>) {
    forall r :: PermutationOf(r, |p|) ==> !Less(p, r)
  }

  /** Reverses the tail from `i` on. */
  function Turned(p: seq<nat>, i: nat): (r: seq<nat>)
    requires i <= |p|
    ensures |r| == |p| && forall x :: 0 <= x < |p| ==> r[x] == p[if x < i then x else |p| - 1 - (x - i)]
  {
    seq(|p|, x requires 0 <= x < |p| => p[if x < i then x else |p| - 1 - (x - i)])
  }

  /** std::next_permutation: false on the last one. */
  method NextPermutation(p: seq<nat>) returns (more: bool, q: seq<nat>)
    requires Permutation(p)
    ensures if more then Successor(p, q) else Greatest(p)
  {
    hide Successor, Greatest, Permutation;
    q := p;
    var i: nat := |p|;
    while i > 0 && (i == |p| || p[i - 1] > p[i])
      invariant i <= |p| && Falling(p, i)
    {
      i := i - 1;
    }
    if i == 0 {
      FallingIsLast(p);
      return false, q;
    }
    var j: nat := |p| - 1;
    assert p[i - 1] != p[j] by { Unequal(p, i - 1, j); }
    while p[j] < p[i - 1]
      invariant i <= j < |p| && p[i - 1] != p[j] && forall m :: j < m < |p| ==> p[m] < p[i - 1]
    {
      j := j - 1;
      Unequal(p, i - 1, j);
    }
    q := Turned(Exchange(p, i - 1, j), i);
    TurnedIsNext(p, i, j, q);
    more := true;
  }

  lemma Unequal(p: seq<nat>, i: nat, j: nat)
    requires Permutation(p) && i < |p| && j < |p| && i != j
    ensures p[i] != p[j]
  {
  }

  lemma FallingIsLast(p: seq<nat>)
    requires Permutation(p) && Falling(p, 0)
    ensures Greatest(p)
  {
    forall r | PermutationOf(r, |p|)
      ensures !Less(p, r)
    {
      forall k: nat
        ensures !SmallerAt(p, r, k)
      {
        TailIsExtreme(p, r, 0, k);
      }
    }
  }

  lemma TurnedIsNext(p: seq<nat>, i: nat, j: nat, q: seq<nat>)
    requires Permutation(p) && 0 < i <= j < |p| && Falling(p, i) && p[i - 1] < p[j]
    requires forall m :: j < m < |p| ==> p[m] < p[i - 1]
    requires q == Turned(Exchange(p, i - 1, j), i)
    ensures Successor(p, q)
  {
    hide Permutation, Rising, Falling, Turned;
    ExchangePermutation(p, i - 1, j);
    TurnedPermutation(Exchange(p, i - 1, j), i);
    TurnedRises(p, i, j, q);
    assert Less(p, q);
    forall r | PermutationOf(r, |p|) && Less(p, r)
      ensures r == q || Less(q, r)
    {
      NothingBetween(p, i, j, q, r);
    }
  }

  lemma TurnedRises(p: seq<nat>, i: nat, j: nat, q: seq<nat>)
    requires 0 < i <= j < |p| && Falling(p, i) && p[i - 1] < p[j]
    requires forall m :: j < m < |p| ==> p[m] < p[i - 1]
    requires q == Turned(Exchange(p, i - 1, j), i)
    ensures SmallerAt(p, q, i - 1) && q[i - 1] == p[j] && Rising(q, i)
  {
    assert Falling(Exchange(p, i - 1, j), i);
  }

  lemma TurnedPermutation(p: seq<nat>, i: nat)
    requires Permutation(p) && i <= |p|
    ensures Permutation(Turned(p, i))
  {
  }

  lemma NothingBetween(p: seq<nat>, i: nat, j: nat, q: seq<nat>, r: seq<nat>)
    requires Permutation(p) && 0 < i <= j < |p| && Falling(p, i) && p[i - 1] < p[j]
    requires forall m :: j < m < |p| ==> p[m] < p[i - 1]
    requires PermutationOf(q, |p|) && Rising(q, i) && q[i - 1] == p[j] && forall x :: 0 <= x < i - 1 ==> q[x] == p[x]
    requires PermutationOf(r, |p|) && Less(p, r)
    ensures r == q || Less(q, r)
  {
    var k: nat :| SmallerAt(p, r, k);
    TailIsExtreme(p, r, i, k);
    if k < i - 1 {
      assert SmallerAt(q, r, k);
    } else {
      PermutationHits(p, r[k]);
      var m :| 0 <= m < |p| && p[m] == r[k];
      assert m >= i;
      if r[k] != q[k] {
        assert SmallerAt(q, r, k);
      } else {
        LessTotal(q, r, 0);
        if Less(r, q) {
          var x: nat :| SmallerAt(r, q, x);
          TailIsExtreme(q, r, i, x);
        }
      }
    }
  }

  // How many permutations there are.

  /** The permutations of n numbers: the largest one goes last and then trades places with any other. */
  ghost function All(n: nat): set<seq<nat>> {
    if n == 0 then {[]} else AllExtended(All(n - 1), n)
  }

  ghost function AllExtended(s: set<seq<nat>>, n: nat): set<seq<nat>> {
    set q, i: nat | q in s && i < n :: Extended(q, i)
  }

  ghost function Extended(q: seq<nat>, i: nat): seq<nat> {
    if i <= |q| then Exchange(q + [|q|], i, |q|) else q
  }

  lemma {:induction false} AllComplete(p: seq<nat>)
    requires Permutation(p)
    ensures p in All(|p|)
    decreases |p|
  {
    if p != [] {
      var k := |p| - 1;
      PermutationHits(p, k);
      var i :| 0 <= i < |p| && p[i] == k;
      DropLargest(p, i);
      AllComplete(Moved(p, i));
      assert p == Extended(Moved(p, i), i);
    }
  }

  function Factorial(n: nat): nat {
    if n == 0 then 1 else n * Factorial(n - 1)
  }

  lemma {:induction false} AllBound(n: nat)
    ensures |All(n)| <= Factorial(n)
  {
    if n > 0 {
      AllBound(n - 1);
      ExtendedBound(All(n - 1), n);
      Scaled(|All(n - 1)|, Factorial(n - 1), n);
    }
  }

  lemma Scaled(a: nat, b: nat, n: nat)
    requires a <= b
    ensures a * n <= n * b
  {
  }

  lemma {:induction false} ExtendedBound(s: set<seq<nat>>, n: nat)
    ensures |AllExtended(s, n)| <= |s| * n
  {
    hide AllExtended, OneExtended;
    if p :| p in s {
      ExtendedBound(s - {p}, n);
      OneExtendedBound(p, n);
      ExtendedSplits(s, p, n);
      assert |s - {p}| == |s| - 1;
    } else {
      ExtendedNone(s, n);
    }
  }

  ghost function OneExtended(p: seq<nat>, n: nat): set<seq<nat>> {
    set i: nat | i < n :: Extended(p, i)
  }

  lemma ExtendedSplits(s: set<seq<nat>>, p: seq<nat>, n: nat)
    requires p in s
    ensures AllExtended(s, n) == AllExtended(s - {p}, n) + OneExtended(p, n)
    ensures |AllExtended(s, n)| <= |AllExtended(s - {p}, n)| + |OneExtended(p, n)|
  {
    hide Extended;
  }

  lemma ExtendedNone(s: set<seq<nat>>, n: nat)
    requires s == {}
    ensures AllExtended(s, n) == {}
  {
    hide Extended;
  }

  lemma {:induction false} OneExtendedBound(p: seq<nat>, n: nat)
    ensures |OneExtended(p, n)| <= n
  {
    hide Extended;
    if n > 0 {
      OneExtendedBound(p, n - 1);
      assert OneExtended(p, n) == OneExtended(p, n - 1) + {Extended(p, n - 1)};
    }
  }

  lemma {:induction false} ListBound(perms: seq<seq<nat>>, s: set<seq<nat>>)
    requires forall a: nat, b: nat :: a < b < |perms| ==> perms[a] != perms[b]
    requires forall a: nat :: a < |perms| ==> perms[a] in s
    ensures |perms| <= |s|
  {
    if perms != [] {
      var k := |perms| - 1;
      ListBound(perms[..k], s - {perms[k]});
    }
  }

  // Listing them all.

  /** The permutations below `p`, each once, the identity first. */
  ghost predicate Listed(perms: seq<seq<nat>>, n: nat, p: seq<nat>) {
    && (perms == [] ==> p == Identity(n)) && (perms != [] ==> perms[0] == Identity(n))
    && (forall a: nat :: a < |perms| ==> PermutationOf(perms[a], n))
    && (forall a: nat, b: nat :: a < b < |perms| ==> perms[a] != perms[b])
    && forall r :: PermutationOf(r, n) ==> (r in perms <==> Less(r, p))
  }

  lemma ListedBound(perms: seq<seq<nat>>, n: nat)
    requires forall a: nat :: a < |perms| ==> PermutationOf(perms[a], n)
    requires forall a: nat, b: nat :: a < b < |perms| ==> perms[a] != perms[b]
    ensures |perms| <= |All(n)| <= Factorial(n)
  {
    hide Permutation, Factorial, All;
    forall a: nat | a < |perms|
      ensures perms[a] in All(n)
    {
      AllComplete(perms[a]);
    }
    ListBound(perms, All(n));
    AllBound(n);
  }

  lemma ListedStart(n: nat)
    ensures Listed([], n, Identity(n))
  {
    forall r | PermutationOf(r, n)
      ensures !Less(r, Identity(n))
    {
      forall k: nat
        ensures !SmallerAt(r, Identity(n), k)
      {
        TailIsExtreme(Identity(n), r, 0, k);
      }
    }
  }

  lemma ListedMore(perms: seq<seq<nat>>, n: nat, p: seq<nat>)
    requires Listed(perms, n, p) && PermutationOf(p, n)
    ensures p !in perms && perms + [p] != [] && (perms + [p])[0] == Identity(n)
    ensures forall a: nat :: a <= |perms| ==> PermutationOf((perms + [p])[a], n)
    ensures forall a: nat, b: nat :: a < b <= |perms| ==> (perms + [p])[a] != (perms + [p])[b]
    ensures forall r :: PermutationOf(r, n) ==> (r in perms + [p] <==> r == p || Less(r, p))
  {
    hide Permutation, Less;
    LessOneWay(p, p);
    assert forall a: nat :: a < |perms| ==> perms[a] in perms;
  }

  lemma ListedNext(perms: seq<seq<nat>>, n: nat, p: seq<nat>, q: seq<nat>)
    requires Listed(perms, n, p) && PermutationOf(p, n) && Successor(p, q)
    ensures Listed(perms + [p], n, q)
  {
    hide Permutation, Less;
    ListedMore(perms, n, p);
    forall r | PermutationOf(r, n)
      ensures Less(r, q) <==> r == p || Less(r, p)
    {
      LessOneWay(r, q);
      LessOneWay(r, p);
      LessTotal(r, p, 0);
      if Less(r, p) {
        LessTransitive(r, p, q);
      }
    }
  }

  lemma ListedLast(perms: seq<seq<nat>>, n: nat, p: seq<nat>)
    requires Listed(perms, n, p) && PermutationOf(p, n) && Greatest(p)
    ensures Enumeration(perms + [p], n)
  {
    hide Permutation, Less;
    ListedMore(perms, n, p);
    forall r | PermutationOf(r, n)
      ensures r in perms + [p]
    {
      LessTotal(r, p, 0);
    }
  }

  method GenAllAssigns(n: nat) returns (perms: seq<seq<nat>>)
    ensures Enumeration(perms, n) && |perms| <= Factorial(n)
  {
    hide Listed, Successor, Greatest, Less, Permutation, Factorial, All;
    var inv := Identity(n);
    perms := [];
    ListedStart(n);
    assert Permutation(inv) by { IdentityPermutes(n); }
    while true
      invariant Listed(perms, n, inv) && PermutationOf(inv, n) && |perms| <= |All(n)|
      decreases |All(n)| - |perms|
    {
      ListedMore(perms, n, inv);
      ListedBound(perms + [inv], n);
      var more, next := NextPermutation(inv);
      if !more {
        ListedLast(perms, n, inv);
      } else {
        ListedNext(perms, n, inv, next);
        assert PermutationOf(next, n) by { NextPermutes(inv, next); }
      }
      perms := perms + [inv];
      inv := next;
      if !more {
        break;
      }
    }
  }

  lemma IdentityPermutes(n: nat)
    ensures Permutation(Identity(n))
  {
  }

  lemma NextPermutes(p: seq<nat>, q: seq<nat>)
    requires Successor(p, q)
    ensures PermutationOf(q, |p|)
  {
  }
}
