/** Filling the blanks of a partial problem so that the total distance becomes as small as possible. */
module Completion {
  import opened Sums
  import opened Networks
  import opened Placements
  import opened Distances
  import H = Hungarian
  import B = Matchings

  // The positions at which a flag is set, ascending.

  ghost function Indices(flags: seq<bool>): (r: seq<nat>)
    ensures forall i :: 0 <= i < |r| ==> r[i] < |flags|
  {
    if flags == [] then []
    else Indices(flags[..|flags| - 1]) + if flags[|flags| - 1] then [|flags| - 1] else []
  }

  lemma {:induction false} IndicesFacts(flags: seq<bool>)
    ensures forall v: nat :: v in Indices(flags) <==> v < |flags| && flags[v]
    ensures forall i, j :: 0 <= i < j < |Indices(flags)| ==> Indices(flags)[i] < Indices(flags)[j]
  {
    if flags != [] {
      IndicesFacts(flags[..|flags| - 1]);
    }
  }

  ghost function Negated(flags: seq<bool>): (r: seq<bool>)
    ensures |r| == |flags| && forall i :: 0 <= i < |r| ==> r[i] == !flags[i]
  {
    seq(|flags|, i requires 0 <= i < |flags| => !flags[i])
  }

  /** A sum splits into the terms whose flag is set and the others. */
  lemma {:induction false} SplitSum(s: seq<nat>, flags: seq<bool>)
    requires |s| == |flags|
    ensures Sum(s) == Sum(Pick(s, Indices(flags))) + Sum(Pick(s, Indices(Negated(flags))))
    ensures |Indices(flags)| + |Indices(Negated(flags))| == |s|
  {
    if s != [] {
      var k := |s| - 1;
      assert Negated(flags)[..k] == Negated(flags[..k]);
      SplitSum(s[..k], flags[..k]);
      PickLast(s, flags);
      PickLast(s, Negated(flags));
    }
  }

  lemma PickLast(s: seq<nat>, flags: seq<bool>)
    requires |s| == |flags| > 0
    ensures Sum(Pick(s, Indices(flags))) ==
            Sum(Pick(s[..|s| - 1], Indices(flags[..|s| - 1]))) + if flags[|s| - 1] then s[|s| - 1] else 0
  {
    var k := |s| - 1;
    var a, b := Pick(s, Indices(flags)), Pick(s[..k], Indices(flags[..k]));
    if flags[k] {
      assert a == b + [s[k]];
      assert a[..|a| - 1] == b;
    } else {
      assert a == b;
    }
  }

  ghost function Blank(p: Placement): (r: seq<bool>)
    ensures |r| == |p| && forall i :: 0 <= i < |p| ==> r[i] == (p[i] == UNDEF)
  {
    seq(|p|, i requires 0 <= i < |p| => p[i] == UNDEF)
  }

  ghost function Missing(p: Placement): (r: seq<bool>)
    ensures |r| == |p| && forall t :: 0 <= t < |p| ==> r[t] == (t !in p)
  {
    seq(|p|, t requires 0 <= t < |p| => t !in p)
  }

  /** There are as many blank vertices as there are tokens not on the board. */
  lemma BlanksMatchMissing(p: Placement)
    requires |p| <= UNDEF && IsPlacement(p, |p|)
    ensures |Indices(Blank(p))| == |Indices(Missing(p))|
  {
    hide Indices, Distinct, Pick, IsPlacement;
    var n := |p|;
    var held, gone := Indices(Negated(Blank(p))), Indices(Missing(p));
    SplitSum(p, Blank(p));
    HeldTokens(p);
    IndicesFacts(Missing(p));
    var tokens := Pick(p, held);
    AllDistinct(p, tokens, gone);
    DistinctBound(tokens + gone, n);
    forall v: nat | v < n
      ensures v in tokens + gone
    {
      assert v in tokens || v in gone;
    }
    CoverBound(tokens + gone, n);
  }

  lemma HeldTokens(p: Placement)
    requires |p| <= UNDEF && IsPlacement(p, |p|)
    ensures var tokens := Pick(p, Indices(Negated(Blank(p))));
            && Distinct(tokens)
            && (forall v: nat :: v < |p| && v in p ==> v in tokens)
            && forall i :: 0 <= i < |tokens| ==> tokens[i] in p && tokens[i] != UNDEF
  {
    hide Indices;
    IndicesFacts(Negated(Blank(p)));
    RealTokens(p, Indices(Negated(Blank(p))));
  }

  lemma RealTokens(p: Placement, held: seq<nat>)
    requires |p| <= UNDEF && Injective(p) && (forall i: nat :: i in held <==> i < |p| && p[i] != UNDEF)
    requires forall i, j :: 0 <= i < j < |held| ==> held[i] < held[j]
    requires forall i :: 0 <= i < |held| ==> held[i] < |p|
    ensures Distinct(Pick(p, held))
    ensures forall v: nat :: v < |p| && v in p ==> v in Pick(p, held)
    ensures forall i :: 0 <= i < |held| ==> Pick(p, held)[i] in p && Pick(p, held)[i] != UNDEF
  {
    forall i | 0 <= i < |held|
      ensures p[held[i]] != UNDEF
    {
      assert held[i] in held;
    }
    forall v: nat | v < |p| && v in p
      ensures v in Pick(p, held)
    {
      var x: nat :| x < |p| && p[x] == v;
      assert x in held;
      var i :| 0 <= i < |held| && held[i] == x;
      assert Pick(p, held)[i] == v;
    }
  }

  lemma AllDistinct(p: Placement, here: seq<nat>, gone: seq<nat>)
    requires IsPlacement(p, |p|) && Distinct(here) && forall i :: 0 <= i < |here| ==> here[i] in p && here[i] != UNDEF
    requires forall i, j :: 0 <= i < j < |gone| ==> gone[i] < gone[j]
    requires forall i :: 0 <= i < |gone| ==> gone[i] < |p| && gone[i] !in p
    ensures Distinct(here + gone) && forall i :: 0 <= i < |here + gone| ==> (here + gone)[i] < |p|
  {
  }

  // The steps of fixUndefAssignments.

  lemma IndicesStep(flags: seq<bool>, i: nat)
    requires i < |flags|
    ensures Indices(flags[..i + 1]) == Indices(flags[..i]) + if flags[i] then [i] else []
  {
    assert flags[..i + 1][..i] == flags[..i];
  }

  method BlanksOf(p: Placement) returns (blanks: seq<nat>)
    ensures blanks == Indices(Blank(p))
  {
    blanks := [];
    for i := 0 to |p|
      invariant blanks == Indices(Blank(p)[..i])
    {
      IndicesStep(Blank(p), i);
      if p[i] == UNDEF {
        blanks := blanks + [i];
      }
    }
    assert Blank(p)[..|p|] == Blank(p);
  }

  method DefinedTokens(to: Placement) returns (isnotundef: seq<bool>)
    requires |to| <= UNDEF && IsPlacement(to, |to|)
    ensures |isnotundef| == |to| && forall t: nat :: t < |to| ==> (isnotundef[t] <==> t in to)
  {
    isnotundef := seq(|to|, _ => false);
    for i := 0 to |to|
      invariant |isnotundef| == |to|
      invariant forall t: nat :: t < |to| ==> (isnotundef[t] <==> exists x: nat :: x < i && to[x] == t)
    {
      if to[i] != UNDEF {
        isnotundef := isnotundef[to[i] := true];
      }
    }
  }

  method LogicalUndefs(isnotundef: seq<bool>, ghost to: Placement) returns (gone: seq<nat>)
    requires |isnotundef| == |to| && forall t: nat :: t < |to| ==> (isnotundef[t] <==> t in to)
    ensures gone == Indices(Missing(to))
  {
    gone := [];
    for i := 0 to |isnotundef|
      invariant gone == Indices(Missing(to)[..i])
    {
      IndicesStep(Missing(to), i);
      if !isnotundef[i] {
        gone := gone + [i];
      }
    }
    assert Missing(to)[..|to|] == Missing(to);
  }

  ghost predicate DistanceTable(g: Net, U: seq<nat>, V: seq<nat>, d: seq<seq<nat>>) {
    && |d| == |U| == |V|
    && (forall i: nat :: i < |U| ==> |d[i]| == |V|)
    && forall i: nat, j: nat :: i < |U| && j < |V| ==> d[i][j] == Dist(g, U[i], V[j])
  }

  method MeasureBlanks(g: Net, U: seq<nat>, V: seq<nat>) returns (d: seq<seq<nat>>)
    requires WellFormed(g) && |U| == |V|
    requires forall i :: 0 <= i < |U| ==> U[i] < |g.adj| && V[i] < |g.adj|
    ensures DistanceTable(g, U, V, d)
  {
    hide Dist, Reach, WellFormed;
    d := [];
    for i := 0 to |U|
      invariant |d| == i && forall x: nat :: x < i ==> |d[x]| == |V|
      invariant forall x: nat, j: nat :: x < i && j < |V| ==> d[x][j] == Dist(g, U[x], V[j])
    {
      var dist := DistancesFrom(g, U[i]);
      var row: seq<nat> := [];
      for j := 0 to |V|
        invariant |row| == j && forall y: nat :: y < j ==> row[y] == Dist(g, U[i], V[y])
      {
        row := row + [dist[V[j]]];
      }
      d := d + [row];
    }
  }

  ghost predicate Inverted(d: seq<seq<nat>>, maxw: nat, w: seq<seq<nat>>) {
    && |w| == |d|
    && (forall i: nat :: i < |w| ==> |w[i]| == |d[i]| == |w|)
    && forall i: nat, j: nat :: i < |w| && j < |w| ==> w[i][j] + d[i][j] == maxw
  }

  method HeaviestEdge(d: seq<seq<nat>>, ghost bound: nat) returns (maxw: nat)
    requires forall i: nat :: i < |d| ==> |d[i]| == |d|
    requires forall i: nat, j: nat :: i < |d| && j < |d| ==> d[i][j] <= bound
    ensures maxw <= bound && forall i: nat, j: nat :: i < |d| && j < |d| ==> d[i][j] <= maxw
  {
    maxw := 0;
    for i := 0 to |d|
      invariant maxw <= bound && forall x: nat, j: nat :: x < i && j < |d| ==> d[x][j] <= maxw
    {
      for j := 0 to |d|
        invariant maxw <= bound && forall x: nat, y: nat :: x < i && y < |d| ==> d[x][y] <= maxw
        invariant forall y: nat :: y < j ==> d[i][y] <= maxw
      {
        if maxw < d[i][j] {
          maxw := d[i][j];
        }
      }
    }
  }

  /** Turns the minimum-distance problem into a maximum-weight one and labels each row by its heaviest edge. */
  method Invert(d: seq<seq<nat>>, maxw: nat) returns (w: H.Weights, l: H.Labels)
    requires 2 * |d| <= UNDEF && 2 * maxw <= UNDEF && forall i: nat :: i < |d| ==> |d[i]| == |d|
    requires forall i: nat, j: nat :: i < |d| && j < |d| ==> d[i][j] <= maxw
    ensures Inverted(d, maxw, w) && H.Feasible(w, maxw, l)
    ensures forall j: nat :: j < |w| ==> l.col[j] == 0
  {
    var k := |d|;
    w := [];
    var rows: seq<nat> := [];
    for i := 0 to k
      invariant |w| == |rows| == i
      invariant forall x: nat :: x < i ==> |w[x]| == k && rows[x] <= maxw
      invariant forall x: nat, y: nat :: x < i && y < k ==> w[x][y] + d[x][y] == maxw && w[x][y] <= rows[x]
    {
      var row: seq<nat> := [];
      var top: nat := 0;
      for j := 0 to k
        invariant |row| == j && top <= maxw
        invariant forall y: nat :: y < j ==> row[y] + d[i][y] == maxw && row[y] <= top
      {
        var neww: nat := maxw - d[i][j];
        row := row + [neww];
        top := if top > neww then top else neww;
      }
      w, rows := w + [row], rows + [top];
    }
    l := H.Labels(rows, seq(k, _ => 0));
  }

  /** `r` is `p` with the values written at the listed positions. */
  ghost predicate Filled(p: Placement, at: seq<nat>, vals: seq<nat>, r: Placement) {
    && |r| == |p| && |at| == |vals|
    && (forall i: nat :: i < |at| ==> at[i] < |p| && r[at[i]] == vals[i])
    && forall x: nat :: x < |p| && x !in at ==> r[x] == p[x]
  }

  method Fill(p: Placement, at: seq<nat>, vals: seq<nat>) returns (r: Placement)
    requires |at| == |vals| && Distinct(at) && forall i :: 0 <= i < |at| ==> at[i] < |p|
    ensures Filled(p, at, vals, r)
  {
    r := p;
    for i := 0 to |at|
      invariant |r| == |p|
      invariant forall x: nat :: x < i ==> r[at[x]] == vals[x]
      invariant forall x: nat :: x < |p| && x !in at ==> r[x] == p[x]
    {
      r := r[at[i] := vals[i]];
    }
  }

  // What the filled placements are, and that no other way of filling them is cheaper.

  /** `q` puts a token on every vertex and keeps the tokens `p` already had. */
  ghost predicate IsCompletion(p: Placement, q: Placement) {
    |q| == |p| && Permutation(q) && forall i: nat :: i < |p| && p[i] != UNDEF ==> q[i] == p[i]
  }

  ghost predicate SameTokens(from: Placement, to: Placement) {
    forall t: nat :: t != UNDEF ==> (t in from <==> t in to)
  }

  lemma FilledCompletes(p: Placement, vals: seq<nat>, q: Placement)
    requires |p| <= UNDEF && IsPlacement(p, |p|) && Filled(p, Indices(Blank(p)), vals, q)
    requires Distinct(vals) && forall i :: 0 <= i < |vals| ==> vals[i] < |p| && vals[i] !in p
    ensures IsCompletion(p, q)
  {
    IndicesFacts(Blank(p));
    var U := Indices(Blank(p));
    forall x: nat | x < |p|
      ensures q[x] < |p|
      ensures p[x] == UNDEF ==> exists i: nat :: i < |U| && U[i] == x && q[x] == vals[i]
      ensures p[x] != UNDEF ==> q[x] == p[x]
    {
      if p[x] == UNDEF {
        assert x in U;
        var i: nat :| i < |U| && U[i] == x;
      }
    }
  }

  /** A token that was on the board is as far from home in every completion. */
  lemma FixedShare(g: Net, from: Placement, to: Placement, f: Placement, t: Placement, i: nat)
    requires |from| == |to| <= UNDEF && IsPlacement(to, |to|) && SameTokens(from, to)
    requires IsCompletion(from, f) && IsCompletion(to, t)
    requires i < |from| && from[i] != UNDEF
    ensures TokenShare(g, t, Plain, f[i], i) == TokenShare(g, to, Plain, from[i], i)
  {
  }

  /** Where a completion sends the token it put on the blank vertex U[i]: to the blank vertex V[j]. */
  lemma BlankTarget(from: Placement, to: Placement, f: Placement, t: Placement, U: seq<nat>, V: seq<nat>, i: nat) returns (j: nat)
    requires |from| == |to| <= UNDEF && SameTokens(from, to)
    requires IsCompletion(from, f) && IsCompletion(to, t)
    requires U == Indices(Blank(from)) && V == Indices(Blank(to)) && i < |U|
    ensures j < |V| && V[j] < |t| && t[V[j]] == f[U[i]] && f[U[i]] in t && Home(t, f[U[i]]) == V[j]
  {
    IndicesFacts(Blank(from));
    IndicesFacts(Blank(to));
    assert U[i] in U;
    var tok := f[U[i]];
    PermutationHits(t, tok);
    var h := Home(t, tok);
    forall x: nat | x < |from|
      ensures from[x] != tok
    {
      if from[x] != UNDEF {
        assert f[x] == from[x] && x != U[i];
      }
    }
    assert tok !in from && tok !in to;
    assert to[h] == UNDEF;
    assert h in V;
    j :| 0 <= j < |V| && V[j] == h;
  }

  /** The assignment of blanks that a completion amounts to. */
  lemma BlankAssignment(from: Placement, to: Placement, f: Placement, t: Placement, U: seq<nat>, V: seq<nat>) returns (s: seq<nat>)
    requires |from| == |to| <= UNDEF && SameTokens(from, to)
    requires IsCompletion(from, f) && IsCompletion(to, t)
    requires U == Indices(Blank(from)) && V == Indices(Blank(to)) && |U| == |V|
    ensures |s| == |U| && Permutation(s)
    ensures forall i: nat :: i < |U| ==> t[V[s[i]]] == f[U[i]] && f[U[i]] in t && Home(t, f[U[i]]) == V[s[i]]
  {
    hide Indices;
    IndicesFacts(Blank(from));
    s := [];
    while |s| < |U|
      invariant |s| <= |U|
      invariant forall i: nat :: i < |s| ==>
        s[i] < |V| && t[V[s[i]]] == f[U[i]] && f[U[i]] in t && Home(t, f[U[i]]) == V[s[i]]
    {
      var j := BlankTarget(from, to, f, t, U, V, |s|);
      s := s + [j];
    }
    forall a, b | 0 <= a < b < |s|
      ensures s[a] != s[b]
    {
      assert U[a] < U[b];
      assert f[U[a]] != f[U[b]];
    }
  }

  ghost function Constant(k: nat, c: nat): (r: seq<nat>)
    ensures |r| == k && forall i :: 0 <= i < k ==> r[i] == c
  {
    seq(k, i => c)
  }

  /** Weights were distances subtracted from `maxw`, so heavier is nearer. */
  lemma InvertedValue(d: seq<seq<nat>>, maxw: nat, w: H.Weights, s: seq<nat>)
    requires Inverted(d, maxw, w) && |s| == |d| && Permutation(s)
    ensures (forall i :: 0 <= i < |d| ==> |d[i]| == |d|) && (forall i :: 0 <= i < |w| ==> |w[i]| == |w|)
    ensures B.Value(w, s) + B.Value(d, s) == Sum(Constant(|d|, maxw))
  {
    hide Sum, Distinct;
    SumAdds(B.Entries(w, s), B.Entries(d, s), Constant(|d|, maxw));
  }

  /** The total distance of a completed problem: a part all completions share, and the assignment of the blanks. */
  lemma TotalOfCompletion(g: Net, from: Placement, to: Placement, f: Placement, t: Placement,
                          U: seq<nat>, V: seq<nat>, d: seq<seq<nat>>, s: seq<nat>)
    requires |from| == |to| <= UNDEF && IsPlacement(from, |from|) && IsPlacement(to, |to|) && SameTokens(from, to)
    requires IsCompletion(from, f) && IsCompletion(to, t)
    requires U == Indices(Blank(from)) && V == Indices(Blank(to)) && DistanceTable(g, U, V, d)
    requires |s| == |U| && Permutation(s)
    requires forall i: nat :: i < |U| ==> t[V[s[i]]] == f[U[i]] && f[U[i]] in t && Home(t, f[U[i]]) == V[s[i]]
    ensures Total(g, t, Plain, f) ==
            B.Value(d, s) + Sum(Pick(TokenShares(g, to, Plain, from), Indices(Negated(Blank(from)))))
  {
    hide Indices, Sum, Dist, Distinct, Home;
    assert forall i :: 0 <= i < |f| ==> f[i] < |f| by { Entry(f, from); }
    var all := TokenShares(g, t, Plain, f);
    var held := Indices(Negated(Blank(from)));
    SplitSum(all, Blank(from));
    assert Pick(all, U) == B.Entries(d, s) by { PickBlanks(g, f, t, U, V, d, s); }
    IndicesFacts(Negated(Blank(from)));
    forall i | 0 <= i < |held|
      ensures Pick(all, held)[i] == Pick(TokenShares(g, to, Plain, from), held)[i]
    {
      assert held[i] in held;
      FixedShare(g, from, to, f, t, held[i]);
    }
    assert Pick(all, held) == Pick(TokenShares(g, to, Plain, from), held);
  }

  lemma Entry(q: Placement, p: Placement)
    requires IsCompletion(p, q)
    ensures forall i :: 0 <= i < |q| ==> q[i] < |q|
  {
  }

  lemma PickBlanks(g: Net, f: Placement, t: Placement, U: seq<nat>, V: seq<nat>, d: seq<seq<nat>>, s: seq<nat>)
    requires |f| == |t| <= UNDEF && (forall i :: 0 <= i < |f| ==> f[i] < |f|) && DistanceTable(g, U, V, d)
    requires forall i :: 0 <= i < |U| ==> U[i] < |f| && V[i] < |f|
    requires |s| == |U| && Permutation(s)
    requires forall i: nat :: i < |U| ==> t[V[s[i]]] == f[U[i]] && f[U[i]] in t && Home(t, f[U[i]]) == V[s[i]]
    ensures Pick(TokenShares(g, t, Plain, f), U) == B.Entries(d, s)
  {
    hide Dist, Distinct, Home;
  }

  ghost predicate Cheapest(g: Net, from: Placement, to: Placement, f: Placement, t: Placement) {
    forall f', t' :: IsCompletion(from, f') && IsCompletion(to, t') ==>
      Total(g, t, Plain, f) <= Total(g, t', Plain, f')
  }

  /** The filled placements name the same missing token on U[i] and on the column matched with row i. */
  ghost predicate Agreed(f: Placement, t: Placement, U: seq<nat>, V: seq<nat>, row: seq<nat>) {
    && |row| == |U| == |V|
    && forall i: nat :: i < |U| ==> U[i] < |f| && row[i] < |V| && V[row[i]] < |t| && t[V[row[i]]] == f[U[i]]
  }

  lemma MatchingIsCheapest(g: Net, from: Placement, to: Placement, f: Placement, t: Placement,
                           U: seq<nat>, V: seq<nat>, d: seq<seq<nat>>, maxw: nat, w: H.Weights, l: H.Labels, M: H.Matching)
    requires |from| == |to| <= UNDEF && IsPlacement(from, |from|) && IsPlacement(to, |to|) && SameTokens(from, to)
    requires IsCompletion(from, f) && IsCompletion(to, t)
    requires U == Indices(Blank(from)) && V == Indices(Blank(to)) && DistanceTable(g, U, V, d)
    requires Inverted(d, maxw, w) && B.Perfect(w, maxw, l, M) && Agreed(f, t, U, V, M.row)
    ensures Cheapest(g, from, to, f, t)
  {
    hide Indices, B.Perfect, DistanceTable, IsCompletion, Inverted, Total, SameTokens;
    assert |d| == |w| == |U| == |V| by { TableSizes(g, U, V, d, maxw, w); }
    B.PerfectIsPermutation(w, maxw, l, M);
    InvertedValue(d, maxw, w, M.row);
    AgreedHomes(to, f, t, U, V, M.row);
    TotalOfCompletion(g, from, to, f, t, U, V, d, M.row);
    forall f', t' | IsCompletion(from, f') && IsCompletion(to, t')
      ensures Total(g, t, Plain, f) <= Total(g, t', Plain, f')
    {
      var s := BlankAssignment(from, to, f', t', U, V);
      B.PerfectIsBest(w, maxw, l, M, s);
      InvertedValue(d, maxw, w, s);
      TotalOfCompletion(g, from, to, f', t', U, V, d, s);
    }
  }

  lemma TableSizes(g: Net, U: seq<nat>, V: seq<nat>, d: seq<seq<nat>>, maxw: nat, w: H.Weights)
    requires DistanceTable(g, U, V, d) && Inverted(d, maxw, w)
    ensures |d| == |w| == |U| == |V|
  {
  }

  lemma AgreedHomes(to: Placement, f: Placement, t: Placement, U: seq<nat>, V: seq<nat>, row: seq<nat>)
    requires IsCompletion(to, t) && Agreed(f, t, U, V, row)
    ensures forall i: nat :: i < |U| ==> f[U[i]] in t && Home(t, f[U[i]]) == V[row[i]]
  {
  }

  /** fixUndefAssignments: both placements become permutations, at the least possible total distance. */
  method FixUndefAssignments(g: Net, from: Placement, to: Placement) returns (from': Placement, to': Placement)
    requires Coupling(g) && 2 * |g.adj| <= UNDEF
    requires IsPlacement(from, |g.adj|) && IsPlacement(to, |g.adj|) && SameTokens(from, to)
    ensures IsCompletion(from, from') && IsCompletion(to, to')
    ensures Cheapest(g, from, to, from', to')
  {
    hide Coupling, Indices, IsPlacement, SameTokens, IsCompletion, Cheapest, DistanceTable, Inverted, Filled, B.Perfect, H.Feasible;
    assert |from| == |to| == |g.adj| by { Sizes(g, from, to); }
    var U := BlanksOf(from);
    var V := BlanksOf(to);
    var isnotundef := DefinedTokens(to);
    SameBlanks(from, to);
    if U == [] {
      NothingBlank(g, from, to);
      return from, to;
    }
    assert WellFormed(g) by { CouplingShape(g); }
    var d := MeasureBlanks(g, U, V);
    TableBound(g, U, V, d);
    var maxw := HeaviestEdge(d, |g.adj|);
    var w, l := Invert(d, maxw);
    var M;
    assert |w| == |d| == |U| by { TableSizes(g, U, V, d, maxw, w); }
    l, M := B.BestMatching(w, maxw, l);
    var gone := LogicalUndefs(isnotundef, to);
    MatchedColumns(w, maxw, l, M);
    GoneTokens(from, to, gone);
    from' := Fill(from, U, gone);
    var vals: seq<nat> := [];
    for j := 0 to |V|
      invariant |vals| == j && forall y: nat :: y < j ==> vals[y] == gone[M.col[y]]
    {
      vals := vals + [gone[M.col[j]]];
    }
    to' := Fill(to, V, vals);
    FilledBoth(g, from, to, from', to', U, V, gone, vals, M);
    MatchingIsCheapest(g, from, to, from', to', U, V, d, maxw, w, l, M);
  }

  lemma Sizes(g: Net, from: Placement, to: Placement)
    requires IsPlacement(from, |g.adj|) && IsPlacement(to, |g.adj|)
    ensures |from| == |to| == |g.adj|
  {
  }

  /** Equally many vertices are blank on both sides, since the same tokens are missing. */
  lemma SameBlanks(from: Placement, to: Placement)
    requires |from| == |to| <= UNDEF && IsPlacement(from, |from|) && IsPlacement(to, |to|) && SameTokens(from, to)
    ensures |Indices(Blank(from))| == |Indices(Blank(to))| == |Indices(Missing(to))| <= |to|
    ensures Distinct(Indices(Blank(from))) && Distinct(Indices(Blank(to)))
  {
    hide Indices, IsPlacement;
    BlanksMatchMissing(from);
    BlanksMatchMissing(to);
    assert Missing(from) == Missing(to);
    SplitSum(to, Blank(to));
    IndicesFacts(Blank(from));
    IndicesFacts(Blank(to));
  }

  lemma NothingBlank(g: Net, from: Placement, to: Placement)
    requires |from| == |to| <= UNDEF && IsPlacement(from, |from|) && IsPlacement(to, |to|)
    requires Indices(Blank(from)) == [] && Indices(Blank(to)) == []
    ensures IsCompletion(from, from) && IsCompletion(to, to) && Cheapest(g, from, to, from, to)
  {
    hide Indices, Total;
    IndicesFacts(Blank(from));
    IndicesFacts(Blank(to));
    forall i: nat | i < |from|
      ensures from[i] != UNDEF && to[i] != UNDEF
    {
      assert i !in Indices(Blank(from)) && i !in Indices(Blank(to));
    }
    forall f, t | IsCompletion(from, f) && IsCompletion(to, t)
      ensures f == from && t == to
    {
    }
  }

  lemma TableBound(g: Net, U: seq<nat>, V: seq<nat>, d: seq<seq<nat>>)
    requires Coupling(g) && DistanceTable(g, U, V, d)
    requires forall i :: 0 <= i < |U| ==> U[i] < |g.adj| && V[i] < |g.adj|
    ensures |d| == |U| && forall i: nat :: i < |d| ==> |d[i]| == |d|
    ensures forall i: nat, j: nat :: i < |d| && j < |d| ==> d[i][j] <= |g.adj|
  {
    hide Steps, Shortest, Dist;
    forall i: nat, j: nat | i < |d| && j < |d|
      ensures d[i][j] <= |g.adj|
    {
      assert Reach(g, U[i], V[j]);
      DistBound(g, U[i], V[j]);
    }
  }

  lemma MatchedColumns(w: H.Weights, maxw: nat, l: H.Labels, M: H.Matching)
    requires B.Perfect(w, maxw, l, M) && |w| <= UNDEF
    ensures |M.row| == |M.col| == |w| && Permutation(M.row) && Permutation(M.col)
    ensures forall x: nat :: x < |w| ==> M.row[x] < |w| && M.col[M.row[x]] == x
  {
    hide H.Tight, H.Feasible;
    B.PerfectIsPermutation(w, maxw, l, M);
    H.Shapes(w, maxw, l, M);
    forall j: nat | j < |w|
      ensures M.col[j] < |w| && M.row[M.col[j]] == j
    {
      PermutationHits(M.row, j);
    }
  }

  lemma GoneTokens(from: Placement, to: Placement, gone: seq<nat>)
    requires |from| == |to| <= UNDEF && SameTokens(from, to) && gone == Indices(Missing(to))
    ensures Distinct(gone) && forall i :: 0 <= i < |gone| ==> gone[i] < |to| && gone[i] !in to && gone[i] !in from
  {
    hide Indices;
    IndicesFacts(Missing(to));
    forall i | 0 <= i < |gone|
      ensures gone[i] !in to
    {
      assert gone[i] in gone;
    }
  }

  lemma FilledBoth(g: Net, from: Placement, to: Placement, f: Placement, t: Placement, U: seq<nat>, V: seq<nat>,
                   gone: seq<nat>, vals: seq<nat>, M: H.Matching)
    requires |from| == |to| <= UNDEF && IsPlacement(from, |from|) && IsPlacement(to, |to|)
    requires U == Indices(Blank(from)) && V == Indices(Blank(to))
    requires |gone| == |vals| == |U| == |V| == |M.row| == |M.col| && Permutation(M.row) && Permutation(M.col)
    requires forall x: nat :: x < |M.row| ==> M.row[x] < |M.row| && M.col[M.row[x]] == x
    requires forall y: nat :: y < |vals| ==> vals[y] == gone[M.col[y]]
    requires Distinct(gone) && forall i :: 0 <= i < |gone| ==> gone[i] < |to| && gone[i] !in to && gone[i] !in from
    requires Filled(from, U, gone, f) && Filled(to, V, vals, t)
    ensures IsCompletion(from, f) && IsCompletion(to, t) && Agreed(f, t, U, V, M.row)
  {
    hide Indices, IsPlacement, IsCompletion;
    FilledCompletes(from, gone, f);
    forall i, j | 0 <= i < j < |vals|
      ensures vals[i] != vals[j]
    {
      assert M.col[i] != M.col[j];
    }
    FilledCompletes(to, vals, t);
  }
}
