/**
  The Hungarian algorithm inside `fixUndefAssignments`: a maximum-weight perfect matching of a
  complete bipartite graph. The program numbers rows 0..k-1 and columns k..2k-1 in one label vector
  and one matching vector; here the two halves are kept apart, with columns numbered from 0.
 */
module Hungarian {
  import opened Sums
  import opened Networks

  type Weights = seq<seq<nat>>

  /** `maxw` bounds the weights, and twice `maxw` still fits a machine word. */
  ghost predicate Grid(w: Weights, maxw: nat) {
    && 2 * |w| <= UNDEF && 2 * maxw <= UNDEF
    && (forall x: nat :: x < |w| ==> |w[x]| == |w|)
    && forall x: nat, j: nat :: x < |w| && j < |w| ==> w[x][j] <= maxw
  }

  /** A label for every row and every column. */
  datatype Labels = Labels(row: seq<nat>, col: seq<nat>)

  /** The column matched with every row, and the row matched with every column. */
  datatype Matching = Matching(row: seq<nat>, col: seq<nat>)

  ghost predicate Tight(w: Weights, l: Labels, x: nat, j: nat)
    requires |l.row| == |l.col| == |w| && x < |w| && j < |w| && |w[x]| == |w|
  {
    l.row[x] + l.col[j] == w[x][j]
  }

  /** The labels cover every weight and stay within 0..maxw. */
  ghost predicate Feasible(w: Weights, maxw: nat, l: Labels) {
    && Grid(w, maxw) && |l.row| == |l.col| == |w|
    && (forall x: nat :: x < |w| ==> l.row[x] <= maxw && l.col[x] <= maxw)
    && forall x: nat, j: nat :: x < |w| && j < |w| ==> w[x][j] <= l.row[x] + l.col[j]
  }

  ghost predicate TwoSided(k: nat, M: Matching) {
    && |M.row| == |M.col| == k
    && (forall x: nat :: x < k && M.row[x] != UNDEF ==> M.row[x] < k && M.col[M.row[x]] == x)
    && forall j: nat :: j < k && M.col[j] != UNDEF ==> M.col[j] < k && M.row[M.col[j]] == j
  }

  ghost predicate MatchedTight(w: Weights, maxw: nat, l: Labels, M: Matching)
    requires Grid(w, maxw) && |l.row| == |l.col| == |M.row| == |w|
  {
    forall x: nat :: x < |w| && M.row[x] != UNDEF ==> M.row[x] < |w| && Tight(w, l, x, M.row[x])
  }

  ghost predicate FreeZero(l: Labels, M: Matching)
    requires |l.col| == |M.col|
  {
    forall j: nat :: j < |M.col| && M.col[j] == UNDEF ==> l.col[j] == 0
  }

  /** What every outer round keeps. */
  ghost predicate Balanced(w: Weights, maxw: nat, l: Labels, M: Matching) {
    && Feasible(w, maxw, l) && TwoSided(|w|, M)
    && MatchedTight(w, maxw, l, M) && FreeZero(l, M)
  }

  /** The search state of one round: S holds rows; T and NS hold columns. */
  datatype Tree = Tree(u: nat, S: seq<bool>, T: seq<bool>, NS: seq<bool>, slack: seq<nat>, slackx: seq<nat>)

  ghost predicate Sized(k: nat, t: Tree) {
    |t.S| == |t.T| == |t.NS| == |t.slack| == |t.slackx| == k
  }

  /** Apart from the free root, S consists of the partners of T; and T stays inside NS. */
  ghost predicate Paired(k: nat, M: Matching, t: Tree)
    requires |M.row| == |M.col| == k && Sized(k, t)
  {
    && t.u < k && M.row[t.u] == UNDEF && t.S[t.u]
    && (forall x: nat :: x < k && t.S[x] && x != t.u ==> M.row[x] < k && t.T[M.row[x]])
    && forall j: nat :: j < k && t.T[j] ==> t.NS[j] && M.col[j] < k && t.S[M.col[j]]
  }

  /** Outside T, `slack` is the least slack over S, attained at `slackx`; NS marks zero slack. */
  ghost predicate Slacks(w: Weights, maxw: nat, l: Labels, t: Tree)
    requires Grid(w, maxw) && |l.row| == |l.col| == |w| && Sized(|w|, t)
  {
    && (forall j: nat :: j < |w| && !t.T[j] ==>
          t.slackx[j] < |w| && t.S[t.slackx[j]] && t.slack[j] + w[t.slackx[j]][j] == l.row[t.slackx[j]] + l.col[j])
    && (forall x: nat, j: nat :: x < |w| && j < |w| && t.S[x] && !t.T[j] ==> t.slack[j] + w[x][j] <= l.row[x] + l.col[j])
    && forall j: nat :: j < |w| && !t.T[j] && t.NS[j] ==> t.slack[j] == 0
  }

  /** `order` lists S as it grew; `link[a]` is the place of an earlier row with a tight edge to the partner of `order[a]`. */
  ghost predicate Grown(w: Weights, maxw: nat, l: Labels, M: Matching, t: Tree, order: seq<nat>, link: seq<nat>)
    requires Grid(w, maxw) && |l.row| == |l.col| == |M.row| == |w| && Sized(|w|, t)
  {
    && |order| == |link| > 0 && order[0] == t.u
    && (forall a: nat :: a < |order| ==> order[a] < |w| && t.S[order[a]])
    && (forall x: nat :: x < |w| && t.S[x] ==> x in order)
    && forall a: nat :: 0 < a < |order| ==>
         && link[a] < a && M.row[order[a]] < |w| && t.T[M.row[order[a]]]
         && Tight(w, l, order[link[a]], M.row[order[a]])
  }

  ghost predicate Searching(w: Weights, maxw: nat, l: Labels, M: Matching, t: Tree, order: seq<nat>, link: seq<nat>) {
    && Balanced(w, maxw, l, M) && Sized(|w|, t)
    && Paired(|w|, M, t) && Slacks(w, maxw, l, t) && Grown(w, maxw, l, M, t, order, link)
  }

  lemma Shapes(w: Weights, maxw: nat, l: Labels, M: Matching)
    requires Balanced(w, maxw, l, M)
    ensures Grid(w, maxw) && |l.row| == |l.col| == |M.row| == |M.col| == |w|
  {
  }

  // Starting a round.

  method Root(w: Weights, ghost maxw: nat, l: Labels, ghost M: Matching, u: nat) returns (t: Tree)
    requires Balanced(w, maxw, l, M) && u < |w| && M.row[u] == UNDEF
    ensures t.u == u && Searching(w, maxw, l, M, t, [u], [0])
  {
    hide TwoSided, MatchedTight, FreeZero;
    var k := |w|;
    var slack: seq<nat> := seq(k, _ => UNDEF);
    for j := 0 to k
      invariant |slack| == k && forall i: nat :: i < j ==> slack[i] + w[u][i] == l.row[u] + l.col[i]
    {
      var sum: Word := l.row[u] + l.col[j];
      slack := slack[j := sum - w[u][j]];
    }
    var NS: seq<bool> := seq(k, _ => false);
    for j := 0 to k
      invariant |NS| == k && forall i: nat :: i < j ==> (NS[i] <==> l.row[u] + l.col[i] == w[u][i])
    {
      var sum: Word := l.row[u] + l.col[j];
      NS := NS[j := sum == w[u][j]];
    }
    var S: seq<bool> := seq(k, _ => false);
    t := Tree(u, S[u := true], seq(k, _ => false), NS, slack, seq(k, _ => u));
    assert [u][0] == u;
  }

  // Lowering the labels when every tight column has been used.

  /** While a row is free a column is free too. */
  lemma FreeColumn(k: nat, M: Matching, u: nat) returns (j: nat)
    requires k <= UNDEF && TwoSided(k, M) && u < k && M.row[u] == UNDEF
    ensures j < k && M.col[j] == UNDEF
  {
    if forall j: nat :: j < k ==> M.col[j] != UNDEF {
      var rows := M.col + [u];
      forall a, b | 0 <= a < b < |rows|
        ensures rows[a] != rows[b]
      {
        assert M.row[rows[a]] == a;
      }
      DistinctBound(rows, k);
    }
    j :| j < k && M.col[j] == UNDEF;
  }

  method LeastSlack(slack: seq<nat>, T: seq<bool>) returns (alpha: nat)
    requires |slack| == |T|
    ensures alpha <= UNDEF && forall j: nat :: j < |T| && !T[j] ==> alpha <= slack[j]
    ensures alpha == UNDEF || exists j: nat :: j < |T| && !T[j] && slack[j] == alpha
  {
    alpha := UNDEF;
    for i := 0 to |T|
      invariant alpha <= UNDEF && forall j: nat :: j < i && !T[j] ==> alpha <= slack[j]
      invariant alpha == UNDEF || exists j: nat :: j < |T| && !T[j] && slack[j] == alpha
    {
      if !T[i] {
        alpha := if alpha < slack[i] then alpha else slack[i];
      }
    }
  }

  /** No row of S has a label below alpha, so the subtraction does not wrap. */
  lemma AlphaFits(w: Weights, maxw: nat, l: Labels, M: Matching, t: Tree, alpha: nat)
    requires Balanced(w, maxw, l, M) && Sized(|w|, t) && Paired(|w|, M, t) && Slacks(w, maxw, l, t)
    requires forall j: nat :: j < |w| && !t.T[j] ==> alpha <= t.slack[j]
    ensures alpha <= maxw < UNDEF && forall x: nat :: x < |w| && t.S[x] ==> alpha <= l.row[x]
  {
    hide MatchedTight;
    var j := FreeColumn(|w|, M, t.u);
    assert !t.T[j] && l.col[j] == 0;
    assert t.slack[j] + w[t.u][j] <= l.row[t.u] + l.col[j];
  }

  /** The labels after a shift by alpha. */
  ghost predicate Lowered(l: Labels, t: Tree, alpha: nat, r: Labels) {
    && |l.row| == |l.col| == |r.row| == |r.col| == |t.S| == |t.T|
    && (forall x: nat :: x < |l.row| ==> r.row[x] + (if t.S[x] then alpha else 0) == l.row[x])
    && forall j: nat :: j < |l.col| ==> r.col[j] == l.col[j] + if t.T[j] then alpha else 0
  }

  lemma LoweredBounded(w: Weights, maxw: nat, l: Labels, M: Matching, t: Tree, alpha: nat, r: Labels)
    requires Balanced(w, maxw, l, M) && Sized(|w|, t) && Paired(|w|, M, t) && Lowered(l, t, alpha, r)
    ensures forall x: nat :: x < |w| ==> r.row[x] <= maxw && r.col[x] <= maxw
  {
  }

  lemma LoweredFeasible(w: Weights, maxw: nat, l: Labels, M: Matching, t: Tree, alpha: nat, r: Labels)
    requires Balanced(w, maxw, l, M) && Sized(|w|, t) && Paired(|w|, M, t) && Slacks(w, maxw, l, t)
    requires Lowered(l, t, alpha, r)
    requires forall j: nat :: j < |w| && !t.T[j] ==> alpha <= t.slack[j]
    ensures Feasible(w, maxw, r)
  {
    hide Paired, TwoSided, MatchedTight, FreeZero;
    LoweredBounded(w, maxw, l, M, t, alpha, r);
  }

  lemma LoweredMatched(w: Weights, maxw: nat, l: Labels, M: Matching, t: Tree, alpha: nat, r: Labels)
    requires Balanced(w, maxw, l, M) && Sized(|w|, t) && Paired(|w|, M, t) && Lowered(l, t, alpha, r)
    ensures MatchedTight(w, maxw, r, M) && FreeZero(r, M)
  {
  }

  lemma LoweredGrown(w: Weights, maxw: nat, l: Labels, M: Matching, t: Tree, order: seq<nat>, link: seq<nat>, alpha: nat, r: Labels)
    requires Grid(w, maxw) && |l.row| == |l.col| == |M.row| == |w| && Sized(|w|, t)
    requires Grown(w, maxw, l, M, t, order, link) && Lowered(l, t, alpha, r)
    ensures Grown(w, maxw, r, M, t, order, link)
  {
  }

  lemma LoweredSlacks(w: Weights, maxw: nat, l: Labels, t: Tree, alpha: nat, r: Labels, t': Tree)
    requires Grid(w, maxw) && |l.row| == |l.col| == |w| && Sized(|w|, t) && Slacks(w, maxw, l, t)
    requires Lowered(l, t, alpha, r)
    requires Sized(|w|, t') && t' == t.(NS := t'.NS, slack := t'.slack)
    requires forall j: nat :: j < |w| && !t.T[j] ==> t'.slack[j] + alpha == t.slack[j]
    requires forall j: nat :: j < |w| && !t.T[j] ==>
      (t'.NS[j] <==> t.NS[j] || r.row[t.slackx[j]] + r.col[j] == w[t.slackx[j]][j])
    ensures Slacks(w, maxw, r, t')
  {
  }

  method Shift(w: Weights, ghost maxw: nat, l: Labels, t: Tree, alpha: nat) returns (r: Labels)
    requires Feasible(w, maxw, l) && Sized(|w|, t) && alpha <= maxw
    requires forall x: nat :: x < |w| && t.S[x] ==> alpha <= l.row[x]
    ensures Lowered(l, t, alpha, r)
  {
    var k := |w|;
    var row, col := l.row, l.col;
    for x := 0 to k
      invariant |row| == k
      invariant forall i: nat :: i < k ==> row[i] + (if i < x && t.S[i] then alpha else 0) == l.row[i]
    {
      if t.S[x] {
        row := row[x := row[x] - alpha];
      }
    }
    for j := 0 to k
      invariant |col| == k
      invariant forall i: nat :: i < k ==> col[i] == l.col[i] + if i < j && t.T[i] then alpha else 0
    {
      if t.T[j] {
        var sum: Word := col[j] + alpha;
        col := col[j := sum];
      }
    }
    r := Labels(row, col);
  }

  lemma SlackRows(w: Weights, maxw: nat, l: Labels, t: Tree)
    requires Grid(w, maxw) && |l.row| == |l.col| == |w| && Sized(|w|, t) && Slacks(w, maxw, l, t)
    ensures forall j: nat :: j < |w| && !t.T[j] ==> t.slackx[j] < |w|
  {
  }

  method LowerSlack(slack: seq<nat>, T: seq<bool>, alpha: nat) returns (slack': seq<nat>)
    requires |slack| == |T| && forall j: nat :: j < |T| && !T[j] ==> alpha <= slack[j]
    ensures |slack'| == |T| && forall j: nat :: j < |T| && !T[j] ==> slack'[j] + alpha == slack[j]
  {
    slack' := slack;
    for j := 0 to |T|
      invariant |slack'| == |T|
      invariant forall i: nat :: i < |T| && !T[i] ==> slack'[i] + (if i < j then alpha else 0) == slack[i]
    {
      if !T[j] {
        slack' := slack'[j := slack'[j] - alpha];
      }
    }
  }

  method WidenTight(w: Weights, ghost maxw: nat, r: Labels, t: Tree) returns (NS: seq<bool>)
    requires Feasible(w, maxw, r) && Sized(|w|, t)
    requires forall j: nat :: j < |w| && !t.T[j] ==> t.slackx[j] < |w|
    requires forall j: nat :: j < |w| && t.T[j] ==> t.NS[j]
    ensures |NS| == |w| && forall j: nat :: j < |w| && t.NS[j] ==> NS[j]
    ensures forall j: nat :: j < |w| && !t.T[j] ==>
      (NS[j] <==> t.NS[j] || r.row[t.slackx[j]] + r.col[j] == w[t.slackx[j]][j])
  {
    NS := t.NS;
    for j := 0 to |w|
      invariant |NS| == |w|
      invariant forall i: nat :: i < |w| && (t.NS[i] || j <= i) ==> NS[i] == t.NS[i]
      invariant forall i: nat :: i < j && !t.T[i] ==>
        (NS[i] <==> t.NS[i] || r.row[t.slackx[i]] + r.col[i] == w[t.slackx[i]][i])
    {
      if !NS[j] {
        var sum: Word := r.row[t.slackx[j]] + r.col[j];
        NS := NS[j := sum == w[t.slackx[j]][j]];
      }
    }
  }

  /** The column of least slack becomes tight and joins NS, so NS and T differ afterwards. */
  lemma TightWidened(w: Weights, maxw: nat, l: Labels, t: Tree, alpha: nat, r: Labels, NS: seq<bool>)
    requires Grid(w, maxw) && |l.row| == |l.col| == |w| && Sized(|w|, t) && Slacks(w, maxw, l, t)
    requires Lowered(l, t, alpha, r) && |NS| == |w|
    requires exists j: nat :: j < |w| && !t.T[j] && t.slack[j] == alpha
    requires forall j: nat :: j < |w| && !t.T[j] ==>
      (NS[j] <==> t.NS[j] || r.row[t.slackx[j]] + r.col[j] == w[t.slackx[j]][j])
    ensures NS != t.T
  {
    var j: nat :| j < |w| && !t.T[j] && t.slack[j] == alpha;
    assert NS[j];
  }

  /** Neither tree invariant looks at the slack, and widening NS is harmless. */
  lemma PairedUnmoved(k: nat, M: Matching, t: Tree, t': Tree)
    requires |M.row| == |M.col| == k && Sized(k, t) && Sized(k, t') && Paired(k, M, t)
    requires t'.u == t.u && t'.S == t.S && t'.T == t.T
    requires forall j: nat :: j < k && t.NS[j] ==> t'.NS[j]
    ensures Paired(k, M, t')
  {
  }

  lemma GrownUnmoved(w: Weights, maxw: nat, l: Labels, M: Matching, t: Tree, t': Tree, order: seq<nat>, link: seq<nat>)
    requires Grid(w, maxw) && |l.row| == |l.col| == |M.row| == |w| && Sized(|w|, t) && Sized(|w|, t')
    requires Grown(w, maxw, l, M, t, order, link)
    requires t'.u == t.u && t'.S == t.S && t'.T == t.T
    ensures Grown(w, maxw, l, M, t', order, link)
  {
    hide Tight;
  }

  /** The do-while branch for NS == T: shift the labels by the least slack and widen NS. */
  method LowerLabels(w: Weights, ghost maxw: nat, l: Labels, ghost M: Matching, t: Tree, ghost order: seq<nat>, ghost link: seq<nat>)
    returns (l': Labels, t': Tree)
    requires Searching(w, maxw, l, M, t, order, link) && t.NS == t.T
    ensures Searching(w, maxw, l', M, t', order, link)
    ensures t'.u == t.u && t'.S == t.S && t'.T == t.T && t'.NS != t.T
  {
    hide Grid, Feasible, MatchedTight, FreeZero, Grown, TwoSided, Paired, Slacks;
    Shapes(w, maxw, l, M);
    var alpha := LeastSlack(t.slack, t.T);
    AlphaFits(w, maxw, l, M, t, alpha);
    l' := Shift(w, maxw, l, t, alpha);
    LoweredFeasible(w, maxw, l, M, t, alpha, l');
    LoweredMatched(w, maxw, l, M, t, alpha, l');
    LoweredGrown(w, maxw, l, M, t, order, link, alpha, l');
    assert forall j: nat :: j < |w| && t.T[j] ==> t.NS[j];
    var slack := LowerSlack(t.slack, t.T, alpha);
    assert forall j: nat :: j < |w| && !t.T[j] ==> t.slackx[j] < |w| by { SlackRows(w, maxw, l, t); }
    var NS := WidenTight(w, maxw, l', t);
    TightWidened(w, maxw, l, t, alpha, l', NS);
    t' := t.(NS := NS, slack := slack);
    LoweredSlacks(w, maxw, l, t, alpha, l', t');
    PairedUnmoved(|w|, M, t, t');
    GrownUnmoved(w, maxw, l', M, t, t', order, link);
  }

  // Growing the tree by a matched column.

  method FirstUnused(T: seq<bool>, NS: seq<bool>) returns (v: nat)
    requires |T| == |NS| && NS != T && forall j: nat :: j < |T| && T[j] ==> NS[j]
    ensures v < |T| && !T[v] && NS[v]
  {
    v := 0;
    assert exists j: nat :: j < |T| && T[j] != NS[j];
    while T[v] || !NS[v]
      invariant v < |T| && exists j: nat :: v <= j < |T| && T[j] != NS[j]
      decreases |T| - v
    {
      v := v + 1;
    }
  }

  method Grow(w: Weights, ghost maxw: nat, l: Labels, M: Matching, t: Tree, v: nat, ghost order: seq<nat>, ghost link: seq<nat>)
    returns (t': Tree, ghost order': seq<nat>, ghost link': seq<nat>)
    requires Searching(w, maxw, l, M, t, order, link)
    requires v < |w| && !t.T[v] && t.NS[v] && M.col[v] != UNDEF
    ensures Searching(w, maxw, l, M, t', order', link')
    ensures t'.u == t.u && t'.T == t.T[v := true]
  {
    hide Balanced, Grown, Grid, Slacks, Paired, Improved;
    Shapes(w, maxw, l, M);
    Partner(w, maxw, l, M, t, v);
    var z := M.col[v];
    ghost var b: nat := GrownFrom(w, maxw, l, M, t, order, link, v);
    var slack, slackx := LessSlack(w, maxw, l, M, t, z);
    t' := Tree(t.u, t.S[z := true], t.T[v := true], t.NS, slack, slackx);
    order', link' := order + [z], link + [b];
    GrowSlacks(w, maxw, l, t, t', z, v);
    GrowPaired(|w|, M, t, t', z, v);
    GrowGrown(w, maxw, l, M, t, t', order, link, z, v, b);
  }

  method LessSlack(w: Weights, ghost maxw: nat, l: Labels, ghost M: Matching, t: Tree, z: nat)
    returns (slack: seq<nat>, slackx: seq<nat>)
    requires Balanced(w, maxw, l, M) && Sized(|w|, t) && z < |w|
    ensures |slack| == |slackx| == |l.row| == |l.col| == |w|
    ensures forall i: nat :: i < |w| ==> Improved(w, l, t, z, slack, slackx, i)
  {
    hide Balanced;
    Shapes(w, maxw, l, M);
    slack, slackx := t.slack, t.slackx;
    for j := 0 to |w|
      invariant |slack| == |slackx| == |w|
      invariant forall i: nat :: i < j ==> Improved(w, l, t, z, slack, slackx, i)
      invariant forall i: nat :: j <= i < |w| ==> slack[i] == t.slack[i] && slackx[i] == t.slackx[i]
    {
      CoveredAt(w, maxw, l, M, z, j);
      var sum: Word := l.row[z] + l.col[j];
      var newSlack := sum - w[z][j];
      ghost var slack0, slackx0 := slack, slackx;
      if slack[j] > newSlack {
        slack, slackx := slack[j := newSlack], slackx[j := z];
      }
      forall i: nat | i < j
        ensures Improved(w, l, t, z, slack, slackx, i)
      {
        assert Improved(w, l, t, z, slack0, slackx0, i);
      }
    }
  }

  /** The slack entry of column `i` once the row `z` has been taken into account. */
  ghost predicate Improved(w: Weights, l: Labels, t: Tree, z: nat, slack: seq<nat>, slackx: seq<nat>, i: nat)
    requires Sized(|w|, t) && |slack| == |slackx| == |l.col| == |l.row| == |w| && z < |w| && i < |w|
  {
    && |w[z]| == |w|
    && slack[i] <= t.slack[i] && slack[i] + w[z][i] <= l.row[z] + l.col[i]
    && ((slack[i] == t.slack[i] && slackx[i] == t.slackx[i]) || (slackx[i] == z && slack[i] + w[z][i] == l.row[z] + l.col[i]))
  }

  lemma CoveredAt(w: Weights, maxw: nat, l: Labels, M: Matching, x: nat, j: nat)
    requires Balanced(w, maxw, l, M) && x < |w| && j < |w|
    ensures |w[x]| == |w| && w[x][j] <= l.row[x] + l.col[j] <= UNDEF
  {
    hide TwoSided, MatchedTight, FreeZero;
  }

  lemma Partner(w: Weights, maxw: nat, l: Labels, M: Matching, t: Tree, v: nat)
    requires Balanced(w, maxw, l, M) && Sized(|w|, t) && Paired(|w|, M, t)
    requires v < |w| && !t.T[v] && M.col[v] != UNDEF
    ensures M.col[v] < |w| && M.row[M.col[v]] == v && !t.S[M.col[v]]
  {
    hide MatchedTight, FreeZero;
  }

  /** The tight column `v` is seen from a row already in the tree. */
  lemma GrownFrom(w: Weights, maxw: nat, l: Labels, M: Matching, t: Tree, order: seq<nat>, link: seq<nat>, v: nat) returns (b: nat)
    requires Grid(w, maxw) && |l.row| == |l.col| == |M.row| == |w| && Sized(|w|, t)
    requires Slacks(w, maxw, l, t) && Grown(w, maxw, l, M, t, order, link)
    requires v < |w| && !t.T[v] && t.NS[v]
    ensures b < |order| && order[b] < |w| && Tight(w, l, order[b], v)
  {
    assert t.slackx[v] in order;
    b :| b < |order| && order[b] == t.slackx[v];
  }

  lemma GrowSlacks(w: Weights, maxw: nat, l: Labels, t: Tree, t': Tree, z: nat, v: nat)
    requires Grid(w, maxw) && |l.row| == |l.col| == |w| && Sized(|w|, t) && Sized(|w|, t')
    requires Slacks(w, maxw, l, t) && z < |w| && v < |w|
    requires t'.S == t.S[z := true] && t'.T == t.T[v := true] && t'.NS == t.NS
    requires forall i: nat :: i < |w| ==> Improved(w, l, t, z, t'.slack, t'.slackx, i)
    ensures Slacks(w, maxw, l, t')
  {
    hide Grid;
    assert forall x: nat :: x < |w| ==> |w[x]| == |w| by { Rows(w, maxw); }
    forall j: nat | j < |w| && !t'.T[j]
      ensures t'.slackx[j] < |w| && t'.S[t'.slackx[j]] && t'.slack[j] + w[t'.slackx[j]][j] == l.row[t'.slackx[j]] + l.col[j]
      ensures t'.NS[j] ==> t'.slack[j] == 0
      ensures forall x: nat :: x < |w| && t'.S[x] ==> t'.slack[j] + w[x][j] <= l.row[x] + l.col[j]
    {
      assert Improved(w, l, t, z, t'.slack, t'.slackx, j);
      assert !t.T[j];
    }
  }

  lemma Rows(w: Weights, maxw: nat)
    requires Grid(w, maxw)
    ensures forall x: nat :: x < |w| ==> |w[x]| == |w|
  {
  }

  lemma GrowPaired(k: nat, M: Matching, t: Tree, t': Tree, z: nat, v: nat)
    requires |M.row| == |M.col| == k && Sized(k, t) && Sized(k, t') && Paired(k, M, t)
    requires z < k && v < k && M.col[v] == z && M.row[z] == v && t.NS[v]
    requires t'.u == t.u && t'.S == t.S[z := true] && t'.T == t.T[v := true] && t'.NS == t.NS
    ensures Paired(k, M, t')
  {
  }

  lemma GrowGrown(w: Weights, maxw: nat, l: Labels, M: Matching, t: Tree, t': Tree, order: seq<nat>, link: seq<nat>, z: nat, v: nat, b: nat)
    requires Grid(w, maxw) && |l.row| == |l.col| == |M.row| == |w| && Sized(|w|, t)
    requires Grown(w, maxw, l, M, t, order, link)
    requires z < |w| && v < |w| && M.row[z] == v && b < |order| && Tight(w, l, order[b], v)
    requires Sized(|w|, t') && t'.u == t.u && t'.S == t.S[z := true] && t'.T == t.T[v := true]
    ensures Grown(w, maxw, l, M, t', order + [z], link + [b])
  {
  }
}
