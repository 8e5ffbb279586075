/**
 Assignments of rows to columns, what they cost, and the duality argument that bounds the cost of
 any assignment from below by row and column potentials.
 */
module Assignments {
  import opened Sums
  import opened FlatMatrix

  /** The tolerance below which the solver takes an entry for zero: 2 to the power -52. */
  const DBL_EPSILON: real := 1.0 / 4503599627370496.0

  function Min(a: nat, b: nat): nat { if a <= b then a else b }

  /** The cost of the first k rows' choices in the n by m matrix `dist`. */
  ghost function CostUpTo(dist: seq<real>, n: nat, m: nat, a: seq<int>, k: nat): real
    requires |dist| == Size(n, m) && k <= |a| <= n
    requires forall r :: 0 <= r < |a| ==> -1 <= a[r] < m
  {
    if k == 0 then 0.0
    else CostUpTo(dist, n, m, a, k - 1) + (if a[k - 1] < 0 then 0.0 else At(dist, n, m, k - 1, a[k - 1]))
  }

  /** As many rows as possible are given distinct columns; the other rows hold -1. */
  ghost predicate IsAssignment(n: nat, m: nat, a: seq<int>) {
    |a| == n && PartialInjective(a, m) && Assigned(a) == Min(n, m)
  }

  ghost function Cost(dist: seq<real>, n: nat, m: nat, a: seq<int>): real
    requires |dist| == Size(n, m) && IsAssignment(n, m, a)
  {
    CostUpTo(dist, n, m, a, n)
  }

  /** No assignment is cheaper than a by more than one tolerance for each pair a makes. */
  ghost predicate NearOptimal(dist: seq<real>, n: nat, m: nat, a: seq<int>)
    requires |dist| == Size(n, m)
  {
    && IsAssignment(n, m, a)
    && forall b :: IsAssignment(n, m, b) ==>
         Cost(dist, n, m, a) <= Cost(dist, n, m, b) + Min(n, m) as real * DBL_EPSILON
  }

  /** A set of chosen pairs seen from both sides: rs[r] is row r's column, cs[c] is column c's row, or -1. */
  ghost predicate Matching(n: nat, m: nat, rs: seq<int>, cs: seq<int>) {
    && |rs| == n && |cs| == m
    && (forall r :: 0 <= r < n ==> -1 <= rs[r] < m && (rs[r] >= 0 ==> cs[rs[r]] == r))
    && (forall c :: 0 <= c < m ==> -1 <= cs[c] < n && (cs[c] >= 0 ==> rs[cs[c]] == c))
  }

  /** Potentials for `dist`: what is left of an entry after taking them off is never negative. */
  ghost predicate Feasible(dist: seq<real>, n: nat, m: nat, u: seq<real>, v: seq<real>)
    requires |dist| == Size(n, m)
  {
    && |u| == n && |v| == m
    && forall r: nat, c: nat | r < n && c < m :: At(dist, n, m, r, c) >= u[r] + v[c]
  }

  /** On the longer side the potentials are at most 0, and 0 where the side is not matched. */
  ghost predicate Extreme(n: nat, m: nat, u: seq<real>, v: seq<real>, rs: seq<int>, cs: seq<int>) {
    && |u| == |rs| == n && |v| == |cs| == m
    && (n <= m ==> forall c :: 0 <= c < m ==> v[c] <= 0.0 && (cs[c] < 0 ==> v[c] == 0.0))
    && (n > m ==> forall r :: 0 <= r < n ==> u[r] <= 0.0 && (rs[r] < 0 ==> u[r] == 0.0))
  }

  /** The row potentials of the chosen rows. */
  ghost function RowPick(u: seq<real>, a: seq<int>): real
    requires |a| <= |u|
  {
    if |a| == 0 then 0.0
    else RowPick(u, a[..|a| - 1]) + (if a[|a| - 1] < 0 then 0.0 else u[|a| - 1])
  }

  lemma {:induction false} RowPickBounds(u: seq<real>, a: seq<int>)
    requires |a| <= |u|
    ensures (forall r :: 0 <= r < |a| ==> u[r] <= 0.0) ==> RowPick(u, a) >= Sum(u[..|a|])
    ensures (forall r :: 0 <= r < |a| && a[r] < 0 ==> u[r] == 0.0) ==> RowPick(u, a) == Sum(u[..|a|])
  {
    if |a| > 0 {
      RowPickBounds(u, a[..|a| - 1]);
      assert u[..|a|][..|a| - 1] == u[..|a| - 1];
    }
  }

  lemma {:induction false} CostAtLeastPotentials(dist: seq<real>, n: nat, m: nat, u: seq<real>, v: seq<real>,
                                                 a: seq<int>, k: nat)
    requires |dist| == Size(n, m) && Feasible(dist, n, m, u, v)
    requires k <= |a| == n && forall r :: 0 <= r < n ==> -1 <= a[r] < m
    ensures CostUpTo(dist, n, m, a, k) >= RowPick(u, a[..k]) + Pick(v, a[..k])
  {
    if k > 0 {
      CostAtLeastPotentials(dist, n, m, u, v, a, k - 1);
      assert a[..k][..k - 1] == a[..k - 1];
    }
  }

  /** Pairs whose entries are within the tolerance of their potentials cost little more than these. */
  lemma {:induction false} CostAtMostPotentials(dist: seq<real>, n: nat, m: nat, u: seq<real>, v: seq<real>,
                                                a: seq<int>, k: nat)
    requires |dist| == Size(n, m) && |u| == n && |v| == m
    requires k <= |a| == n && forall r :: 0 <= r < n ==> -1 <= a[r] < m
    requires forall r :: 0 <= r < n && a[r] >= 0 ==> At(dist, n, m, r, a[r]) <= u[r] + v[a[r]] + DBL_EPSILON
    ensures CostUpTo(dist, n, m, a, k)
         <= RowPick(u, a[..k]) + Pick(v, a[..k]) + Assigned(a[..k]) as real * DBL_EPSILON
  {
    if k > 0 {
      CostAtMostPotentials(dist, n, m, u, v, a, k - 1);
      assert a[..k][..k - 1] == a[..k - 1];
      assert (Assigned(a[..k - 1]) + 1) as real * DBL_EPSILON
          == Assigned(a[..k - 1]) as real * DBL_EPSILON + DBL_EPSILON;
    }
  }

  lemma MatchingInjective(n: nat, m: nat, rs: seq<int>, cs: seq<int>)
    requires Matching(n, m, rs, cs)
    ensures PartialInjective(rs, m) && PartialInjective(cs, n)
  {
    forall i, j | 0 <= i < j < n && rs[i] >= 0 ensures rs[i] != rs[j] { assert cs[rs[i]] == i; }
    forall i, j | 0 <= i < j < m && cs[i] >= 0 ensures cs[i] != cs[j] { assert rs[cs[i]] == i; }
  }

  /** A matching pairs as many rows as columns. */
  lemma MatchingCounts(n: nat, m: nat, rs: seq<int>, cs: seq<int>)
    requires Matching(n, m, rs, cs)
    ensures Assigned(rs) == Assigned(cs) <= Min(n, m)
  {
    MatchingInjective(n, m, rs, cs);
    MatchingCountsOneWay(n, m, rs, cs);
    MatchingCountsOneWay(m, n, cs, rs);
    Pigeonhole(rs, m);
    Pigeonhole(cs, n);
  }

  lemma MatchingCountsOneWay(n: nat, m: nat, rs: seq<int>, cs: seq<int>)
    requires Matching(n, m, rs, cs)
    ensures Assigned(rs) <= Assigned(cs)
  {
    MatchingInjective(n, m, rs, cs);
    var open := seq(m, c requires 0 <= c < m => if cs[c] >= 0 then -1.0 else 0.0);
    PickUnit(open, rs);
    PickAtLeastSum(open, rs);
    OpenSum(cs, open);
  }

  lemma {:induction false} OpenSum(s: seq<int>, w: seq<real>)
    requires |s| == |w| && forall i :: 0 <= i < |s| ==> w[i] == if s[i] >= 0 then -1.0 else 0.0
    ensures Sum(w) == -(Assigned(s) as real)
  {
    if |s| > 0 { OpenSum(s[..|s| - 1], w[..|w| - 1]); }
  }

  /** Among the assignments, one that is full on the matched lines has the least total potential. */
  lemma LeastPotential(n: nat, m: nat, u: seq<real>, v: seq<real>, rs: seq<int>, cs: seq<int>, b: seq<int>)
    requires Matching(n, m, rs, cs) && Extreme(n, m, u, v, rs, cs)
    requires IsAssignment(n, m, rs) && IsAssignment(n, m, b)
    ensures RowPick(u, rs) + Pick(v, rs) <= RowPick(u, b) + Pick(v, b)
  {
    assert u[..n] == u;
    RowPickBounds(u, rs);
    RowPickBounds(u, b);
    AssignedBound(rs);
    AssignedBound(b);
    Pigeonhole(rs, m);
    Pigeonhole(b, m);
    forall c | 0 <= c < m && cs[c] >= 0 ensures c in rs { assert rs[cs[c]] == c; }
    PickAll(v, rs);
    if n <= m {
      PickAtLeastSum(v, b);
    } else {
      PickAll(v, b);
    }
  }

  /**
   Weak duality with tolerance: a full matching on entries within the tolerance of feasible
   potentials, extreme on the longer side, is near-optimal.
   */
  lemma DualityBound(dist: seq<real>, n: nat, m: nat, u: seq<real>, v: seq<real>, rs: seq<int>, cs: seq<int>)
    requires |dist| == Size(n, m) && Feasible(dist, n, m, u, v)
    requires Matching(n, m, rs, cs) && Extreme(n, m, u, v, rs, cs)
    requires Assigned(rs) == Min(n, m)
    requires forall r :: 0 <= r < n && rs[r] >= 0 ==> At(dist, n, m, r, rs[r]) <= u[r] + v[rs[r]] + DBL_EPSILON
    ensures NearOptimal(dist, n, m, rs)
  {
    MatchingInjective(n, m, rs, cs);
    assert rs[..n] == rs;
    CostAtMostPotentials(dist, n, m, u, v, rs, n);
    forall b | IsAssignment(n, m, b)
      ensures Cost(dist, n, m, rs) <= Cost(dist, n, m, b) + Min(n, m) as real * DBL_EPSILON
    {
      assert b[..n] == b;
      CostAtLeastPotentials(dist, n, m, u, v, b, n);
      LeastPotential(n, m, u, v, rs, cs, b);
    }
  }

  ghost predicate Multiple(x: real, unit: real) { exists k: int :: x == Times(k, unit) }

  ghost function Times(k: int, unit: real): real { k as real * unit }

  lemma MultipleSum(x: real, y: real, unit: real)
    requires Multiple(x, unit) && Multiple(y, unit)
    ensures Multiple(x + y, unit)
  {
    var j: int :| x == Times(j, unit);
    var k: int :| y == Times(k, unit);
    assert (j + k) as real == j as real + k as real;
    assert x + y == Times(j + k, unit);
  }

  lemma {:induction false} TimesGap(j: int, k: int, unit: real)
    requires j > k && unit > 0.0
    ensures Times(j, unit) >= Times(k, unit) + unit
    decreases j - k
  {
    assert Times(j, unit) == Times(j - 1, unit) + unit;
    if j > k + 1 { TimesGap(j - 1, k, unit); }
  }

  /** Two multiples of a unit that differ by less than the unit are in order. */
  lemma GridGap(x: real, y: real, unit: real, slack: real)
    requires Multiple(x, unit) && Multiple(y, unit)
    requires 0.0 <= slack < unit && x <= y + slack
    ensures x <= y
  {
    var j: int :| x == Times(j, unit);
    var k: int :| y == Times(k, unit);
    if j > k {
      TimesGap(j, k, unit);
    } else {
      assert j as real * unit <= k as real * unit;
    }
  }
}
