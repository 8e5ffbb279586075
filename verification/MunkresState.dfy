/**
 What the steps of the assignment solver keep: potentials for the working matrix, a matching of
 starred zeros, and, while a zero is being looked for, the covers and the order of the primes.
 */
module MunkresState {
  import opened Sums
  import opened FlatMatrix
  import opened Assignments

  /**
   The proof's view of a solver state. u and v are the row and column potentials; rs and cs say
   which column row r is starred in and which row column c is starred in; ps says which column row r
   is primed in (-1 for none); born[r] is the moment row r was primed, before `clock`.
   */
  datatype Cert = Cert(u: seq<real>, v: seq<real>, rs: seq<int>, cs: seq<int>, ps: seq<int>, born: seq<int>, clock: int)

  predicate IsZero(x: real) { (if x < 0.0 then -x else x) < DBL_EPSILON }

  /** The marks in `s` are one per row at most: row r's mark is in column f[r]. */
  ghost predicate Marks(n: nat, m: nat, s: seq<bool>, f: seq<int>) {
    && |s| == Size(n, m) && |f| == n
    && (forall r :: 0 <= r < n ==> -1 <= f[r] < m)
    && (forall r: nat, c: nat | r < n && c < m :: At(s, n, m, r, c) <==> f[r] == c)
  }

  ghost predicate Unmarked(n: nat, m: nat, s: seq<bool>) {
    |s| == Size(n, m) && forall i :: 0 <= i < |s| ==> !s[i]
  }

  /** The working matrix d is the input less the potentials, and is never negative. */
  ghost predicate Reduced(dist: seq<real>, n: nat, m: nat, d: seq<real>, u: seq<real>, v: seq<real>) {
    && |dist| == |d| == Size(n, m) && |u| == n && |v| == m
    && (forall r: nat, c: nat | r < n && c < m :: At(d, n, m, r, c) == At(dist, n, m, r, c) - u[r] - v[c])
    && (forall r: nat, c: nat | r < n && c < m :: At(d, n, m, r, c) >= 0.0)
  }

  /** The invariant of every step: reduced matrix, starred zeros, potentials extreme on unstarred lines. */
  ghost predicate Core(dist: seq<real>, n: nat, m: nat, d: seq<real>, k: Cert) {
    && Reduced(dist, n, m, d, k.u, k.v)
    && Matching(n, m, k.rs, k.cs)
    && (forall r :: 0 <= r < n && k.rs[r] >= 0 ==> At(d, n, m, r, k.rs[r]) < DBL_EPSILON)
    && Extreme(n, m, k.u, k.v, k.rs, k.cs)
  }

  /**
   The invariant while looking for a zero: every star is covered by exactly one of its row and its
   column, and only starred lines are covered; the covered rows are the primed ones; a prime is a
   zero in an uncovered column, whose star, if any, is in a row primed earlier.
   */
  ghost predicate Covered(n: nat, m: nat, d: seq<real>, covR: seq<bool>, covC: seq<bool>, k: Cert)
    requires |d| == Size(n, m) && Matching(n, m, k.rs, k.cs)
  {
    && |covR| == |k.ps| == |k.born| == n && |covC| == m && k.clock >= 0
    && (forall c :: 0 <= c < m && covC[c] ==> k.cs[c] >= 0)
    && (forall r :: 0 <= r < n && k.rs[r] >= 0 ==> covC[k.rs[r]] == !covR[r])
    && (forall r :: 0 <= r < n ==> -1 <= k.ps[r] < m && (covR[r] <==> k.ps[r] >= 0))
    && (forall r :: 0 <= r < n && covR[r] ==> k.rs[r] >= 0 && 0 <= k.born[r] < k.clock)
    && (forall r :: 0 <= r < n && covR[r] ==> !covC[k.ps[r]] && At(d, n, m, r, k.ps[r]) < DBL_EPSILON)
    && (forall r :: 0 <= r < n && covR[r] && k.cs[k.ps[r]] >= 0 ==> k.born[k.cs[k.ps[r]]] < k.born[r])
  }

  ghost predicate UncoveredZero(n: nat, m: nat, d: seq<real>, covR: seq<bool>, covC: seq<bool>, r: nat, c: nat)
    requires |d| == Size(n, m) && |covR| == n && |covC| == m
  {
    r < n && c < m && !covR[r] && !covC[c] && IsZero(At(d, n, m, r, c))
  }

  ghost predicate SomeUncoveredZero(n: nat, m: nat, d: seq<real>, covR: seq<bool>, covC: seq<bool>)
    requires |d| == Size(n, m) && |covR| == n && |covC| == m
  {
    exists r: nat, c: nat :: UncoveredZero(n, m, d, covR, covC, r, c)
  }

  /** h is at most every uncovered entry of the first `rows` rows; `found` if there is any. */
  ghost predicate LowerBound(n: nat, m: nat, d: seq<real>, covR: seq<bool>, covC: seq<bool>, rows: nat, h: real, found: bool)
    requires |d| == Size(n, m) && |covR| == n && |covC| == m && rows <= n
  {
    forall r: nat, c: nat | r < rows && c < m && !covR[r] && !covC[c] :: found && At(d, n, m, r, c) >= h
  }

  /** The next state when row r, starred elsewhere, is primed in column c. */
  ghost function PrimeRow(k: Cert, r: nat, c: nat): Cert
    requires r < |k.ps| == |k.born|
  {
    k.(ps := k.ps[r := c], born := k.born[r := k.clock], clock := k.clock + 1)
  }

  /** Priming a zero in a starred row, covering the row and uncovering its star's column. */
  lemma PrimeKeepsCovered(n: nat, m: nat, d: seq<real>, covR: seq<bool>, covC: seq<bool>, k: Cert, r: nat, c: nat)
    requires |d| == Size(n, m) && Matching(n, m, k.rs, k.cs) && Covered(n, m, d, covR, covC, k)
    requires UncoveredZero(n, m, d, covR, covC, r, c) && k.rs[r] >= 0 && At(d, n, m, r, c) >= 0.0
    ensures Covered(n, m, d, covR[r := true], covC[k.rs[r] := false], PrimeRow(k, r, c))
  {
    assert k.cs[c] >= 0 ==> k.rs[k.cs[c]] == c;
    assert k.cs[k.rs[r]] == r;
  }

  /** Covered lines and stars are equal in number. */
  lemma CoversCountStars(n: nat, m: nat, d: seq<real>, covR: seq<bool>, covC: seq<bool>, k: Cert)
    requires |d| == Size(n, m) && Matching(n, m, k.rs, k.cs) && Covered(n, m, d, covR, covC, k)
    ensures CountTrue(covR) + CountTrue(covC) == Assigned(k.rs)
  {
    hide Assigned, CountTrue;
    // The stars covered by their columns, seen from both sides.
    var rs := seq(n, r requires 0 <= r < n => if covR[r] then -1 else k.rs[r]);
    var cs := seq(m, c requires 0 <= c < m => if covC[c] then k.cs[c] else -1);
    assert Matching(n, m, rs, cs) by {
      forall c | 0 <= c < m && cs[c] >= 0 ensures rs[cs[c]] == c { assert k.rs[k.cs[c]] == c; }
    }
    MatchingCounts(n, m, rs, cs);
    AssignedIsCount(cs, covC);
    SplitByRowCover(k.rs, rs, covR);
  }

  lemma {:induction false} SplitByRowCover(all: seq<int>, left: seq<int>, cov: seq<bool>)
    requires |all| == |left| == |cov|
    requires forall i :: 0 <= i < |all| ==> if cov[i] then all[i] >= 0 && left[i] < 0 else left[i] == all[i]
    ensures Assigned(all) == Assigned(left) + CountTrue(cov)
  {
    if |all| > 0 { SplitByRowCover(all[..|all| - 1], left[..|all| - 1], cov[..|all| - 1]); }
  }

  /** While stars are missing, some entry is uncovered. */
  lemma SomeUncovered(n: nat, m: nat, d: seq<real>, covR: seq<bool>, covC: seq<bool>, k: Cert) returns (r: nat, c: nat)
    requires |d| == Size(n, m) && Matching(n, m, k.rs, k.cs) && Covered(n, m, d, covR, covC, k)
    requires Assigned(k.rs) < Min(n, m)
    ensures r < n && c < m && !covR[r] && !covC[c]
  {
    MatchingCounts(n, m, k.rs, k.cs);
    AssignedBound(k.rs);
    AssignedBound(k.cs);
    r :| 0 <= r < n && k.rs[r] < 0;
    c :| 0 <= c < m && k.cs[c] < 0;
  }

  /** The matrix after h is added to the covered rows and taken off the uncovered columns. */
  ghost predicate Shifted(n: nat, m: nat, d: seq<real>, d': seq<real>, covR: seq<bool>, covC: seq<bool>, h: real) {
    && |d| == |d'| == Size(n, m) && |covR| == n && |covC| == m
    && forall r: nat, c: nat | r < n && c < m ::
         At(d', n, m, r, c) == At(d, n, m, r, c) + (if covR[r] then h else 0.0) - (if covC[c] then 0.0 else h)
  }

  /** The potentials after such a shift, kept extreme on the longer side. */
  ghost function ShiftDuals(n: nat, m: nat, k: Cert, covR: seq<bool>, covC: seq<bool>, h: real): Cert
    requires |k.u| == |covR| == n && |k.v| == |covC| == m
  {
    if n <= m then
      k.(u := seq(n, r requires 0 <= r < n => if covR[r] then k.u[r] else k.u[r] + h),
         v := seq(m, c requires 0 <= c < m => if covC[c] then k.v[c] - h else k.v[c]))
    else
      k.(u := seq(n, r requires 0 <= r < n => if covR[r] then k.u[r] - h else k.u[r]),
         v := seq(m, c requires 0 <= c < m => if covC[c] then k.v[c] else k.v[c] + h))
  }

  /** Shifting by no more than the least uncovered entry keeps both invariants. */
  lemma ShiftKeeps(dist: seq<real>, n: nat, m: nat, d: seq<real>, d': seq<real>, covR: seq<bool>, covC: seq<bool>,
                   k: Cert, h: real)
    requires Core(dist, n, m, d, k) && Covered(n, m, d, covR, covC, k)
    requires Shifted(n, m, d, d', covR, covC, h) && h >= 0.0
    requires forall r: nat, c: nat | r < n && c < m && !covR[r] && !covC[c] :: At(d, n, m, r, c) >= h
    ensures Core(dist, n, m, d', ShiftDuals(n, m, k, covR, covC, h))
    ensures Covered(n, m, d', covR, covC, ShiftDuals(n, m, k, covR, covC, h))
  {
    var k' := ShiftDuals(n, m, k, covR, covC, h);
    forall r: nat, c: nat | r < n && c < m
      ensures At(d', n, m, r, c) == At(dist, n, m, r, c) - k'.u[r] - k'.v[c] && At(d', n, m, r, c) >= 0.0
    {
      assert At(d, n, m, r, c) == At(dist, n, m, r, c) - k.u[r] - k.v[c];
      assert At(d, n, m, r, c) >= 0.0;
    }
    forall r | 0 <= r < n && k.rs[r] >= 0 ensures At(d', n, m, r, k.rs[r]) < DBL_EPSILON {
      assert covC[k.rs[r]] == !covR[r];
    }
  }

  /** At the start of a search the covered columns are the starred ones and nothing is primed. */
  ghost predicate Fresh(n: nat, m: nat, covR: seq<bool>, covC: seq<bool>, prime: seq<bool>, k: Cert)
    requires |k.cs| == m
  {
    && |covR| == n && (forall r :: 0 <= r < n ==> !covR[r])
    && |covC| == m && (forall c :: 0 <= c < m ==> (covC[c] <==> k.cs[c] >= 0))
    && Unmarked(n, m, prime)
  }

  ghost function ClearPrimes(k: Cert): Cert {
    k.(ps := seq(|k.rs|, _ => -1), born := seq(|k.rs|, _ => 0), clock := 0)
  }

  lemma FreshCovered(dist: seq<real>, n: nat, m: nat, d: seq<real>, covR: seq<bool>, covC: seq<bool>, prime: seq<bool>, k: Cert)
    requires Core(dist, n, m, d, k) && Fresh(n, m, covR, covC, prime, k)
    ensures Core(dist, n, m, d, ClearPrimes(k)) && Covered(n, m, d, covR, covC, ClearPrimes(k))
    ensures Marks(n, m, prime, ClearPrimes(k).ps)
  {
    forall r: nat, c: nat | r < n && c < m ensures !At(prime, n, m, r, c) { IdxBound(n, m, r, c); }
  }

  /** A full matching held by the invariant solves the problem to within the tolerance. */
  lemma FullIsNearOptimal(dist: seq<real>, n: nat, m: nat, d: seq<real>, k: Cert)
    requires Core(dist, n, m, d, k) && Assigned(k.rs) == Min(n, m)
    ensures NearOptimal(dist, n, m, k.rs)
  {
    forall r: nat, c: nat | r < n && c < m ensures At(dist, n, m, r, c) >= k.u[r] + k.v[c] {
      assert At(d, n, m, r, c) >= 0.0;
      assert At(d, n, m, r, c) == At(dist, n, m, r, c) - k.u[r] - k.v[c];
    }
    forall r | 0 <= r < n && k.rs[r] >= 0
      ensures At(dist, n, m, r, k.rs[r]) <= k.u[r] + k.v[k.rs[r]] + DBL_EPSILON
    {
      assert At(d, n, m, r, k.rs[r]) == At(dist, n, m, r, k.rs[r]) - k.u[r] - k.v[k.rs[r]];
    }
    DualityBound(dist, n, m, k.u, k.v, k.rs, k.cs);
  }
}
