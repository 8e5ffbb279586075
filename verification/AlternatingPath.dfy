/**
 The alternating path of the solver: starting at a zero in an unstarred row, the star of its column
 moves to the prime of its row, and so on until a column without a star is reached.
 */
module AlternatingPath {
  import opened Sums
  import opened FlatMatrix
  import opened Assignments
  import opened MunkresState

  /** The stars so far: row `next`, if any, still has its old star in a column that another row has taken over. */
  ghost predicate Stars(n: nat, m: nat, d: seq<real>, k: Cert, start: nat, rs: seq<int>, cs: seq<int>, next: int)
    requires |d| == Size(n, m) && Matching(n, m, k.rs, k.cs)
  {
    && start < n && |rs| == n && |cs| == m && -1 <= next < n
    && (forall r :: 0 <= r < n ==> -1 <= rs[r] < m && (rs[r] >= 0 <==> k.rs[r] >= 0 || r == start))
    && (forall c :: 0 <= c < m ==> -1 <= cs[c] < n && (k.cs[c] >= 0 ==> cs[c] >= 0))
    && (forall r :: 0 <= r < n && rs[r] >= 0 ==> At(d, n, m, r, rs[r]) < DBL_EPSILON)
    && (forall r :: 0 <= r < n && rs[r] >= 0 && r != next ==> cs[rs[r]] == r)
    && (forall c :: 0 <= c < m && cs[c] >= 0 ==> rs[cs[c]] == c)
  }

  /** Column c has no star, or one in a row primed before row `next`. */
  ghost predicate Earlier(n: nat, m: nat, covR: seq<bool>, k: Cert, next: nat, c: nat)
    requires Matching(n, m, k.rs, k.cs) && |covR| == |k.born| == n && next < n && c < m
  {
    k.cs[c] >= 0 ==> covR[k.cs[c]] && k.born[k.cs[c]] < k.born[next]
  }

  /** What the path has not reached: rows primed no later than `next`, and the columns of earlier ones. */
  ghost predicate Ahead(n: nat, m: nat, covR: seq<bool>, k: Cert, rs: seq<int>, cs: seq<int>, next: nat)
    requires Matching(n, m, k.rs, k.cs) && |covR| == |k.born| == |rs| == n && |cs| == m && next < n
  {
    && covR[next] && k.rs[next] >= 0 && cs[k.rs[next]] != next
    && (forall r :: 0 <= r < n && covR[r] && k.born[r] <= k.born[next] ==> rs[r] == k.rs[r])
    && (forall c :: 0 <= c < m && c != k.rs[next] && Earlier(n, m, covR, k, next, c) ==> cs[c] == k.cs[c])
  }

  /** Part way along the path from row `start`; `next` is -1 at its end. */
  ghost predicate Path(n: nat, m: nat, d: seq<real>, covR: seq<bool>, k: Cert, start: nat,
                       rs: seq<int>, cs: seq<int>, next: int)
    requires |d| == Size(n, m) && |covR| == |k.born| == n && Matching(n, m, k.rs, k.cs)
  {
    && Stars(n, m, d, k, start, rs, cs, next)
    && (next >= 0 ==> Ahead(n, m, covR, k, rs, cs, next))
  }

  /** Starring the zero found at (r, c) starts the path. */
  lemma PathStarts(dist: seq<real>, n: nat, m: nat, d: seq<real>, covR: seq<bool>, covC: seq<bool>, k: Cert, r: nat, c: nat)
    requires Core(dist, n, m, d, k) && Covered(n, m, d, covR, covC, k)
    requires UncoveredZero(n, m, d, covR, covC, r, c) && k.rs[r] < 0
    ensures Path(n, m, d, covR, k, r, k.rs[r := c], k.cs[c := r], k.cs[c])
  {
    assert k.cs[c] >= 0 ==> k.rs[k.cs[c]] == c && covR[k.cs[c]];
  }

  /** Moving the star of row `next` to its prime extends the path by a row primed strictly earlier. */
  lemma PathExtends(dist: seq<real>, n: nat, m: nat, d: seq<real>, covR: seq<bool>, covC: seq<bool>, k: Cert,
                    start: nat, rs: seq<int>, cs: seq<int>, next: int)
    requires Core(dist, n, m, d, k) && Covered(n, m, d, covR, covC, k)
    requires Path(n, m, d, covR, k, start, rs, cs, next) && next >= 0
    ensures 0 <= k.ps[next] < m
    ensures Path(n, m, d, covR, k, start, rs[next := k.ps[next]], cs[k.ps[next] := next], k.cs[k.ps[next]])
    ensures k.cs[k.ps[next]] >= 0 ==> 0 <= k.born[k.cs[k.ps[next]]] < k.born[next]
  {
    var c := k.ps[next];
    assert k.cs[c] >= 0 ==> k.rs[k.cs[c]] == c && covR[k.cs[c]];
    assert Earlier(n, m, covR, k, next, c);
    StarsExtend(n, m, d, covR, k, start, rs, cs, next, c);
    if k.cs[c] >= 0 { AheadExtends(n, m, covR, k, rs, cs, next, c); }
  }

  /** The row the path has come to is another than its start, primed, and still has its old star. */
  lemma PathNext(dist: seq<real>, n: nat, m: nat, d: seq<real>, covR: seq<bool>, covC: seq<bool>, k: Cert,
                 start: nat, rs: seq<int>, cs: seq<int>, next: int)
    requires Core(dist, n, m, d, k) && Covered(n, m, d, covR, covC, k) && start < n && k.rs[start] < 0
    requires Path(n, m, d, covR, k, start, rs, cs, next) && next >= 0
    ensures next != start && |rs| == |k.ps| == n && |cs| == m && rs[next] == k.rs[next] && 0 <= k.ps[next] < m
  {
  }

  lemma StarsExtend(n: nat, m: nat, d: seq<real>, covR: seq<bool>, k: Cert, start: nat, rs: seq<int>, cs: seq<int>,
                    next: nat, c: nat)
    requires |d| == Size(n, m) && |covR| == |k.born| == n && Matching(n, m, k.rs, k.cs)
    requires Stars(n, m, d, k, start, rs, cs, next) && next < n && Ahead(n, m, covR, k, rs, cs, next)
    requires c < m && c != k.rs[next] && Earlier(n, m, covR, k, next, c) && At(d, n, m, next, c) < DBL_EPSILON
    ensures Stars(n, m, d, k, start, rs[next := c], cs[c := next], k.cs[c])
  {
    assert cs[c] == k.cs[c];
    assert rs[next] == k.rs[next];
  }

  lemma AheadExtends(n: nat, m: nat, covR: seq<bool>, k: Cert, rs: seq<int>, cs: seq<int>, next: nat, c: nat)
    requires Matching(n, m, k.rs, k.cs) && |covR| == |k.born| == |rs| == n && |cs| == m && next < n
    requires Ahead(n, m, covR, k, rs, cs, next)
    requires c < m && c != k.rs[next] && k.cs[c] >= 0 && Earlier(n, m, covR, k, next, c)
    ensures Ahead(n, m, covR, k, rs[next := c], cs[c := next], k.cs[c])
  {
    var after := k.cs[c];
    assert k.rs[after] == c;
    assert k.cs[k.rs[next]] == next;
    forall c' | 0 <= c' < m && c' != c && Earlier(n, m, covR, k, after, c')
      ensures cs[c := next][c'] == k.cs[c']
    {
      assert Earlier(n, m, covR, k, next, c');
    }
  }

  /** At its end the path leaves a matching of zeros with one star more, no starred line losing its star. */
  lemma PathEnds(dist: seq<real>, n: nat, m: nat, d: seq<real>, covR: seq<bool>, covC: seq<bool>, k: Cert,
                 start: nat, rs: seq<int>, cs: seq<int>)
    requires Core(dist, n, m, d, k) && Covered(n, m, d, covR, covC, k)
    requires Path(n, m, d, covR, k, start, rs, cs, -1) && k.rs[start] < 0
    ensures Core(dist, n, m, d, k.(rs := rs, cs := cs))
    ensures Assigned(rs) == Assigned(k.rs) + 1
    ensures forall r :: 0 <= r < n && k.rs[r] >= 0 ==> rs[r] >= 0
    ensures forall c :: 0 <= c < m && k.cs[c] >= 0 ==> cs[c] >= 0
  {
    assert Matching(n, m, rs, cs);
    var before := seq(n, r requires 0 <= r < n => k.rs[r] >= 0);
    AssignedIsCount(k.rs, before);
    AssignedIsCount(rs, before[start := true]);
    CountTrueUpdate(before, start, true);
  }
}
