/** Column-major matrices in flat buffers: entry (r, c) of an n-row matrix lies at r + n * c. */
module FlatMatrix {

  /** The position of entry (r, c), reached by stepping over c columns of n entries. */
  function Idx(n: nat, r: nat, c: nat): nat
    decreases c
  {
    if c == 0 then r else n + Idx(n, r, c - 1)
  }

  function Size(n: nat, m: nat): nat { Idx(n, 0, m) }

  /** The position stepped to is the one the buffers are indexed with. */
  lemma {:induction false} IdxIsFlat(n: nat, r: nat, c: nat)
    ensures Idx(n, r, c) == r + n * c
    decreases c
  {
    if c > 0 {
      IdxIsFlat(n, r, c - 1);
      assert n + n * (c - 1) == n * c;
    }
  }

  lemma {:induction false} IdxBound(n: nat, m: nat, r: nat, c: nat)
    requires r < n && c < m
    ensures Idx(n, r, c) < Size(n, m)
    decreases m
  {
    if c == m - 1 {
      IdxShift(n, r, c);
    } else {
      IdxBound(n, m - 1, r, c);
    }
  }

  lemma {:induction false} IdxShift(n: nat, r: nat, c: nat)
    ensures Idx(n, r, c) == r + Idx(n, 0, c)
    decreases c
  {
    if c > 0 { IdxShift(n, r, c - 1); }
  }

  /** Distinct entries lie at distinct positions. */
  lemma {:induction false} IdxInjective(n: nat, r: nat, c: nat, r': nat, c': nat)
    requires r < n && r' < n && Idx(n, r, c) == Idx(n, r', c')
    ensures r == r' && c == c'
    decreases c
  {
    if c > 0 && c' > 0 { IdxInjective(n, r, c - 1, r', c' - 1); }
  }

  /** Entry (r, c) of the n by m matrix stored in s. */
  function At<T>(s: seq<T>, n: nat, m: nat, r: nat, c: nat): T
    requires |s| == Size(n, m) && r < n && c < m
  {
    IdxBound(n, m, r, c);
    s[Idx(n, r, c)]
  }

  /** Writing one position changes one entry. */
  lemma AtUpdate<T>(s: seq<T>, n: nat, m: nat, r: nat, c: nat, i: nat, x: T)
    requires |s| == Size(n, m) && r < n && c < m && i == Idx(n, r, c)
    ensures i < |s|
    ensures forall r': nat, c': nat {:trigger At(s[i := x], n, m, r', c')} {:trigger At(s, n, m, r', c')} | r' < n && c' < m ::
      At(s[i := x], n, m, r', c') == if r' == r && c' == c then x else At(s, n, m, r', c')
  {
    IdxBound(n, m, r, c);
    forall r': nat, c': nat | r' < n && c' < m
      ensures At(s[i := x], n, m, r', c') == if r' == r && c' == c then x else At(s, n, m, r', c')
    {
      IdxBound(n, m, r', c');
      if i == Idx(n, r', c') { IdxInjective(n, r, c, r', c'); }
    }
  }
}
