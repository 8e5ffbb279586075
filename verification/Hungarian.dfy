/**
 The entry points of the assignment solver of tmp/tracker_sort/hungarian.cpp: reduction of the
 matrix, the first greedy stars, and the range check around them.
 */
module Hungarian {
  import opened Sums
  import opened FlatMatrix
  import opened Assignments
  import opened MunkresState
  import opened MunkresSteps

  /** The least entry of a row, stepping through the buffer by nOfRows. */
  method RowMinimum(d: array<real>, n: nat, m: nat, row: nat) returns (minValue: real)
    requires d.Length == Size(n, m) && row < n && 0 < m
    ensures exists c: nat :: c < m && At(d[..], n, m, row, c) == minValue
    ensures forall c: nat | c < m :: At(d[..], n, m, row, c) >= minValue
  {
    IdxBound(n, m, row, 0);
    IdxShift(n, row, m);
    assert d[row] == At(d[..], n, m, row, 0);
    minValue := d[row];
    var i := row + n;
    ghost var col := 1;
    while i < d.Length
      invariant 1 <= col <= m && i == Idx(n, row, col)
      invariant exists c: nat :: c < col && At(d[..], n, m, row, c) == minValue
      invariant forall c: nat | c < col :: At(d[..], n, m, row, c) >= minValue
      decreases m - col
    {
      var value := d[i];
      assert value == At(d[..], n, m, row, col);
      if value < minValue {
        minValue := value;
      }
      i := i + n;
      col := col + 1;
    }
    if col < m { IdxBound(n, m, row, col); }
  }

  method SubtractFromRow(d: array<real>, n: nat, m: nat, row: nat, x: real)
    requires d.Length == Size(n, m) && row < n
    modifies d
    ensures forall r: nat, c: nat | r < n && c < m ::
              At(d[..], n, m, r, c) == At(old(d[..]), n, m, r, c) - if r == row then x else 0.0
  {
    IdxShift(n, row, m);
    var i := row;
    ghost var col := 0;
    while i < d.Length
      invariant 0 <= col <= m && i == Idx(n, row, col)
      invariant forall r: nat, c: nat | r < n && c < m ::
                  At(d[..], n, m, r, c) == At(old(d[..]), n, m, r, c) - if r == row && c < col then x else 0.0
      decreases m - col
    {
      ghost var before := d[..];
      AtUpdate(before, n, m, row, col, i, At(before, n, m, row, col) - x);
      d[i] := d[i] - x;
      assert d[..] == before[i := At(before, n, m, row, col) - x];
      i := i + n;
      col := col + 1;
    }
    if col < m { IdxBound(n, m, row, col); }
  }

  /** The least entry of a column, which is contiguous in the buffer. */
  method ColumnMinimum(d: array<real>, n: nat, m: nat, col: nat) returns (minValue: real)
    requires d.Length == Size(n, m) && col < m && 0 < n
    ensures exists r: nat :: r < n && At(d[..], n, m, r, col) == minValue
    ensures forall r: nat | r < n :: At(d[..], n, m, r, col) >= minValue
  {
    IdxBound(n, m, 0, col);
    assert d[Idx(n, 0, col)] == At(d[..], n, m, 0, col);
    minValue := d[Idx(n, 0, col)];
    for row := 1 to n
      invariant exists r: nat :: r < row && At(d[..], n, m, r, col) == minValue
      invariant forall r: nat | r < row :: At(d[..], n, m, r, col) >= minValue
    {
      IdxBound(n, m, row, col);
      var value := d[Idx(n, row, col)];
      assert value == At(d[..], n, m, row, col);
      if value < minValue {
        minValue := value;
      }
    }
  }

  method SubtractFromColumn(d: array<real>, n: nat, m: nat, col: nat, x: real)
    requires d.Length == Size(n, m) && col < m
    modifies d
    ensures forall r: nat, c: nat | r < n && c < m ::
              At(d[..], n, m, r, c) == At(old(d[..]), n, m, r, c) - if c == col then x else 0.0
  {
    for row := 0 to n
      invariant forall r: nat, c: nat | r < n && c < m ::
                  At(d[..], n, m, r, c) == At(old(d[..]), n, m, r, c) - if c == col && r < row then x else 0.0
    {
      AddToEntry(d, n, m, row, col, -x);
    }
  }

  ghost predicate RowAttains(dist: seq<real>, n: nat, m: nat, r: nat, x: real)
    requires |dist| == Size(n, m) && r < n
  {
    exists c: nat :: c < m && At(dist, n, m, r, c) == x
  }

  /** u[r] is the least entry of row r of the input. */
  ghost predicate RowMinima(dist: seq<real>, n: nat, m: nat, u: seq<real>)
    requires |dist| == Size(n, m)
  {
    && |u| == n
    && (forall r: nat, c: nat | r < n && c < m :: At(dist, n, m, r, c) >= u[r])
    && (forall r: nat | r < n :: RowAttains(dist, n, m, r, u[r]))
  }

  /** Subtract from each row its least element. */
  method ReduceRows(d: array<real>, n: nat, m: nat) returns (ghost u: seq<real>)
    requires d.Length == Size(n, m) && n <= m
    modifies d
    ensures RowMinima(old(d[..]), n, m, u)
    ensures Reduced(old(d[..]), n, m, d[..], u, Constant(m, 0.0))
  {
    ghost var dist := d[..];
    u := [];
    for row := 0 to n
      invariant |u| == row
      invariant forall r: nat, c: nat | r < n && c < m ::
                  At(d[..], n, m, r, c) == At(dist, n, m, r, c) - if r < row then u[r] else 0.0
      invariant forall r: nat, c: nat | r < row && c < m :: At(dist, n, m, r, c) >= u[r]
      invariant forall r: nat | r < row :: RowAttains(dist, n, m, r, u[r])
    {
      var minValue := RowMinimum(d, n, m, row);
      ghost var c: nat :| c < m && At(d[..], n, m, row, c) == minValue;
      assert At(dist, n, m, row, c) == minValue;
      SubtractFromRow(d, n, m, row, minValue);
      u := u + [minValue];
    }
  }

  ghost predicate ColumnAttains(dist: seq<real>, n: nat, m: nat, c: nat, x: real)
    requires |dist| == Size(n, m) && c < m
  {
    exists r: nat :: r < n && At(dist, n, m, r, c) == x
  }

  /** v[c] is the least entry of column c of the input. */
  ghost predicate ColumnMinima(dist: seq<real>, n: nat, m: nat, v: seq<real>)
    requires |dist| == Size(n, m)
  {
    |v| == m && forall c: nat | c < m :: ColumnAttains(dist, n, m, c, v[c])
  }

  /** Subtract from each column its least element. */
  method ReduceColumns(d: array<real>, n: nat, m: nat) returns (ghost v: seq<real>)
    requires d.Length == Size(n, m) && n > m
    modifies d
    ensures ColumnMinima(old(d[..]), n, m, v)
    ensures Reduced(old(d[..]), n, m, d[..], Constant(n, 0.0), v)
  {
    ghost var dist := d[..];
    v := [];
    for col := 0 to m
      invariant |v| == col
      invariant forall c: nat | c < col :: ColumnAttains(dist, n, m, c, v[c])
      invariant forall r: nat, c: nat | r < n && c < m ::
                  At(d[..], n, m, r, c) == At(dist, n, m, r, c) - if c < col then v[c] else 0.0
      invariant forall r: nat, c: nat | r < n && c < col :: At(d[..], n, m, r, c) >= 0.0
    {
      var minValue := ColumnMinimum(d, n, m, col);
      ghost var row: nat :| row < n && At(d[..], n, m, row, col) == minValue;
      assert At(dist, n, m, row, col) == minValue;
      SubtractFromColumn(d, n, m, col, minValue);
      v := v + [minValue];
    }
  }

  /** Column c, or -1 for none, is the first zero of row r. */
  ghost predicate FirstZero(d: seq<real>, n: nat, m: nat, r: nat, c: int)
    requires |d| == Size(n, m) && r < n && -1 <= c < m
  {
    && (c >= 0 ==> IsZero(At(d, n, m, r, c)))
    && forall c': nat | c' < (if c < 0 then m else c) :: !IsZero(At(d, n, m, r, c'))
  }

  /** Row r, or -1 for none, is the first zero of column c. */
  ghost predicate FirstZeroDown(d: seq<real>, n: nat, m: nat, c: nat, r: int)
    requires |d| == Size(n, m) && c < m && -1 <= r < n
  {
    && (r >= 0 ==> IsZero(At(d, n, m, r, c)))
    && forall r': nat | r' < (if r < 0 then n else r) :: !IsZero(At(d, n, m, r', c))
  }

  ghost predicate ZeroStars(d: seq<real>, n: nat, m: nat, rs: seq<int>)
    requires |d| == Size(n, m) && |rs| == n && forall r :: 0 <= r < n ==> -1 <= rs[r] < m
  {
    forall r :: 0 <= r < n && rs[r] >= 0 ==> IsZero(At(d, n, m, r, rs[r]))
  }

  /** The first zero of a row in an uncovered column, or the number of columns. */
  method FirstOpenZeroInRow(w: Work, row: nat) returns (col: nat)
    requires w.Shaped() && row < w.nOfRows
    ensures col <= w.nOfColumns
    ensures col < w.nOfColumns ==>
              !w.coveredColumns[col] && IsZero(At(w.distMatrix[..], w.nOfRows, w.nOfColumns, row, col))
    ensures forall c: nat | c < col && !w.coveredColumns[c] ::
              !IsZero(At(w.distMatrix[..], w.nOfRows, w.nOfColumns, row, c))
    ensures (forall c :: 0 <= c < w.nOfColumns ==> !w.coveredColumns[c]) ==>
              FirstZero(w.distMatrix[..], w.nOfRows, w.nOfColumns, row, if col < w.nOfColumns then col else -1)
  {
    col := 0;
    while col < w.nOfColumns
      invariant col <= w.nOfColumns
      invariant forall c: nat | c < col && !w.coveredColumns[c] ::
                  !IsZero(At(w.distMatrix[..], w.nOfRows, w.nOfColumns, row, c))
    {
      IdxBound(w.nOfRows, w.nOfColumns, row, col);
      assert w.distMatrix[Idx(w.nOfRows, row, col)] == At(w.distMatrix[..], w.nOfRows, w.nOfColumns, row, col);
      if IsZero(w.distMatrix[Idx(w.nOfRows, row, col)]) && !w.coveredColumns[col] { break; }
      col := col + 1;
    }
  }

  /** The first zero of a column in an uncovered row, or the number of rows. */
  method FirstOpenZeroInColumn(w: Work, col: nat) returns (row: nat)
    requires w.Shaped() && col < w.nOfColumns
    ensures row <= w.nOfRows
    ensures row < w.nOfRows ==>
              !w.coveredRows[row] && IsZero(At(w.distMatrix[..], w.nOfRows, w.nOfColumns, row, col))
    ensures forall r: nat | r < row && !w.coveredRows[r] ::
              !IsZero(At(w.distMatrix[..], w.nOfRows, w.nOfColumns, r, col))
    ensures (forall r :: 0 <= r < w.nOfRows ==> !w.coveredRows[r]) ==>
              FirstZeroDown(w.distMatrix[..], w.nOfRows, w.nOfColumns, col, if row < w.nOfRows then row else -1)
  {
    row := 0;
    while row < w.nOfRows
      invariant row <= w.nOfRows
      invariant forall r: nat | r < row && !w.coveredRows[r] ::
                  !IsZero(At(w.distMatrix[..], w.nOfRows, w.nOfColumns, r, col))
    {
      IdxBound(w.nOfRows, w.nOfColumns, row, col);
      assert w.distMatrix[Idx(w.nOfRows, row, col)] == At(w.distMatrix[..], w.nOfRows, w.nOfColumns, row, col);
      if IsZero(w.distMatrix[Idx(w.nOfRows, row, col)]) && !w.coveredRows[row] { break; }
      row := row + 1;
    }
  }

  /** The first stars so far: a matching of zeros, seen in the star matrix. */
  ghost predicate StarsPlaced(n: nat, m: nat, d: seq<real>, stars: seq<bool>, rs: seq<int>, cs: seq<int>)
    requires |d| == Size(n, m)
  {
    Matching(n, m, rs, cs) && Marks(n, m, stars, rs) && ZeroStars(d, n, m, rs)
  }

  lemma NoStars(n: nat, m: nat, d: seq<real>, stars: seq<bool>)
    requires |d| == |stars| == Size(n, m) && forall i :: 0 <= i < |stars| ==> !stars[i]
    ensures StarsPlaced(n, m, d, stars, seq(n, _ => -1), seq(m, _ => -1))
  {
    forall r: nat, c: nat | r < n && c < m ensures !At(stars, n, m, r, c) { IdxBound(n, m, r, c); }
  }

  /** One more zero of an unstarred row and column. */
  lemma StarPlaced(n: nat, m: nat, d: seq<real>, before: seq<bool>, after: seq<bool>, rs: seq<int>, cs: seq<int>, r: nat, c: nat)
    requires |d| == Size(n, m) && StarsPlaced(n, m, d, before, rs, cs) && r < n && c < m
    requires rs[r] < 0 && cs[c] < 0 && IsZero(At(d, n, m, r, c)) && Marks(n, m, after, rs[r := c])
    ensures StarsPlaced(n, m, d, after, rs[r := c], cs[c := r])
  {
    hide Marks, IsZero, At;
  }

  /** Star the first zero of each row whose column has no star yet. */
  method InitialStarsByRow(w: Work) returns (ghost rs: seq<int>, ghost cs: seq<int>)
    requires w.Shaped()
    requires forall i :: 0 <= i < w.starMatrix.Length ==> !w.starMatrix[i]
    requires forall c :: 0 <= c < w.nOfColumns ==> !w.coveredColumns[c]
    modifies w.starMatrix, w.coveredColumns
    ensures Matching(w.nOfRows, w.nOfColumns, rs, cs) && Marks(w.nOfRows, w.nOfColumns, w.starMatrix[..], rs)
    ensures forall c :: 0 <= c < w.nOfColumns ==> (w.coveredColumns[c] <==> cs[c] >= 0)
    ensures ZeroStars(w.distMatrix[..], w.nOfRows, w.nOfColumns, rs)
    ensures w.nOfRows > 0 ==> FirstZero(w.distMatrix[..], w.nOfRows, w.nOfColumns, 0, rs[0])
  {
    ghost var n, m, d := w.nOfRows, w.nOfColumns, w.distMatrix[..];
    rs, cs := seq(n, _ => -1), seq(m, _ => -1);
    NoStars(n, m, d, w.starMatrix[..]);
    hide Matching, Marks, ZeroStars, IsZero, At, FirstZero, FirstZeroDown, StarsPlaced;
    for row := 0 to w.nOfRows
      invariant |rs| == n && |cs| == m && StarsPlaced(n, m, d, w.starMatrix[..], rs, cs)
      invariant forall c :: 0 <= c < m ==> (w.coveredColumns[c] <==> cs[c] >= 0)
      invariant forall r :: row <= r < n ==> rs[r] == -1
      invariant row == 0 ==> forall c :: 0 <= c < m ==> cs[c] == -1
      invariant row > 0 ==> FirstZero(d, n, m, 0, rs[0])
    {
      var col := FirstOpenZeroInRow(w, row);
      if col < w.nOfColumns {
        ghost var before := w.starMatrix[..];
        MoveStar(w.starMatrix, w.nOfRows, w.nOfColumns, row, rs, col, true);
        StarPlaced(n, m, d, before, w.starMatrix[..], rs, cs, row, col);
        w.coveredColumns[col] := true;
        rs, cs := rs[row := col], cs[col := row];
      }
    }
  }

  /** Star the first zero of each column whose row has no star yet. */
  method InitialStarsByColumn(w: Work) returns (ghost rs: seq<int>, ghost cs: seq<int>)
    requires w.Shaped()
    requires forall i :: 0 <= i < w.starMatrix.Length ==> !w.starMatrix[i]
    requires forall c :: 0 <= c < w.nOfColumns ==> !w.coveredColumns[c]
    requires forall r :: 0 <= r < w.nOfRows ==> !w.coveredRows[r]
    modifies w.starMatrix, w.coveredColumns, w.coveredRows
    ensures Matching(w.nOfRows, w.nOfColumns, rs, cs) && Marks(w.nOfRows, w.nOfColumns, w.starMatrix[..], rs)
    ensures forall c :: 0 <= c < w.nOfColumns ==> (w.coveredColumns[c] <==> cs[c] >= 0)
    ensures ZeroStars(w.distMatrix[..], w.nOfRows, w.nOfColumns, rs)
    ensures w.nOfColumns > 0 ==> FirstZeroDown(w.distMatrix[..], w.nOfRows, w.nOfColumns, 0, cs[0])
  {
    ghost var n, m, d := w.nOfRows, w.nOfColumns, w.distMatrix[..];
    rs, cs := seq(n, _ => -1), seq(m, _ => -1);
    NoStars(n, m, d, w.starMatrix[..]);
    hide Matching, Marks, ZeroStars, IsZero, At, FirstZero, FirstZeroDown, StarsPlaced;
    for col := 0 to w.nOfColumns
      invariant |rs| == n && |cs| == m && StarsPlaced(n, m, d, w.starMatrix[..], rs, cs)
      invariant forall c :: 0 <= c < m ==> (w.coveredColumns[c] <==> cs[c] >= 0)
      invariant forall r :: 0 <= r < n ==> (w.coveredRows[r] <==> rs[r] >= 0)
      invariant forall c :: col <= c < m ==> cs[c] == -1
      invariant col > 0 ==> FirstZeroDown(d, n, m, 0, cs[0])
    {
      var row := FirstOpenZeroInColumn(w, col);
      if row < w.nOfRows {
        ghost var before := w.starMatrix[..];
        MoveStar(w.starMatrix, w.nOfRows, w.nOfColumns, row, rs, col, true);
        StarPlaced(n, m, d, before, w.starMatrix[..], rs, cs, row, col);
        w.coveredColumns[col] := true;
        w.coveredRows[row] := true;
        rs, cs := rs[row := col], cs[col := row];
      }
    }
  }

  ghost predicate IsLeast(row: seq<real>, x: real) {
    x in row && forall c :: 0 <= c < |row| ==> x <= row[c]
  }

  /** Column c is the first whose entry is within the tolerance of the row's least. */
  ghost predicate FirstCheapest(row: seq<real>, c: int) {
    && 0 <= c < |row|
    && forall least: real :: IsLeast(row, least) ==>
         && row[c] < least + DBL_EPSILON
         && forall c' :: 0 <= c' < c ==> row[c'] >= least + DBL_EPSILON
  }

  /** The row that is given the only column is the first within the tolerance of its least. */
  ghost predicate ChosenFirst(column: seq<real>, a: seq<int>) {
    forall r :: 0 <= r < |a| && a[r] >= 0 ==> FirstCheapest(column, r)
  }

  /** A matrix of one row is that row. */
  lemma SingleRowAt(dist: seq<real>, m: nat, c: nat)
    requires |dist| == Size(1, m) && c < m
    ensures |dist| == m && At(dist, 1, m, 0, c) == dist[c]
  {
    IdxIsFlat(1, 0, c);
    IdxIsFlat(1, 0, m);
  }

  lemma SingleRow(dist: seq<real>, m: nat, d: seq<real>, u: seq<real>, c: int)
    requires 0 < m && |dist| == Size(1, m) && RowMinima(dist, 1, m, u)
    requires Reduced(dist, 1, m, d, u, Constant(m, 0.0))
    requires -1 <= c < m && FirstZero(d, 1, m, 0, c)
    ensures FirstCheapest(dist, c)
  {
    assert RowAttains(dist, 1, m, 0, u[0]);
    var c0: nat :| c0 < m && At(dist, 1, m, 0, c0) == u[0];
    assert At(d, 1, m, 0, c0) == 0.0;
    forall c': nat | c' < m
      ensures |dist| == m && u[0] <= dist[c'] && At(d, 1, m, 0, c') == dist[c'] - u[0] >= 0.0
    {
      SingleRowAt(dist, m, c');
      assert At(d, 1, m, 0, c') >= 0.0;
    }
    SingleRowAt(dist, m, c0);
    assert dist[c0] == u[0];
  }

  /** A matrix of one column is that column. */
  lemma SingleColumnAt(dist: seq<real>, n: nat, r: nat)
    requires |dist| == Size(n, 1) && r < n
    ensures |dist| == n && At(dist, n, 1, r, 0) == dist[r]
  {
    IdxIsFlat(n, r, 0);
    IdxIsFlat(n, 0, 1);
  }

  lemma SingleColumn(dist: seq<real>, n: nat, d: seq<real>, v: seq<real>, r: int)
    requires 0 < n && |dist| == Size(n, 1) && ColumnMinima(dist, n, 1, v)
    requires Reduced(dist, n, 1, d, Constant(n, 0.0), v)
    requires -1 <= r < n && FirstZeroDown(d, n, 1, 0, r)
    ensures FirstCheapest(dist, r)
  {
    assert ColumnAttains(dist, n, 1, 0, v[0]);
    var r0: nat :| r0 < n && At(dist, n, 1, r0, 0) == v[0];
    assert At(d, n, 1, r0, 0) == 0.0;
    forall r': nat | r' < n
      ensures |dist| == n && v[0] <= dist[r'] && At(d, n, 1, r', 0) == dist[r'] - v[0] >= 0.0
    {
      SingleColumnAt(dist, n, r');
      assert At(d, n, 1, r', 0) >= 0.0;
    }
    SingleColumnAt(dist, n, r0);
    assert dist[r0] == v[0];
  }

  /** Reduce the matrix and place the first stars: the invariant holds and step 2b can begin. */
  method Preliminaries(w: Work, ghost dist: seq<real>) returns (ghost k: Cert)
    requires w.Shaped() && w.distMatrix[..] == dist
    requires forall r :: 0 <= r < w.nOfRows ==> w.assignment[r] == -1 && !w.coveredRows[r]
    requires forall i :: 0 <= i < w.starMatrix.Length ==> !w.starMatrix[i] && !w.primeMatrix[i]
    requires forall c :: 0 <= c < w.nOfColumns ==> !w.coveredColumns[c]
    modifies w.distMatrix, w.starMatrix, w.coveredColumns, w.coveredRows
    ensures w.Holds(dist, k)
    ensures Fresh(w.nOfRows, w.nOfColumns, w.coveredRows[..], w.coveredColumns[..], w.primeMatrix[..], k)
    ensures w.nOfRows == 1 && w.nOfColumns > 0 ==> FirstCheapest(dist, k.rs[0])
    ensures w.nOfColumns == 1 && w.nOfRows > 1 ==> FirstCheapest(dist, k.cs[0])
    ensures Assigned(k.rs) <= w.minDim
  {
    if w.nOfRows <= w.nOfColumns {
      k := StartByRow(w, dist);
    } else {
      k := StartByColumn(w, dist);
    }
    MatchingCounts(w.nOfRows, w.nOfColumns, k.rs, k.cs);
    hide FirstCheapest, Core;
  }

  method StartByRow(w: Work, ghost dist: seq<real>) returns (ghost k: Cert)
    requires w.Shaped() && w.distMatrix[..] == dist
    requires forall r :: 0 <= r < w.nOfRows ==> w.assignment[r] == -1 && !w.coveredRows[r]
    requires forall i :: 0 <= i < w.starMatrix.Length ==> !w.starMatrix[i] && !w.primeMatrix[i]
    requires forall c :: 0 <= c < w.nOfColumns ==> !w.coveredColumns[c]
    requires w.nOfRows <= w.nOfColumns
    modifies w.distMatrix, w.starMatrix, w.coveredColumns, w.coveredRows
    ensures w.Holds(dist, k)
    ensures Fresh(w.nOfRows, w.nOfColumns, w.coveredRows[..], w.coveredColumns[..], w.primeMatrix[..], k)
    ensures w.nOfRows == 1 && w.nOfColumns > 0 ==> FirstCheapest(dist, k.rs[0])
  {
    ghost var n, m := w.nOfRows, w.nOfColumns;
    ghost var u := ReduceRows(w.distMatrix, w.nOfRows, w.nOfColumns);
    hide FirstCheapest;
    ghost var rs, cs := InitialStarsByRow(w);
    if n == 1 { SingleRow(dist, m, w.distMatrix[..], u, rs[0]); }
    k := Cert(u, Constant(m, 0.0), rs, cs, [], [], 0);
  }

  method StartByColumn(w: Work, ghost dist: seq<real>) returns (ghost k: Cert)
    requires w.Shaped() && w.distMatrix[..] == dist
    requires forall r :: 0 <= r < w.nOfRows ==> w.assignment[r] == -1 && !w.coveredRows[r]
    requires forall i :: 0 <= i < w.starMatrix.Length ==> !w.starMatrix[i] && !w.primeMatrix[i]
    requires forall c :: 0 <= c < w.nOfColumns ==> !w.coveredColumns[c]
    requires w.nOfRows > w.nOfColumns
    modifies w.distMatrix, w.starMatrix, w.coveredColumns, w.coveredRows
    ensures w.Holds(dist, k)
    ensures Fresh(w.nOfRows, w.nOfColumns, w.coveredRows[..], w.coveredColumns[..], w.primeMatrix[..], k)
    ensures w.nOfColumns == 1 && w.nOfRows > 1 ==> FirstCheapest(dist, k.cs[0])
  {
    ghost var n, m := w.nOfRows, w.nOfColumns;
    ghost var v := ReduceColumns(w.distMatrix, w.nOfRows, w.nOfColumns);
    hide FirstCheapest;
    ghost var rs, cs := InitialStarsByColumn(w);
    if m == 1 { SingleColumn(dist, n, w.distMatrix[..], v, cs[0]); }
    k := Cert(Constant(n, 0.0), v, rs, cs, [], [], 0);
    ClearMarks(w.coveredRows);
  }

  /** Working copy of the input and cleared marks and covers. */
  method NewWork(assignment: array<int>, distMatrixIn: array<real>, nOfRows: nat, nOfColumns: nat) returns (w: Work)
    requires assignment.Length == nOfRows && distMatrixIn.Length == Size(nOfRows, nOfColumns)
    ensures w.Shaped() && w.assignment == assignment && w.nOfRows == nOfRows && w.nOfColumns == nOfColumns
    ensures fresh(w.Buffers() - {assignment as object})
    ensures w.distMatrix[..] == distMatrixIn[..]
    ensures forall r :: 0 <= r < nOfRows ==> !w.coveredRows[r]
    ensures forall i :: 0 <= i < w.starMatrix.Length ==> !w.starMatrix[i] && !w.primeMatrix[i]
    ensures forall c :: 0 <= c < nOfColumns ==> !w.coveredColumns[c]
  {
    var nOfElements := Size(nOfRows, nOfColumns);
    var distMatrix := new real[nOfElements];
    for i := 0 to nOfElements
      invariant distMatrix[..i] == distMatrixIn[..i]
    {
      distMatrix[i] := distMatrixIn[i];
    }
    assert distMatrix[..] == distMatrix[..nOfElements] == distMatrixIn[..nOfElements] == distMatrixIn[..];
    var coveredColumns := new bool[nOfColumns](_ => false);
    var coveredRows := new bool[nOfRows](_ => false);
    var starMatrix := new bool[nOfElements](_ => false);
    var primeMatrix := new bool[nOfElements](_ => false);
    var newStarMatrix := new bool[nOfElements](_ => false);
    var minDim := if nOfRows <= nOfColumns then nOfRows else nOfColumns;
    w := Work(assignment, distMatrix, starMatrix, newStarMatrix, primeMatrix, coveredColumns, coveredRows,
              nOfRows, nOfColumns, minDim);
  }

  /** Munkres' algorithm: an assignment that is as large as can be and near-optimal, and its cost. */
  method AssignmentOptimal(assignment: array<int>, distMatrixIn: array<real>, nOfRows: nat, nOfColumns: nat)
    returns (cost: real)
    requires assignment.Length == nOfRows && distMatrixIn.Length == Size(nOfRows, nOfColumns)
    modifies assignment
    ensures NearOptimal(distMatrixIn[..], nOfRows, nOfColumns, assignment[..])
    ensures cost == Cost(distMatrixIn[..], nOfRows, nOfColumns, assignment[..])
    ensures nOfRows == 1 && nOfColumns > 0 ==> FirstCheapest(distMatrixIn[..], assignment[0])
    ensures nOfColumns == 1 && nOfRows > 1 ==> ChosenFirst(distMatrixIn[..], assignment[..])
  {
    for row := 0 to nOfRows
      invariant forall r :: 0 <= r < row ==> assignment[r] == -1
    {
      assignment[row] := -1;
    }
    ghost var dist := distMatrixIn[..];
    var w := NewWork(assignment, distMatrixIn, nOfRows, nOfColumns);
    ghost var k := Preliminaries(w, dist);
    if nOfRows == 1 && nOfColumns > 0 { AssignedBound(k.rs); }
    if nOfColumns == 1 && nOfRows > 1 {
      AssignedBound(k.cs);
      MatchingCounts(nOfRows, nOfColumns, k.rs, k.cs);
    }
    Step2b(w, dist, k);
    assert distMatrixIn[..] == dist;
    cost := ComputeAssignmentCost(assignment, distMatrixIn, nOfRows, nOfColumns);
  }

  /** The matrices Solve can read: a first row, and every row at least as long. */
  ghost predicate Readable(m: seq<seq<real>>) {
    |m| > 0 && forall i :: 0 <= i < |m| ==> |m[0]| <= |m[i]|
  }

  /** The matrices Solve accepts: at most 10000 each way, entries in [0, 1]. */
  ghost predicate Accepted(m: seq<seq<real>>)
    requires Readable(m)
  {
    && |m| <= 10000 && |m[0]| <= 10000
    && forall i, j :: 0 <= i < |m| && 0 <= j < |m[0]| ==> 0.0 <= m[i][j] <= 1.0
  }

  /** The cost of the pairs that the first k rows make. */
  ghost function PairCost(m: seq<seq<real>>, a: seq<int>, k: nat): real
    requires Readable(m) && k <= |a| == |m| && forall r :: 0 <= r < |a| ==> -1 <= a[r] < |m[0]|
  {
    if k == 0 then 0.0 else PairCost(m, a, k - 1) + (if a[k - 1] < 0 then 0.0 else m[k - 1][a[k - 1]])
  }

  ghost predicate IsFlat(m: seq<seq<real>>, dist: seq<real>)
    requires Readable(m)
  {
    && |dist| == Size(|m|, |m[0]|)
    && forall r: nat, c: nat | r < |m| && c < |m[0]| :: At(dist, |m|, |m[0]|, r, c) == m[r][c]
  }

  lemma {:induction false} PairCostFlat(m: seq<seq<real>>, dist: seq<real>, a: seq<int>, k: nat)
    requires Readable(m) && IsFlat(m, dist)
    requires k <= |a| == |m| && forall r :: 0 <= r < |a| ==> -1 <= a[r] < |m[0]|
    ensures PairCost(m, a, k) == CostUpTo(dist, |m|, |m[0]|, a, k)
  {
    if k > 0 { PairCostFlat(m, dist, a, k - 1); }
  }

  ghost function FirstColumn(m: seq<seq<real>>): (column: seq<real>)
    requires Readable(m) && |m[0]| > 0
    ensures |column| == |m| && forall r :: 0 <= r < |m| ==> column[r] == m[r][0]
  {
    seq(|m|, r requires 0 <= r < |m| => m[r][0])
  }

  /** What Solve promises of an accepted matrix: a largest assignment within the tolerance of the cheapest. */
  ghost predicate Solved(m: seq<seq<real>>, cost: real, a: seq<int>)
    requires Readable(m)
  {
    && IsAssignment(|m|, |m[0]|, a)
    && cost == PairCost(m, a, |m|)
    && (forall b :: IsAssignment(|m|, |m[0]|, b) ==>
          cost <= PairCost(m, b, |m|) + Min(|m|, |m[0]|) as real * DBL_EPSILON)
    && (|m| == 1 && |m[0]| > 0 ==> FirstCheapest(m[0], a[0]))
    && (|m[0]| == 1 && |m| > 1 ==> ChosenFirst(FirstColumn(m), a))
  }

  lemma {:induction false} PairCostNonNegative(m: seq<seq<real>>, a: seq<int>, k: nat)
    requires Readable(m) && Accepted(m)
    requires k <= |a| == |m| && forall r :: 0 <= r < |a| ==> -1 <= a[r] < |m[0]|
    ensures PairCost(m, a, k) >= 0.0
  {
    if k > 0 { PairCostNonNegative(m, a, k - 1); }
  }

  /** What is promised of the flat matrix is promised of the matrix. */
  lemma SolvedFlat(m: seq<seq<real>>, dist: seq<real>, cost: real, a: seq<int>)
    requires Readable(m) && IsFlat(m, dist) && NearOptimal(dist, |m|, |m[0]|, a)
    requires cost == Cost(dist, |m|, |m[0]|, a)
    requires |m| == 1 && |m[0]| > 0 ==> FirstCheapest(dist, a[0])
    requires |m[0]| == 1 && |m| > 1 ==> ChosenFirst(dist, a)
    ensures Solved(m, cost, a)
  {
    PairCostFlat(m, dist, a, |m|);
    forall b | IsAssignment(|m|, |m[0]|, b)
      ensures cost <= PairCost(m, b, |m|) + Min(|m|, |m[0]|) as real * DBL_EPSILON
    {
      PairCostFlat(m, dist, b, |m|);
    }
    if |m| == 1 && |m[0]| > 0 {
      forall c: nat | c < |m[0]| ensures |dist| == |m[0]| && dist[c] == m[0][c] { SingleRowAt(dist, |m[0]|, c); }
      assert dist == m[0];
    }
    if |m[0]| == 1 && |m| > 1 {
      forall r: nat | r < |m| ensures |dist| == |m| && dist[r] == m[r][0] { SingleColumnAt(dist, |m|, r); }
      assert dist == FirstColumn(m);
    }
  }

  method SetEntry(d: array<real>, n: nat, m: nat, row: nat, col: nat, x: real)
    requires d.Length == Size(n, m) && row < n && col < m
    modifies d
    ensures forall r: nat, c: nat | r < n && c < m ::
              At(d[..], n, m, r, c) == if r == row && c == col then x else At(old(d[..]), n, m, r, c)
  {
    ghost var before := d[..];
    var i := Idx(n, row, col);
    AtUpdate(before, n, m, row, col, i, x);
    d[i] := x;
    assert d[..] == before[i := x];
  }

  /** Lay the matrix out column by column. */
  method Flatten(distMatrix: seq<seq<real>>) returns (distMatrixIn: array<real>)
    requires Readable(distMatrix)
    ensures fresh(distMatrixIn) && IsFlat(distMatrix, distMatrixIn[..])
  {
    var nRows, nCols := |distMatrix|, |distMatrix[0]|;
    distMatrixIn := new real[Size(nRows, nCols)];
    for i := 0 to nRows
      invariant forall r: nat, c: nat | r < i && c < nCols ::
                  At(distMatrixIn[..], nRows, nCols, r, c) == distMatrix[r][c]
    {
      for j := 0 to nCols
        invariant forall r: nat, c: nat | c < nCols && (r < i || (r == i && c < j)) ::
                    At(distMatrixIn[..], nRows, nCols, r, c) == distMatrix[r][c]
      {
        SetEntry(distMatrixIn, nRows, nCols, i, j, distMatrix[i][j]);
      }
    }
  }

  /** Are all entries in [0, 1]? The source looks for the first that is not. */
  method InRange(distMatrix: seq<seq<real>>) returns (ok: bool)
    requires Readable(distMatrix)
    ensures ok <==> forall i, j :: 0 <= i < |distMatrix| && 0 <= j < |distMatrix[0]| ==> 0.0 <= distMatrix[i][j] <= 1.0
  {
    for i := 0 to |distMatrix|
      invariant forall r, c :: 0 <= r < i && 0 <= c < |distMatrix[0]| ==> 0.0 <= distMatrix[r][c] <= 1.0
    {
      for j := 0 to |distMatrix[0]|
        invariant forall c :: 0 <= c < j ==> 0.0 <= distMatrix[i][c] <= 1.0
      {
        if distMatrix[i][j] < 0.0 || distMatrix[i][j] > 1.0 {
          return false;
        }
      }
    }
    return true;
  }

  /** Solve the assignment problem, or report -1 and no assignment for a matrix that is not accepted. */
  method Solve(distMatrix: seq<seq<real>>) returns (cost: real, assignmentOut: seq<int>)
    requires Readable(distMatrix)
    ensures Accepted(distMatrix) ==> Solved(distMatrix, cost, assignmentOut) && cost >= 0.0
    ensures Accepted(distMatrix) ==>
              forall b :: IsAssignment(|distMatrix|, |distMatrix[0]|, b) ==>
                cost <= PairCost(distMatrix, b, |distMatrix|) + 3.0 / 1000000000000.0
    ensures !Accepted(distMatrix) ==> cost == -1.0 && assignmentOut == []
  {
    var nRows, nCols := |distMatrix|, |distMatrix[0]|;
    if nRows > 10000 || nCols > 10000 {
      return -1.0, [];
    }
    var ok := InRange(distMatrix);
    if !ok {
      return -1.0, [];
    }
    var distMatrixIn := Flatten(distMatrix);
    var assignment := new int[nRows];
    cost := AssignmentOptimal(assignment, distMatrixIn, nRows, nCols);
    SolvedFlat(distMatrix, distMatrixIn[..], cost, assignment[..]);
    PairCostNonNegative(distMatrix, assignment[..], nRows);
    assignmentOut := [];
    for r := 0 to nRows
      invariant assignmentOut == assignment[..r]
    {
      assignmentOut := assignmentOut + [assignment[r]];
    }
    assert assignment[..nRows] == assignment[..];
    SolvedTightly(distMatrix, cost, assignmentOut);
  }

  /** On a matrix that is accepted the tolerance adds up to less than three in the twelfth decimal place. */
  lemma SolvedTightly(m: seq<seq<real>>, cost: real, a: seq<int>)
    requires Readable(m) && Accepted(m) && Solved(m, cost, a)
    ensures forall b :: IsAssignment(|m|, |m[0]|, b) ==> cost <= PairCost(m, b, |m|) + 3.0 / 1000000000000.0
  {
    assert Min(|m|, |m[0]|) as real * DBL_EPSILON <= 3.0 / 1000000000000.0;
    hide PairCost, IsAssignment;
  }

  /** All entries are whole multiples of the unit. */
  ghost predicate OnUnitGrid(m: seq<seq<real>>, unit: real)
    requires Readable(m)
  {
    forall r, c :: 0 <= r < |m| && 0 <= c < |m[0]| ==> Multiple(m[r][c], unit)
  }

  lemma {:induction false} PairCostOnGrid(m: seq<seq<real>>, a: seq<int>, k: nat, unit: real)
    requires Readable(m) && OnUnitGrid(m, unit)
    requires k <= |a| == |m| && forall r :: 0 <= r < |a| ==> -1 <= a[r] < |m[0]|
    ensures Multiple(PairCost(m, a, k), unit)
  {
    if k == 0 {
      assert 0.0 == Times(0, unit);
    } else {
      PairCostOnGrid(m, a, k - 1, unit);
      if a[k - 1] >= 0 { MultipleSum(PairCost(m, a, k - 1), m[k - 1][a[k - 1]], unit); }
    }
  }

  /** On costs with a unit coarser than the total tolerance, no assignment at all is cheaper. */
  lemma SolvedExactlyOnGrid(m: seq<seq<real>>, cost: real, a: seq<int>, unit: real)
    requires Readable(m) && Solved(m, cost, a)
    requires OnUnitGrid(m, unit) && Min(|m|, |m[0]|) as real * DBL_EPSILON < unit
    ensures forall b :: IsAssignment(|m|, |m[0]|, b) ==> cost <= PairCost(m, b, |m|)
  {
    forall b | IsAssignment(|m|, |m[0]|, b) ensures cost <= PairCost(m, b, |m|) {
      PairCostOnGrid(m, a, |m|, unit);
      PairCostOnGrid(m, b, |m|, unit);
      GridGap(cost, PairCost(m, b, |m|), unit, Min(|m|, |m[0]|) as real * DBL_EPSILON);
    }
  }

  /** Column c holds the least entry and no other value within the tolerance comes before it. */
  ghost predicate LeastComesFirst(row: seq<real>, least: real, c: int) {
    && 0 <= c < |row| && row[c] == least
    && forall c' :: 0 <= c' < c ==> row[c'] == least || row[c'] >= least + DBL_EPSILON
  }

  /** With one row the answer is the cheapest exactly when no dearer entry within the tolerance comes first. */
  lemma SingleRowExactness(m: seq<seq<real>>, cost: real, a: seq<int>, least: real)
    requires Readable(m) && |m| == 1 && Solved(m, cost, a) && IsLeast(m[0], least)
    ensures cost == least <==> exists c :: LeastComesFirst(m[0], least, c)
  {
    AssignedBound(a);
    assert PairCost(m, a, 1) == PairCost(m, a, 0) + m[0][a[0]];
    if cost == least {
      assert LeastComesFirst(m[0], least, a[0]);
    }
    if c :| LeastComesFirst(m[0], least, c) {
      assert a[0] <= c;
    }
  }

  lemma {:induction false} PairCostOne(m: seq<seq<real>>, a: seq<int>, r: nat, k: nat)
    requires Readable(m) && |m[0]| == 1 && |a| == |m| && r < |a| && k <= |a|
    requires forall i :: 0 <= i < |a| ==> a[i] == if i == r then 0 else -1
    ensures PairCost(m, a, k) == if r < k then m[r][0] else 0.0
  {
    if k > 0 { PairCostOne(m, a, r, k - 1); }
  }

  /** The same with one column: the answer is the cheapest exactly when no dearer entry within the tolerance comes first. */
  lemma SingleColumnExactness(m: seq<seq<real>>, cost: real, a: seq<int>, least: real)
    requires Readable(m) && |m| > 1 && |m[0]| == 1 && Solved(m, cost, a) && IsLeast(FirstColumn(m), least)
    ensures cost == least <==> exists r :: LeastComesFirst(FirstColumn(m), least, r)
  {
    var r := OnlyRow(a);
    PairCostOne(m, a, r, |a|);
    var column := FirstColumn(m);
    assert FirstCheapest(column, r);
    if cost == least {
      assert LeastComesFirst(column, least, r);
    }
    if r' :| LeastComesFirst(column, least, r') {
      assert r <= r';
    }
  }

  /** With one column exactly one row is given it. */
  lemma {:induction false} OnlyRow(a: seq<int>) returns (r: nat)
    requires PartialInjective(a, 1) && Assigned(a) > 0
    ensures r < |a| && forall i :: 0 <= i < |a| ==> a[i] == if i == r then 0 else -1
  {
    if a[|a| - 1] >= 0 {
      r := |a| - 1;
      assert a[r] == 0;
    } else {
      r := OnlyRow(a[..|a| - 1]);
    }
  }

  /** An input on which the tolerance costs: half of it against nothing. */
  lemma ToleranceCanCost(cost: real, a: seq<int>)
    requires Solved([[DBL_EPSILON / 2.0, 0.0]], cost, a)
    ensures a == [0] && cost > PairCost([[DBL_EPSILON / 2.0, 0.0]], [1], 1) && IsAssignment(1, 2, [1])
  {
    var m := [[DBL_EPSILON / 2.0, 0.0]];
    assert m[0][1] == 0.0;
    assert IsLeast(m[0], 0.0);
    assert m[0][0] < 0.0 + DBL_EPSILON;
    assert a[0] == 0;
    assert PairCost(m, a, 1) == PairCost(m, a, 0) + m[0][0];
    assert PairCost(m, [1], 1) == PairCost(m, [1], 0) + m[0][1];
    assert Assigned([1]) == Assigned([1][..0]) + 1;
  }
}
