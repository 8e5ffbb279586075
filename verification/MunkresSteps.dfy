/**
 The steps of the assignment solver of tmp/tracker_sort/hungarian.cpp: Munkres' algorithm on flat
 column-major buffers, each step calling the next until the stars form a full matching.
 */
module MunkresSteps {
  import opened Sums
  import opened FlatMatrix
  import opened Assignments
  import opened MunkresState
  import opened AlternatingPath

  /** The buffers that the steps hand on to each other. */
  datatype Work = Work(
    assignment: array<int>,
    distMatrix: array<real>,
    starMatrix: array<bool>,
    newStarMatrix: array<bool>,
    primeMatrix: array<bool>,
    coveredColumns: array<bool>,
    coveredRows: array<bool>,
    nOfRows: nat,
    nOfColumns: nat,
    minDim: nat)
  {
    /** Buffer lengths, and no buffer standing for two. */
    ghost predicate Shaped() {
      && assignment.Length == coveredRows.Length == nOfRows
      && coveredColumns.Length == nOfColumns
      && distMatrix.Length == Size(nOfRows, nOfColumns)
      && starMatrix.Length == newStarMatrix.Length == primeMatrix.Length == Size(nOfRows, nOfColumns)
      && minDim == Min(nOfRows, nOfColumns)
      && starMatrix != newStarMatrix && starMatrix != primeMatrix && newStarMatrix != primeMatrix
      && coveredColumns != coveredRows
      && coveredColumns !in {starMatrix, newStarMatrix, primeMatrix}
      && coveredRows !in {starMatrix, newStarMatrix, primeMatrix}
    }

    ghost function Buffers(): set<object> {
      {assignment as object, distMatrix as object, starMatrix, newStarMatrix, primeMatrix, coveredColumns, coveredRows}
    }

    /** What every step can rely on: the invariant, the stars as marks, and nothing assigned yet. */
    ghost predicate Holds(dist: seq<real>, k: Cert)
      reads Buffers()
    {
      && Shaped()
      && Core(dist, nOfRows, nOfColumns, distMatrix[..], k)
      && Marks(nOfRows, nOfColumns, starMatrix[..], k.rs)
      && forall r :: 0 <= r < nOfRows ==> assignment[r] == -1
    }

    /** What steps 3 and 5 rely on besides: covers and primes are in order and stars are missing. */
    ghost predicate Searching(dist: seq<real>, k: Cert)
      reads Buffers()
    {
      && Holds(dist, k)
      && Covered(nOfRows, nOfColumns, distMatrix[..], coveredRows[..], coveredColumns[..], k)
      && Marks(nOfRows, nOfColumns, primeMatrix[..], k.ps)
      && Assigned(k.rs) < minDim
    }

    /** A zero was primed in row r, which has no star: the state in which step 4 is entered. */
    ghost predicate Stuck(dist: seq<real>, k: Cert, r: nat, c: nat)
      reads Buffers()
    {
      && Holds(dist, k)
      && Covered(nOfRows, nOfColumns, distMatrix[..], coveredRows[..], coveredColumns[..], k)
      && Exposed(r, c) && k.rs[r] < 0 && Assigned(k.rs) < minDim
      && Marks(nOfRows, nOfColumns, primeMatrix[..], k.ps[r := c])
    }

    ghost predicate Exposed(r: nat, c: nat)
      reads Buffers()
    {
      Shaped() && UncoveredZero(nOfRows, nOfColumns, distMatrix[..], coveredRows[..], coveredColumns[..], r, c)
    }

    ghost predicate SomeExposed()
      reads Buffers()
    {
      Shaped() && SomeUncoveredZero(nOfRows, nOfColumns, distMatrix[..], coveredRows[..], coveredColumns[..])
    }
  }

  /** The first marked column of a row, or the number of columns. */
  method FirstMarkInRow(s: array<bool>, n: nat, m: nat, row: nat, ghost f: seq<int>) returns (col: nat)
    requires row < n && Marks(n, m, s[..], f)
    ensures col == if f[row] < 0 then m else f[row]
  {
    col := 0;
    while col < m
      invariant col <= m
      invariant !(0 <= f[row] < col)
    {
      IdxBound(n, m, row, col);
      assert s[Idx(n, row, col)] == At(s[..], n, m, row, col);
      if s[Idx(n, row, col)] { break; }
      col := col + 1;
    }
  }

  /** The first marked row of a column, or the number of rows. */
  method FirstMarkInColumn(s: array<bool>, n: nat, m: nat, col: nat, ghost rs: seq<int>, ghost cs: seq<int>)
    returns (row: nat)
    requires col < m && Marks(n, m, s[..], rs) && Matching(n, m, rs, cs)
    ensures row == if cs[col] < 0 then n else cs[col]
  {
    row := 0;
    while row < n
      invariant row <= n
      invariant !(0 <= cs[col] < row)
    {
      IdxBound(n, m, row, col);
      assert s[Idx(n, row, col)] == At(s[..], n, m, row, col);
      if s[Idx(n, row, col)] { break; }
      row := row + 1;
    }
  }

  method BuildAssignmentVector(assignment: array<int>, starMatrix: array<bool>, nOfRows: nat, nOfColumns: nat,
                               ghost rs: seq<int>)
    requires assignment.Length == nOfRows && Marks(nOfRows, nOfColumns, starMatrix[..], rs)
    requires forall r :: 0 <= r < nOfRows ==> assignment[r] == -1
    modifies assignment
    ensures assignment[..] == rs
  {
    for row := 0 to nOfRows
      invariant forall r :: 0 <= r < nOfRows ==> assignment[r] == if r < row then rs[r] else -1
    {
      var col := FirstMarkInRow(starMatrix, nOfRows, nOfColumns, row, rs);
      if col < nOfColumns {
        assignment[row] := col;
      }
    }
  }

  method ComputeAssignmentCost(assignment: array<int>, distMatrix: array<real>, nOfRows: nat, ghost nOfColumns: nat)
    returns (cost: real)
    requires assignment.Length == nOfRows && distMatrix.Length == Size(nOfRows, nOfColumns)
    requires forall r :: 0 <= r < nOfRows ==> -1 <= assignment[r] < nOfColumns
    ensures cost == CostUpTo(distMatrix[..], nOfRows, nOfColumns, assignment[..], nOfRows)
  {
    cost := 0.0;
    for row := 0 to nOfRows
      invariant cost == CostUpTo(distMatrix[..], nOfRows, nOfColumns, assignment[..], row)
    {
      var col := assignment[row];
      if col >= 0 {
        IdxBound(nOfRows, nOfColumns, row, col);
        cost := cost + distMatrix[Idx(nOfRows, row, col)];
      }
    }
  }

  /** Cover every column containing a star. */
  method Step2a(w: Work, ghost dist: seq<real>, ghost k: Cert)
    requires w.Holds(dist, k)
    requires Unmarked(w.nOfRows, w.nOfColumns, w.primeMatrix[..])
    requires forall r :: 0 <= r < w.nOfRows ==> !w.coveredRows[r]
    requires forall c :: 0 <= c < w.nOfColumns && w.coveredColumns[c] ==> k.cs[c] >= 0
    modifies w.Buffers()
    ensures NearOptimal(dist, w.nOfRows, w.nOfColumns, w.assignment[..])
    decreases w.minDim - Assigned(k.rs), w.nOfRows + 1, 0, 1
  {
    for col := 0 to w.nOfColumns
      invariant w.Holds(dist, k)
      invariant Unmarked(w.nOfRows, w.nOfColumns, w.primeMatrix[..])
      invariant forall r :: 0 <= r < w.nOfRows ==> !w.coveredRows[r]
      invariant forall c :: 0 <= c < w.nOfColumns && w.coveredColumns[c] ==> k.cs[c] >= 0
      invariant forall c :: 0 <= c < col && k.cs[c] >= 0 ==> w.coveredColumns[c]
    {
      var row := FirstMarkInColumn(w.starMatrix, w.nOfRows, w.nOfColumns, col, k.rs, k.cs);
      if row < w.nOfRows {
        w.coveredColumns[col] := true;
      }
    }
    Step2b(w, dist, k);
  }

  /** Finish when as many columns are covered as the shorter side is long. */
  method Step2b(w: Work, ghost dist: seq<real>, ghost k: Cert)
    requires w.Holds(dist, k)
    requires Fresh(w.nOfRows, w.nOfColumns, w.coveredRows[..], w.coveredColumns[..], w.primeMatrix[..], k)
    modifies w.Buffers()
    ensures NearOptimal(dist, w.nOfRows, w.nOfColumns, w.assignment[..])
    ensures Assigned(k.rs) == w.minDim ==> w.assignment[..] == k.rs
    decreases w.minDim - Assigned(k.rs), w.nOfRows + 1, 0, 0
  {
    var nOfCoveredColumns := 0;
    for col := 0 to w.nOfColumns
      invariant nOfCoveredColumns == CountTrue(w.coveredColumns[..col])
    {
      assert w.coveredColumns[..col + 1][..col] == w.coveredColumns[..col];
      if w.coveredColumns[col] {
        nOfCoveredColumns := nOfCoveredColumns + 1;
      }
    }
    assert w.coveredColumns[..w.nOfColumns] == w.coveredColumns[..];
    AssignedIsCount(k.cs, w.coveredColumns[..]);
    MatchingCounts(w.nOfRows, w.nOfColumns, k.rs, k.cs);
    if nOfCoveredColumns == w.minDim {
      FullIsNearOptimal(dist, w.nOfRows, w.nOfColumns, w.distMatrix[..], k);
      BuildAssignmentVector(w.assignment, w.starMatrix, w.nOfRows, w.nOfColumns, k.rs);
    } else {
      FreshCovered(dist, w.nOfRows, w.nOfColumns, w.distMatrix[..], w.coveredRows[..], w.coveredColumns[..],
                   w.primeMatrix[..], k);
      CountTrueBound(w.coveredRows[..]);
      Step3(w, dist, ClearPrimes(k), false);
    }
  }

  /** The first uncovered row whose entry in the column is zero, or the number of rows. */
  method UncoveredZeroInColumn(w: Work, col: nat) returns (row: nat)
    requires w.Shaped() && col < w.nOfColumns && !w.coveredColumns[col]
    ensures row <= w.nOfRows
    ensures row < w.nOfRows ==> w.Exposed(row, col)
    ensures forall r: nat :: r < row ==> !UncoveredZero(w.nOfRows, w.nOfColumns, w.distMatrix[..], w.coveredRows[..],
                                                        w.coveredColumns[..], r, col)
  {
    ghost var d, covR, covC := w.distMatrix[..], w.coveredRows[..], w.coveredColumns[..];
    row := 0;
    while row < w.nOfRows
      invariant row <= w.nOfRows
      invariant forall r: nat :: r < row ==> !UncoveredZero(w.nOfRows, w.nOfColumns, d, covR, covC, r, col)
    {
      IdxBound(w.nOfRows, w.nOfColumns, row, col);
      assert w.distMatrix[Idx(w.nOfRows, row, col)] == At(w.distMatrix[..], w.nOfRows, w.nOfColumns, row, col);
      if !w.coveredRows[row] && IsZero(w.distMatrix[Idx(w.nOfRows, row, col)]) { break; }
      row := row + 1;
    }
  }

  /** Prime a zero: the mark is the only one of its row. */
  method MarkPrime(w: Work, row: nat, col: nat, ghost ps: seq<int>)
    requires w.Shaped() && row < w.nOfRows && col < w.nOfColumns
    requires Marks(w.nOfRows, w.nOfColumns, w.primeMatrix[..], ps) && ps[row] < 0
    modifies w.primeMatrix
    ensures Marks(w.nOfRows, w.nOfColumns, w.primeMatrix[..], ps[row := col])
  {
    ghost var before := w.primeMatrix[..];
    var i := Idx(w.nOfRows, row, col);
    AtUpdate(before, w.nOfRows, w.nOfColumns, row, col, i, true);
    w.primeMatrix[i] := true;
    assert w.primeMatrix[..] == before[i := true];
  }

  /** Cover a primed row in place of its star's column. */
  method CoverRow(w: Work, ghost dist: seq<real>, ghost k: Cert, row: nat, ghost col: nat, starCol: nat)
    requires w.Holds(dist, k) && Assigned(k.rs) < w.minDim
    requires Covered(w.nOfRows, w.nOfColumns, w.distMatrix[..], w.coveredRows[..], w.coveredColumns[..], k)
    requires w.Exposed(row, col) && starCol < w.nOfColumns && k.rs[row] == starCol
    requires Marks(w.nOfRows, w.nOfColumns, w.primeMatrix[..], k.ps[row := col])
    modifies w.coveredRows, w.coveredColumns
    ensures w.Searching(dist, PrimeRow(k, row, col))
    ensures CountTrue(w.coveredRows[..]) == CountTrue(old(w.coveredRows[..])) + 1
  {
    ghost var covR, covC := w.coveredRows[..], w.coveredColumns[..];
    PrimeKeepsCovered(w.nOfRows, w.nOfColumns, w.distMatrix[..], covR, covC, k, row, col);
    CountTrueUpdate(covR, row, true);
    w.coveredRows[row] := true;
    w.coveredColumns[starCol] := false;
    assert w.coveredRows[..] == covR[row := true];
    assert w.coveredColumns[..] == covC[starCol := false];
  }

  /** Prime the first uncovered zero of a column, if it has one; it may have no star in its row. */
  method PrimeInColumn(w: Work, ghost dist: seq<real>, ghost k0: Cert, col: nat)
    returns (found: bool, stuck: bool, row: nat, ghost k: Cert)
    requires w.Searching(dist, k0) && col < w.nOfColumns && !w.coveredColumns[col]
    modifies w.primeMatrix, w.coveredColumns, w.coveredRows
    ensures k.rs == k0.rs && (stuck ==> found)
    ensures if stuck then w.Stuck(dist, k, row, col) else w.Searching(dist, k)
    ensures found && !stuck ==> CountTrue(w.coveredRows[..]) == CountTrue(old(w.coveredRows[..])) + 1
    ensures !found ==> w.coveredRows[..] == old(w.coveredRows[..]) && w.coveredColumns[..] == old(w.coveredColumns[..])
    ensures !found ==> forall r: nat :: !UncoveredZero(w.nOfRows, w.nOfColumns, w.distMatrix[..], w.coveredRows[..],
                                                        w.coveredColumns[..], r, col)
  {
    hide Core;
    found, stuck, k := false, false, k0;
    row := UncoveredZeroInColumn(w, col);
    if row < w.nOfRows {
      found := true;
      MarkPrime(w, row, col, k.ps);
      var starCol := FirstMarkInRow(w.starMatrix, w.nOfRows, w.nOfColumns, row, k.rs);
      if starCol == w.nOfColumns {
        stuck := true;
      } else {
        CoverRow(w, dist, k, row, col, starCol);
        k := PrimeRow(k, row, col);
      }
    }
  }

  /** One pass over the columns, until a zero has no star in its row. */
  method PrimePass(w: Work, ghost dist: seq<real>, ghost k0: Cert)
    returns (zerosFound: bool, stuck: bool, row: nat, col: nat, ghost k: Cert)
    requires w.Searching(dist, k0)
    modifies w.primeMatrix, w.coveredColumns, w.coveredRows
    ensures k.rs == k0.rs
    ensures if stuck then w.Stuck(dist, k, row, col) else w.Searching(dist, k)
    ensures !stuck && zerosFound ==> CountTrue(w.coveredRows[..]) > CountTrue(old(w.coveredRows[..]))
    ensures !stuck && !zerosFound ==> !old(w.SomeExposed()) && !w.SomeExposed()
    ensures !stuck && !zerosFound ==> w.coveredRows[..] == old(w.coveredRows[..])
  {
    hide Core, Covered, Marks;
    zerosFound, stuck, row, col, k := false, false, 0, 0, k0;
    ghost var n, m, d, covR, covC := w.nOfRows, w.nOfColumns, w.distMatrix[..], w.coveredRows[..], w.coveredColumns[..];
    while col < w.nOfColumns
      invariant col <= m
      invariant w.Searching(dist, k) && k.rs == k0.rs && w.distMatrix[..] == d
      invariant zerosFound ==> CountTrue(w.coveredRows[..]) > CountTrue(covR)
      invariant !zerosFound ==> w.coveredRows[..] == covR && w.coveredColumns[..] == covC
      invariant !zerosFound ==> forall r: nat, c: nat :: c < col ==> !UncoveredZero(n, m, d, covR, covC, r, c)
    {
      if !w.coveredColumns[col] {
        var found;
        found, stuck, row, k := PrimeInColumn(w, dist, k, col);
        if stuck { return; }
        zerosFound := zerosFound || found;
      }
      col := col + 1;
    }
  }

  /**
   Prime uncovered zeros, covering their rows in place of their stars' columns, until one has no star
   in its row (step 4) or none is left (step 5). `hot` promises that there is one to begin with.
   */
  method Step3(w: Work, ghost dist: seq<real>, ghost k0: Cert, ghost hot: bool)
    requires w.Searching(dist, k0)
    requires hot ==> w.SomeExposed()
    modifies w.Buffers()
    ensures NearOptimal(dist, w.nOfRows, w.nOfColumns, w.assignment[..])
    decreases w.minDim - Assigned(k0.rs), w.nOfRows - CountTrue(w.coveredRows[..]), if hot then 0 else 1, 1
  {
    ghost var k := k0;
    CountTrueBound(w.coveredRows[..]);
    var zerosFound, stuck, row, col := true, false, 0, 0;
    while zerosFound && !stuck
      invariant k.rs == k0.rs
      invariant stuck ==> w.Stuck(dist, k, row, col)
      invariant !stuck ==> w.Searching(dist, k)
      invariant !stuck ==> CountTrue(old(w.coveredRows[..])) <= CountTrue(w.coveredRows[..]) <= w.nOfRows
      invariant !stuck && zerosFound && CountTrue(w.coveredRows[..]) == CountTrue(old(w.coveredRows[..])) ==>
                  hot ==> w.SomeExposed()
      invariant !stuck && !zerosFound ==> !w.SomeExposed()
      invariant !stuck && !zerosFound && hot ==> CountTrue(w.coveredRows[..]) > CountTrue(old(w.coveredRows[..]))
      decreases !stuck, w.nOfRows - CountTrue(w.coveredRows[..]), zerosFound
      modifies w.primeMatrix, w.coveredColumns, w.coveredRows
    {
      zerosFound, stuck, row, col, k := PrimePass(w, dist, k);
      CountTrueBound(w.coveredRows[..]);
    }
    if stuck {
      Step4(w, dist, k, row, col);
    } else {
      Step5(w, dist, k);
    }
  }

  /** Lower h to the least uncovered entry of an uncovered row; `from` is its column if h was lowered. */
  method LowerToRow(w: Work, row: nat, h0: real, found0: bool) returns (h: real, found: bool, ghost from: int)
    requires w.Shaped() && row < w.nOfRows
    ensures -1 <= from < w.nOfColumns && (found0 ==> found && h <= h0)
    ensures found && from < 0 ==> found0 && h == h0
    ensures from >= 0 ==> !w.coveredColumns[from] && h == At(w.distMatrix[..], w.nOfRows, w.nOfColumns, row, from)
    ensures forall c: nat | c < w.nOfColumns && !w.coveredColumns[c] ::
              found && At(w.distMatrix[..], w.nOfRows, w.nOfColumns, row, c) >= h
  {
    h, found, from := h0, found0, -1;
    for col := 0 to w.nOfColumns
      invariant -1 <= from < w.nOfColumns && (found0 ==> found && h <= h0)
      invariant found && from < 0 ==> found0 && h == h0
      invariant from >= 0 ==> !w.coveredColumns[from] && h == At(w.distMatrix[..], w.nOfRows, w.nOfColumns, row, from)
      invariant forall c: nat | c < col && !w.coveredColumns[c] ::
                  found && At(w.distMatrix[..], w.nOfRows, w.nOfColumns, row, c) >= h
    {
      if !w.coveredColumns[col] {
        IdxBound(w.nOfRows, w.nOfColumns, row, col);
        var value := w.distMatrix[Idx(w.nOfRows, row, col)];
        assert value == At(w.distMatrix[..], w.nOfRows, w.nOfColumns, row, col);
        if !found || value < h {
          found, h, from := true, value, col;
        }
      }
    }
  }

  /** Find the least uncovered entry, if any entry is uncovered. */
  method ScanUncovered(w: Work) returns (h: real, found: bool, ghost r0: nat, ghost c0: nat)
    requires w.Shaped()
    ensures found ==> r0 < w.nOfRows && c0 < w.nOfColumns && !w.coveredRows[r0] && !w.coveredColumns[c0]
    ensures found ==> h == At(w.distMatrix[..], w.nOfRows, w.nOfColumns, r0, c0)
    ensures LowerBound(w.nOfRows, w.nOfColumns, w.distMatrix[..], w.coveredRows[..], w.coveredColumns[..], w.nOfRows, h, found)
  {
    ghost var n, m, d, covR, covC := w.nOfRows, w.nOfColumns, w.distMatrix[..], w.coveredRows[..], w.coveredColumns[..];
    h, found, r0, c0 := 0.0, false, 0, 0;  // before anything is found the source holds DBL_MAX, above every entry
    for row := 0 to w.nOfRows
      invariant found ==> r0 < n && c0 < m && !covR[r0] && !covC[c0] && h == At(d, n, m, r0, c0)
      invariant LowerBound(n, m, d, covR, covC, row, h, found)
    {
      if !w.coveredRows[row] {
        ghost var from;
        h, found, from := LowerToRow(w, row, h, found);
        if from >= 0 { r0, c0 := row, from; }
      }
    }
  }

  /** While stars are missing there is a least uncovered entry. */
  method LeastUncovered(w: Work, ghost dist: seq<real>, ghost k: Cert) returns (h: real, ghost r0: nat, ghost c0: nat)
    requires w.Searching(dist, k)
    ensures r0 < w.nOfRows && c0 < w.nOfColumns && !w.coveredRows[r0] && !w.coveredColumns[c0]
    ensures h == At(w.distMatrix[..], w.nOfRows, w.nOfColumns, r0, c0)
    ensures LowerBound(w.nOfRows, w.nOfColumns, w.distMatrix[..], w.coveredRows[..], w.coveredColumns[..], w.nOfRows, h, true)
  {
    var found;
    h, found, r0, c0 := ScanUncovered(w);
    ghost var n, m, d, covR, covC := w.nOfRows, w.nOfColumns, w.distMatrix[..], w.coveredRows[..], w.coveredColumns[..];
    ghost var r, c := SomeUncovered(n, m, d, covR, covC, k);
    assert At(d, n, m, r, c) >= h;
  }

  method AddToEntry(d: array<real>, n: nat, m: nat, row: nat, col: nat, x: real)
    requires d.Length == Size(n, m) && row < n && col < m
    modifies d
    ensures forall r: nat, c: nat | r < n && c < m ::
              At(d[..], n, m, r, c) == At(old(d[..]), n, m, r, c) + if r == row && c == col then x else 0.0
  {
    ghost var before := d[..];
    var i := Idx(n, row, col);
    AtUpdate(before, n, m, row, col, i, At(before, n, m, row, col) + x);
    d[i] := d[i] + x;
    assert d[..] == before[i := At(before, n, m, row, col) + x];
  }

  /** Add h to each covered row. */
  method AddToCoveredRows(w: Work, h: real)
    requires w.Shaped()
    modifies w.distMatrix
    ensures forall r: nat, c: nat | r < w.nOfRows && c < w.nOfColumns ::
              At(w.distMatrix[..], w.nOfRows, w.nOfColumns, r, c)
              == At(old(w.distMatrix[..]), w.nOfRows, w.nOfColumns, r, c) + if w.coveredRows[r] then h else 0.0
  {
    ghost var d0 := w.distMatrix[..];
    for row := 0 to w.nOfRows
      invariant forall r: nat, c: nat | r < w.nOfRows && c < w.nOfColumns ::
                  At(w.distMatrix[..], w.nOfRows, w.nOfColumns, r, c)
                  == At(d0, w.nOfRows, w.nOfColumns, r, c) + if r < row && w.coveredRows[r] then h else 0.0
    {
      if w.coveredRows[row] {
        for col := 0 to w.nOfColumns
          invariant forall r: nat, c: nat | r < w.nOfRows && c < w.nOfColumns ::
                      At(w.distMatrix[..], w.nOfRows, w.nOfColumns, r, c)
                      == At(d0, w.nOfRows, w.nOfColumns, r, c)
                         + if (r < row && w.coveredRows[r]) || (r == row && c < col) then h else 0.0
        {
          AddToEntry(w.distMatrix, w.nOfRows, w.nOfColumns, row, col, h);
        }
      }
    }
  }

  /** Subtract h from each uncovered column. */
  method SubtractFromUncoveredColumns(w: Work, h: real)
    requires w.Shaped()
    modifies w.distMatrix
    ensures forall r: nat, c: nat | r < w.nOfRows && c < w.nOfColumns ::
              At(w.distMatrix[..], w.nOfRows, w.nOfColumns, r, c)
              == At(old(w.distMatrix[..]), w.nOfRows, w.nOfColumns, r, c) - if w.coveredColumns[c] then 0.0 else h
  {
    ghost var d0 := w.distMatrix[..];
    for col := 0 to w.nOfColumns
      invariant forall r: nat, c: nat | r < w.nOfRows && c < w.nOfColumns ::
                  At(w.distMatrix[..], w.nOfRows, w.nOfColumns, r, c)
                  == At(d0, w.nOfRows, w.nOfColumns, r, c) - if c < col && !w.coveredColumns[c] then h else 0.0
    {
      if !w.coveredColumns[col] {
        for row := 0 to w.nOfRows
          invariant forall r: nat, c: nat | r < w.nOfRows && c < w.nOfColumns ::
                      At(w.distMatrix[..], w.nOfRows, w.nOfColumns, r, c)
                      == At(d0, w.nOfRows, w.nOfColumns, r, c)
                         - if (c < col && !w.coveredColumns[c]) || (c == col && r < row) then h else 0.0
        {
          AddToEntry(w.distMatrix, w.nOfRows, w.nOfColumns, row, col, -h);
        }
      }
    }
  }

  /** Shift the potentials by the least uncovered entry, which becomes an uncovered zero. */
  method Step5(w: Work, ghost dist: seq<real>, ghost k: Cert)
    requires w.Searching(dist, k)
    requires !w.SomeExposed()
    modifies w.Buffers()
    ensures NearOptimal(dist, w.nOfRows, w.nOfColumns, w.assignment[..])
    decreases w.minDim - Assigned(k.rs), w.nOfRows - CountTrue(w.coveredRows[..]), 1, 0
  {
    var h; ghost var r0, c0;
    h, r0, c0 := LeastUncovered(w, dist, k);
    ghost var d := w.distMatrix[..];
    assert At(d, w.nOfRows, w.nOfColumns, r0, c0) >= 0.0;
    AddToCoveredRows(w, h);
    SubtractFromUncoveredColumns(w, h);
    assert Shifted(w.nOfRows, w.nOfColumns, d, w.distMatrix[..], w.coveredRows[..], w.coveredColumns[..], h);
    ShiftKeeps(dist, w.nOfRows, w.nOfColumns, d, w.distMatrix[..], w.coveredRows[..], w.coveredColumns[..], k, h);
    assert w.Exposed(r0, c0);
    CountTrueBound(w.coveredRows[..]);
    Step3(w, dist, ShiftDuals(w.nOfRows, w.nOfColumns, k, w.coveredRows[..], w.coveredColumns[..], h), true);
  }

  method MoveStar(newStar: array<bool>, n: nat, m: nat, row: nat, ghost rs: seq<int>, col: nat, on: bool)
    requires row < n && col < m && Marks(n, m, newStar[..], rs)
    requires if on then rs[row] < 0 else rs[row] == col
    modifies newStar
    ensures Marks(n, m, newStar[..], rs[row := if on then col else -1])
  {
    ghost var before := newStar[..];
    var i := Idx(n, row, col);
    AtUpdate(before, n, m, row, col, i, on);
    newStar[i] := on;
    assert newStar[..] == before[i := on];
  }

  method CopyMarks(to: array<bool>, from: array<bool>)
    requires to.Length == from.Length && to != from
    modifies to
    ensures to[..] == from[..]
  {
    for i := 0 to from.Length
      invariant to[..i] == from[..i]
    {
      to[i] := from[i];
    }
    assert from[..from.Length] == from[..] && to[..to.Length] == to[..];
  }

  method ClearMarks(marks: array<bool>)
    modifies marks
    ensures forall i :: 0 <= i < marks.Length ==> !marks[i]
  {
    for i := 0 to marks.Length
      invariant forall j :: 0 <= j < i ==> !marks[j]
    {
      marks[i] := false;
    }
  }

  /** Move the star of row `starRow` to the row's prime. */
  method MoveToPrime(w: Work, ghost k: Cert, ghost ps: seq<int>, starRow: nat, starCol: nat, ghost rs: seq<int>)
    returns (primeCol: nat)
    requires w.Shaped() && starRow < w.nOfRows && starCol < w.nOfColumns
    requires Marks(w.nOfRows, w.nOfColumns, w.primeMatrix[..], ps) && ps[starRow] >= 0
    requires Marks(w.nOfRows, w.nOfColumns, w.newStarMatrix[..], rs) && rs[starRow] == starCol
    modifies w.newStarMatrix
    ensures primeCol == ps[starRow]
    ensures Marks(w.nOfRows, w.nOfColumns, w.newStarMatrix[..], rs[starRow := primeCol])
  {
    MoveStar(w.newStarMatrix, w.nOfRows, w.nOfColumns, starRow, rs, starCol, false);
    var primeRow := starRow;
    primeCol := FirstMarkInRow(w.primeMatrix, w.nOfRows, w.nOfColumns, primeRow, ps);
    MoveStar(w.newStarMatrix, w.nOfRows, w.nOfColumns, primeRow, rs[starRow := -1], primeCol, true);
    assert rs[starRow := -1][primeRow := primeCol] == rs[starRow := primeCol];
  }

  /** Follow the alternating path from a zero without a star in its row, in the temporary copy of the stars. */
  method Augment(w: Work, ghost dist: seq<real>, ghost k: Cert, row: nat, col: nat)
    returns (ghost rs: seq<int>, ghost cs: seq<int>)
    requires w.Stuck(dist, k, row, col)
    modifies w.newStarMatrix
    ensures Marks(w.nOfRows, w.nOfColumns, w.newStarMatrix[..], rs)
    ensures Path(w.nOfRows, w.nOfColumns, w.distMatrix[..], w.coveredRows[..], k, row, rs, cs, -1)
  {
    hide Path;
    CopyMarks(w.newStarMatrix, w.starMatrix);
    ghost var n, m, d, covR, covC := w.nOfRows, w.nOfColumns, w.distMatrix[..], w.coveredRows[..], w.coveredColumns[..];
    ghost var ps := k.ps[row := col];
    MoveStar(w.newStarMatrix, w.nOfRows, w.nOfColumns, row, k.rs, col, true);
    PathStarts(dist, n, m, d, covR, covC, k, row, col);
    rs, cs := k.rs[row := col], k.cs[col := row];
    var starCol := col;
    var starRow := FirstMarkInColumn(w.starMatrix, w.nOfRows, w.nOfColumns, starCol, k.rs, k.cs);
    while starRow < w.nOfRows
      invariant 0 <= starCol < w.nOfColumns
      invariant starRow == if k.cs[starCol] < 0 then w.nOfRows else k.cs[starCol]
      invariant Marks(n, m, w.newStarMatrix[..], rs)
      invariant Path(n, m, d, covR, k, row, rs, cs, k.cs[starCol])
      decreases if starRow < w.nOfRows then k.born[starRow] + 1 else 0
    {
      PathNext(dist, n, m, d, covR, covC, k, row, rs, cs, starRow);
      var primeCol := MoveToPrime(w, k, ps, starRow, starCol, rs);
      PathExtends(dist, n, m, d, covR, covC, k, row, rs, cs, starRow);
      rs, cs := rs[starRow := primeCol], cs[primeCol := starRow];
      starCol := primeCol;
      starRow := FirstMarkInColumn(w.starMatrix, w.nOfRows, w.nOfColumns, starCol, k.rs, k.cs);
    }
  }

  /** Augment the stars, then delete all primes and uncover all rows. */
  method Step4(w: Work, ghost dist: seq<real>, ghost k: Cert, row: nat, col: nat)
    requires w.Stuck(dist, k, row, col)
    modifies w.Buffers()
    ensures NearOptimal(dist, w.nOfRows, w.nOfColumns, w.assignment[..])
    decreases w.minDim - Assigned(k.rs), 0, 0, 0
  {
    ghost var rs, cs := Augment(w, dist, k, row, col);
    ghost var n, m, d := w.nOfRows, w.nOfColumns, w.distMatrix[..];
    PathEnds(dist, n, m, d, w.coveredRows[..], w.coveredColumns[..], k, row, rs, cs);
    MatchingCounts(n, m, rs, cs);
    CopyMarks(w.starMatrix, w.newStarMatrix);
    ClearMarks(w.primeMatrix);
    ClearMarks(w.coveredRows);
    Step2a(w, dist, k.(rs := rs, cs := cs));
  }
}
