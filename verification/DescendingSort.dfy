/**
 The in-place quicksort of models/detail/detection.h: Hoare partition around the middle element, with
 inner scans that are not guarded by the bounds.
 */
module DescendingSort {
  import opened Boxes

  datatype Object = Object(rect: Box, prob: real)

  ghost predicate Descending(a: seq<Object>) {
    forall i, j :: 0 <= i < j < |a| ==> a[i].prob >= a[j].prob
  }

  /** b is a with the elements of lo..hi rearranged. */
  ghost predicate Rearranged(a: seq<Object>, b: seq<Object>, lo: nat, hi: nat) {
    && lo <= hi <= |a| == |b|
    && a[..lo] == b[..lo] && a[hi..] == b[hi..]
    && multiset(a[lo..hi]) == multiset(b[lo..hi])
  }

  lemma RearrangedTransitive(a: seq<Object>, b: seq<Object>, c: seq<Object>, lo: nat, hi: nat)
    requires Rearranged(a, b, lo, hi) && Rearranged(b, c, lo, hi)
    ensures Rearranged(a, c, lo, hi)
  {
  }

  /** Rearranging a part of a range rearranges the range. */
  lemma RearrangedWiden(a: seq<Object>, b: seq<Object>, lo: nat, hi: nat, lo': nat, hi': nat)
    requires Rearranged(a, b, lo, hi) && lo' <= lo && hi <= hi' <= |a|
    ensures Rearranged(a, b, lo', hi')
  {
    assert a[lo'..hi'] == a[lo'..lo] + a[lo..hi] + a[hi..hi'];
    assert b[lo'..hi'] == b[lo'..lo] + b[lo..hi] + b[hi..hi'];
    assert a[lo'..lo] == a[..lo][lo'..] && b[lo'..lo] == b[..lo][lo'..];
    assert a[hi..hi'] == a[hi..][..hi' - hi] && b[hi..hi'] == b[hi..][..hi' - hi];
    assert a[..lo'] == a[..lo][..lo'] && b[..lo'] == b[..lo][..lo'];
    assert a[hi'..] == a[hi..][hi' - hi..] && b[hi'..] == b[hi..][hi' - hi..];
  }

  ghost function Swapped(a: seq<Object>, i: int, j: int): seq<Object>
    requires 0 <= i < |a| && 0 <= j < |a|
  {
    a[i := a[j]][j := a[i]]
  }

  lemma SwapRearranges(a: seq<Object>, i: nat, j: nat)
    requires i <= j < |a|
    ensures Rearranged(a, Swapped(a, i, j), i, j + 1)
  {
    var b := Swapped(a, i, j);
    if i < j {
      assert a[i..j + 1] == [a[i]] + a[i + 1..j] + [a[j]];
      assert b[i..j + 1] == [a[j]] + a[i + 1..j] + [a[i]];
    } else {
      assert b == a;
    }
  }

  /** What holds of every element of a range holds of every element after a rearrangement. */
  lemma RearrangedAll(a: seq<Object>, b: seq<Object>, lo: nat, hi: nat, p: real, above: bool)
    requires Rearranged(a, b, lo, hi)
    requires forall k :: lo <= k < hi ==> if above then a[k].prob >= p else a[k].prob <= p
    ensures forall k :: lo <= k < hi ==> if above then b[k].prob >= p else b[k].prob <= p
  {
    forall k | lo <= k < hi ensures if above then b[k].prob >= p else b[k].prob <= p {
      assert b[lo..hi][k - lo] in multiset(b[lo..hi]);
      assert b[k] in multiset(a[lo..hi]);
      var m :| 0 <= m < hi - lo && a[lo..hi][m] == b[k];
      assert a[lo + m] == b[k];
    }
  }

  /** Where the partition stands: everything before i is at least p, everything after j at most p. */
  ghost predicate Split(a: seq<Object>, left: int, right: int, p: real, i: int, j: int) {
    && 0 <= left <= right < |a| && left <= i && j <= right
    && (forall k :: left <= k < i && k <= right ==> a[k].prob >= p)
    && (forall k :: j < k <= right && k >= left ==> a[k].prob <= p)
  }

  /** The scan from the left stops within the range: at the pivot, or at what was swapped to the right. */
  method ScanUp(faces: array<Object>, left: int, right: int, i0: int, j: int, p: real, ghost first: bool) returns (i: int)
    requires Split(faces[..], left, right, p, i0, j) && i0 <= j
    requires first ==> i0 == left && j == right && faces[(left + right) / 2].prob == p
    requires !first ==> left < i0 && j < right
    ensures i0 <= i <= j + 1 && i <= right && faces[i].prob <= p
    ensures Split(faces[..], left, right, p, i, j)
    ensures first ==> i <= (left + right) / 2
  {
    i := i0;
    while faces[i].prob > p
      invariant i0 <= i <= j + 1 && i <= right
      invariant first ==> i <= (left + right) / 2
      invariant forall k :: i0 <= k < i ==> faces[k].prob > p
      decreases right - i
    {
      i := i + 1;
    }
  }

  method ScanDown(faces: array<Object>, left: int, right: int, i: int, j0: int, p: real, ghost first: bool) returns (j: int)
    requires Split(faces[..], left, right, p, i, j0) && i <= j0 + 1 && i <= right && faces[i].prob <= p
    requires left <= j0
    requires first ==> i <= (left + right) / 2 && j0 == right && faces[(left + right) / 2].prob == p
    requires !first ==> left < i && j0 < right
    ensures i - 1 <= j <= j0 && left <= j && faces[j].prob >= p
    ensures Split(faces[..], left, right, p, i, j)
    ensures first ==> i <= j
  {
    j := j0;
    while faces[j].prob < p
      invariant i - 1 <= j <= j0 && left <= j
      invariant first ==> (left + right) / 2 <= j
      invariant forall k :: j < k <= j0 ==> faces[k].prob < p
      decreases j
    {
      j := j - 1;
    }
  }

  lemma SwapSplits(a: seq<Object>, left: int, right: int, p: real, i: int, j: int)
    requires 0 <= left <= i <= j <= right < |a| && Split(a, left, right, p, i, j) && a[i].prob <= p <= a[j].prob
    ensures Split(Swapped(a, i, j), left, right, p, i + 1, j - 1)
    ensures i == j ==> Swapped(a, i, j)[i].prob == p
  {
    var b := Swapped(a, i, j);
    assert b[i] == a[j] && b[j] == a[i];
    assert forall k :: 0 <= k < |a| && k != i && k != j ==> b[k] == a[k];
  }

  lemma SwapRearrangesRange(a: seq<Object>, left: int, right: int, i: int, j: int)
    requires 0 <= left <= i <= j <= right < |a|
    ensures Rearranged(a, Swapped(a, i, j), left, right + 1)
  {
    hide *;
    SwapRearranges(a, i, j);
    RearrangedWiden(a, Swapped(a, i, j), i, j + 1, left, right + 1);
  }

  /** Exchange the two elements that the scans stopped at. */
  method SwapPair(faces: array<Object>, left: int, right: int, i: int, j: int, ghost p: real)
    requires 0 <= left <= i <= j <= right < faces.Length && Split(faces[..], left, right, p, i, j)
    requires faces[i].prob <= p <= faces[j].prob
    modifies faces
    ensures Split(faces[..], left, right, p, i + 1, j - 1)
    ensures Rearranged(old(faces[..]), faces[..], left, right + 1)
    ensures i == j ==> faces[i].prob == p
  {
    ghost var before := faces[..];
    SwapSplits(before, left, right, p, i, j);
    SwapRearrangesRange(before, left, right, i, j);
    faces[i], faces[j] := faces[j], faces[i];
    assert faces[..] == Swapped(before, i, j);
    hide *;
  }

  /** Partition the range around the probability of its middle element. */
  method Partition(faces: array<Object>, left: int, right: int) returns (i: int, j: int, ghost p: real)
    requires 0 <= left <= right < faces.Length
    modifies faces
    ensures left < i && j < right && j < i <= j + 2
    ensures Split(faces[..], left, right, p, i, j)
    ensures i == j + 2 ==> faces[i - 1].prob == p
    ensures Rearranged(old(faces[..]), faces[..], left, right + 1)
  {
    i, j := left, right;
    var pivot := faces[(left + right) / 2].prob;
    p := pivot;
    ghost var first := true;
    while i <= j
      invariant left <= i && j <= right && i <= j + 2
      invariant Split(faces[..], left, right, p, i, j)
      invariant Rearranged(old(faces[..]), faces[..], left, right + 1)
      invariant first ==> i == left && j == right && faces[(left + right) / 2].prob == p
      invariant !first ==> left < i && j < right
      invariant i == j + 2 ==> faces[i - 1].prob == p
      decreases j - i
    {
      hide Rearranged;
      i := ScanUp(faces, left, right, i, j, pivot, first);
      j := ScanDown(faces, left, right, i, j, pivot, first);
      if i <= j {
        ghost var before := faces[..];
        SwapPair(faces, left, right, i, j, p);
        RearrangedTransitive(old(faces[..]), before, faces[..], left, right + 1);
        i := i + 1;
        j := j - 1;
        first := false;
      }
    }
  }

  /** Outside its range a rearrangement changes nothing. */
  lemma RearrangedOutside(a: seq<Object>, b: seq<Object>, lo: nat, hi: nat)
    requires Rearranged(a, b, lo, hi)
    ensures |a| == |b|
    ensures forall k :: 0 <= k < |a| && (k < lo || hi <= k) ==> a[k] == b[k]
  {
    forall k | 0 <= k < |a| && (k < lo || hi <= k) ensures a[k] == b[k] {
      if k < lo {
        assert a[..lo][k] == b[..lo][k];
      } else {
        assert a[hi..][k - hi] == b[hi..][k - hi];
      }
    }
  }

  /** Both halves sorted and split by the pivot make the range sorted. */
  lemma HalvesSorted(a: seq<Object>, b: seq<Object>, c: seq<Object>, left: int, right: int, p: real, i: int, j: int)
    requires Split(a, left, right, p, i, j) && left < i && j < right && j < i <= j + 2
    requires i == j + 2 ==> a[i - 1].prob == p
    requires if left < j then Rearranged(a, b, left, j + 1) && Descending(b[left..j + 1]) else b == a
    requires if i < right then Rearranged(b, c, i, right + 1) && Descending(c[i..right + 1]) else c == b
    ensures Descending(c[left..right + 1]) && Rearranged(a, c, left, right + 1)
  {
    LeftHalf(a, b, left, right, p, i, j);
    RightHalf(b, c, left, right, p, i, j);
    hide Rearranged, Descending, Split;
    RearrangedTransitive(a, b, c, left, right + 1);
    LowAndHigh(a, b, c, left, right, p, i, j);
  }

  /**
   The two halves sorted side by side: each thread works on its own range of a and leaves it as in b or
   in d, whatever the other does meanwhile. Together they leave c, in whichever order their steps come.
   */
  lemma HalvesSortedTogether(a: seq<Object>, b: seq<Object>, d: seq<Object>, c: seq<Object>,
                             left: int, right: int, p: real, i: int, j: int)
    requires Split(a, left, right, p, i, j) && left < i && j < right && j < i <= j + 2
    requires i == j + 2 ==> a[i - 1].prob == p
    requires if left < j then Rearranged(a, b, left, j + 1) && Descending(b[left..j + 1]) else b == a
    requires if i < right then Rearranged(a, d, i, right + 1) && Descending(d[i..right + 1]) else d == a
    requires |c| == |a| && forall k :: 0 <= k < |c| ==> c[k] == if k <= j then b[k] else d[k]
    ensures Descending(c[left..right + 1]) && Rearranged(a, c, left, right + 1)
  {
    hide *;
    SplitBounds(a, left, right, p, i, j);
    if left < j { RearrangedOutside(a, b, left, j + 1); }
    if i < right {
      RearrangedOutside(a, d, i, right + 1);
      RearrangedElsewhere(a, b, d, c, i, right + 1);
    } else {
      assert c == b;
    }
    HalvesSorted(a, b, c, left, right, p, i, j);
  }

  lemma SplitBounds(a: seq<Object>, left: int, right: int, p: real, i: int, j: int)
    requires Split(a, left, right, p, i, j)
    ensures 0 <= left <= right < |a| && left <= i && j <= right
  {
  }

  /** What rearranges lo..hi of a rearranges it in b as well, where b has the same there. */
  lemma RearrangedElsewhere(a: seq<Object>, b: seq<Object>, d: seq<Object>, c: seq<Object>, lo: nat, hi: nat)
    requires Rearranged(a, d, lo, hi) && |c| == |b| == |a|
    requires forall k | 0 <= k < |a| :: if lo <= k < hi then a[k] == b[k] && c[k] == d[k] else c[k] == b[k]
    ensures Rearranged(b, c, lo, hi) && c[lo..hi] == d[lo..hi]
  {
    assert a[lo..hi] == b[lo..hi];
    assert c[lo..hi] == d[lo..hi];
  }

  lemma LeftHalf(a: seq<Object>, b: seq<Object>, left: int, right: int, p: real, i: int, j: int)
    requires Split(a, left, right, p, i, j) && left < i && j < right && j < i <= j + 2
    requires i == j + 2 ==> a[i - 1].prob == p
    requires if left < j then Rearranged(a, b, left, j + 1) else b == a
    ensures Rearranged(a, b, left, right + 1)
    ensures forall k :: left <= k <= j ==> b[k].prob >= p
    ensures forall k :: i <= k <= right ==> b[k].prob <= p
    ensures i == j + 2 ==> b[i - 1].prob == p
  {
    if left < j {
      RearrangedAll(a, b, left, j + 1, p, true);
      RearrangedOutside(a, b, left, j + 1);
      RearrangedWiden(a, b, left, j + 1, left, right + 1);
    }
  }

  lemma RightHalf(b: seq<Object>, c: seq<Object>, left: int, right: int, p: real, i: int, j: int)
    requires 0 <= left <= right < |b| && left < i && j < i
    requires forall k :: i <= k <= right ==> b[k].prob <= p
    requires if i < right then Rearranged(b, c, i, right + 1) else c == b
    ensures Rearranged(b, c, left, right + 1)
    ensures forall k :: i <= k <= right ==> c[k].prob <= p
    ensures forall k :: left <= k < i && k <= right ==> c[k] == b[k]
  {
    if i < right {
      RearrangedAll(b, c, i, right + 1, p, false);
      RearrangedOutside(b, c, i, right + 1);
      RearrangedWiden(b, c, i, right + 1, left, right + 1);
    }
  }

  lemma LowAndHigh(a: seq<Object>, b: seq<Object>, c: seq<Object>, left: int, right: int, p: real, i: int, j: int)
    requires 0 <= left <= right < |a| == |b| == |c| && left < i && j < right && j < i <= j + 2
    requires forall k :: left <= k <= j ==> b[k].prob >= p
    requires forall k :: left <= k < i && k <= right ==> c[k] == b[k]
    requires forall k :: i <= k <= right ==> c[k].prob <= p
    requires i == j + 2 ==> b[i - 1].prob == p
    requires left < j ==> Descending(b[left..j + 1])
    requires i < right ==> Descending(c[i..right + 1])
    ensures Descending(c[left..right + 1])
  {
    forall x, y | left <= x < y <= right ensures c[x].prob >= c[y].prob {
      if y <= j {
        assert b[left..j + 1][x - left].prob >= b[left..j + 1][y - left].prob;
      } else if x >= i {
        assert c[i..right + 1][x - i].prob >= c[i..right + 1][y - i].prob;
      }
    }
  }

  /**
   Sort a range in place, the highest probability first. The two recursive calls work on the disjoint
   ranges left..j and i..right, which is what lets the source run them in parallel.
   */
  method QsortDescentInplace(faces: array<Object>, left: int, right: int)
    requires 0 <= left <= right < faces.Length
    modifies faces
    ensures Descending(faces[left..right + 1])
    ensures Rearranged(old(faces[..]), faces[..], left, right + 1)
    decreases right - left
  {
    hide *;
    var i, j;
    ghost var p;
    i, j, p := Partition(faces, left, right);
    ghost var a := faces[..];
    if left < j {
      QsortDescentInplace(faces, left, j);
    }
    ghost var b := faces[..];
    assert b[left..right + 1] == faces[left..right + 1];
    if i < right {
      QsortDescentInplace(faces, i, right);
    }
    ghost var c := faces[..];
    assert c[left..right + 1] == faces[left..right + 1];
    HalvesSorted(a, b, c, left, right, p, i, j);
    RearrangedTransitive(old(faces[..]), a, c, left, right + 1);
  }

  /** Sort everything; nothing is lost or made up. */
  method QsortDescent(faces: array<Object>)
    modifies faces
    ensures Descending(faces[..]) && multiset(faces[..]) == multiset(old(faces[..]))
  {
    if faces.Length == 0 {
      return;
    }
    ghost var before := faces[..];
    QsortDescentInplace(faces, 0, faces.Length - 1);
    assert faces[0..faces.Length] == faces[..] && before[0..faces.Length] == before;
  }
}
