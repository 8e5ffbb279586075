/** Finite sums and counts over sequences, as the assignment proof needs them. */
module Sums {

  ghost function Sum(w: seq<real>): real {
    if |w| == 0 then 0.0 else Sum(w[..|w| - 1]) + w[|w| - 1]
  }

  /** How many entries of a partial choice are made (non-negative). */
  ghost function Assigned(s: seq<int>): nat {
    if |s| == 0 then 0 else Assigned(s[..|s| - 1]) + (if s[|s| - 1] >= 0 then 1 else 0)
  }

  ghost function CountTrue(s: seq<bool>): nat {
    if |s| == 0 then 0 else CountTrue(s[..|s| - 1]) + (if s[|s| - 1] then 1 else 0)
  }

  /** Every entry is -1 or an index below m, and no index is chosen twice. */
  ghost predicate PartialInjective(s: seq<int>, m: nat) {
    && (forall i :: 0 <= i < |s| ==> -1 <= s[i] < m)
    && (forall i, j :: 0 <= i < j < |s| && s[i] >= 0 ==> s[i] != s[j])
  }

  /** The total weight of the chosen indices. */
  ghost function Pick(w: seq<real>, s: seq<int>): real
    requires forall i :: 0 <= i < |s| ==> -1 <= s[i] < |w|
  {
    if |s| == 0 then 0.0
    else Pick(w, s[..|s| - 1]) + (if s[|s| - 1] < 0 then 0.0 else w[s[|s| - 1]])
  }

  lemma {:induction false} SumUpdate(w: seq<real>, i: nat, x: real)
    requires i < |w|
    ensures Sum(w[i := x]) == Sum(w) - w[i] + x
    decreases |w|
  {
    var n := |w| - 1;
    if i == n {
      assert w[i := x][..n] == w[..n];
    } else {
      assert w[i := x][..n] == w[..n][i := x];
      SumUpdate(w[..n], i, x);
    }
  }

  lemma {:induction false} CountTrueUpdate(s: seq<bool>, i: nat, x: bool)
    requires i < |s|
    ensures CountTrue(s[i := x]) == CountTrue(s) - (if s[i] then 1 else 0) + (if x then 1 else 0)
    decreases |s|
  {
    var n := |s| - 1;
    if i == n {
      assert s[i := x][..n] == s[..n];
    } else {
      assert s[i := x][..n] == s[..n][i := x];
      CountTrueUpdate(s[..n], i, x);
    }
  }

  lemma {:induction false} CountTrueBound(s: seq<bool>)
    ensures CountTrue(s) <= |s|
    ensures CountTrue(s) == |s| ==> forall i :: 0 <= i < |s| ==> s[i]
  {
    if |s| > 0 { CountTrueBound(s[..|s| - 1]); }
  }

  /** A choice that is not full leaves some position open; a full one leaves none. */
  lemma {:induction false} AssignedBound(s: seq<int>)
    ensures Assigned(s) <= |s|
    ensures Assigned(s) == |s| <==> forall i :: 0 <= i < |s| ==> s[i] >= 0
  {
    if |s| > 0 { AssignedBound(s[..|s| - 1]); }
  }

  lemma {:induction false} AssignedIsCount(s: seq<int>, t: seq<bool>)
    requires |s| == |t| && forall i :: 0 <= i < |s| ==> (s[i] >= 0 <==> t[i])
    ensures Assigned(s) == CountTrue(t)
  {
    if |s| > 0 { AssignedIsCount(s[..|s| - 1], t[..|s| - 1]); }
  }

  lemma {:induction false} PickSkips(w: seq<real>, s: seq<int>, i: nat, x: real)
    requires i < |w| && forall k :: 0 <= k < |s| ==> -1 <= s[k] < |w| && s[k] != i
    ensures Pick(w[i := x], s) == Pick(w, s)
  {
    if |s| > 0 { PickSkips(w, s[..|s| - 1], i, x); }
  }

  lemma {:induction false} SumNonPositive(w: seq<real>)
    requires forall c :: 0 <= c < |w| ==> w[c] <= 0.0
    ensures Sum(w) <= 0.0
    ensures (forall c :: 0 <= c < |w| ==> w[c] == 0.0) ==> Sum(w) == 0.0
  {
    if |w| > 0 { SumNonPositive(w[..|w| - 1]); }
  }

  lemma {:induction false} SumZero(w: seq<real>)
    requires forall c :: 0 <= c < |w| ==> w[c] == 0.0
    ensures Sum(w) == 0.0
  {
    if |w| > 0 { SumZero(w[..|w| - 1]); }
  }

  /** Choosing distinct indices of a non-positive weight never totals less than choosing them all. */
  lemma {:induction false} PickAtLeastSum(w: seq<real>, s: seq<int>)
    requires PartialInjective(s, |w|)
    requires forall c :: 0 <= c < |w| ==> w[c] <= 0.0
    ensures Sum(w) <= Pick(w, s)
    decreases |s|
  {
    if |s| == 0 {
      SumNonPositive(w);
    } else {
      var n := |s| - 1;
      var x := s[n];
      if x < 0 {
        PickAtLeastSum(w, s[..n]);
      } else {
        PickSkips(w, s[..n], x, 0.0);
        SumUpdate(w, x, 0.0);
        PickAtLeastSum(w[x := 0.0], s[..n]);
      }
    }
  }

  /** When the weight vanishes off the chosen indices, choosing them totals everything. */
  lemma {:induction false} PickAll(w: seq<real>, s: seq<int>)
    requires PartialInjective(s, |w|)
    requires forall c :: 0 <= c < |w| && c !in s ==> w[c] == 0.0
    ensures Sum(w) == Pick(w, s)
    decreases |s|
  {
    if |s| == 0 {
      SumZero(w);
    } else {
      var n := |s| - 1;
      var x := s[n];
      assert s == s[..n] + [x];
      if x < 0 {
        PickAll(w, s[..n]);
      } else {
        PickSkips(w, s[..n], x, 0.0);
        SumUpdate(w, x, 0.0);
        PickAll(w[x := 0.0], s[..n]);
      }
    }
  }

  ghost function Constant(n: nat, x: real): (w: seq<real>)
    ensures |w| == n && forall i :: 0 <= i < n ==> w[i] == x
  {
    seq(n, _ => x)
  }

  lemma {:induction false} SumConstant(w: seq<real>, x: real)
    requires forall i :: 0 <= i < |w| ==> w[i] == x
    ensures Sum(w) == |w| as real * x
  {
    if |w| > 0 {
      SumConstant(w[..|w| - 1], x);
      assert (|w| - 1) as real == |w| as real - 1.0;
    }
  }

  lemma {:induction false} PickUnit(w: seq<real>, s: seq<int>)
    requires forall i :: 0 <= i < |s| ==> -1 <= s[i] < |w| && (s[i] >= 0 ==> w[s[i]] == -1.0)
    ensures Pick(w, s) == -(Assigned(s) as real)
  {
    if |s| > 0 { PickUnit(w, s[..|s| - 1]); }
  }

  /** Pigeonhole: distinct indices below m number at most m, and m of them leave none out. */
  lemma Pigeonhole(s: seq<int>, m: nat)
    requires PartialInjective(s, m)
    ensures Assigned(s) <= m
    ensures Assigned(s) == m ==> forall c :: 0 <= c < m ==> c in s
  {
    var w := Constant(m, -1.0);
    SumConstant(w, -1.0);
    PickUnit(w, s);
    PickAtLeastSum(w, s);
    if Assigned(s) == m {
      forall c | 0 <= c < m ensures c in s {
        if c !in s {
          PickSkips(w, s, c, 0.0);
          SumUpdate(w, c, 0.0);
          PickAtLeastSum(w[c := 0.0], s);
        }
      }
    }
  }
}
