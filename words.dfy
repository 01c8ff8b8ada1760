/**
 Go's fixed-width unsigned integers as Dafny newtypes, the constants the
 Markov model is scaled by, and the running sum over a row of counts.
 */
module Words {

  newtype uint8 = x: int | 0 <= x < 0x100
  newtype uint32 = x: int | 0 <= x < 0x1_0000_0000
  newtype uint64 = x: int | 0 <= x < 0x1_0000_0000_0000_0000

  /** Go's math.MaxUint32, the ceiling of the sampling domain. */
  const MaxUint32: int := 0xFFFF_FFFF
  const Two32: int := 0x1_0000_0000
  const Two64: int := 0x1_0000_0000_0000_0000

  /** Sum of a row, accumulated left to right as the Go loops do. */
  function Sum(s: seq<int>): (r: int)
    ensures (forall k :: 0 <= k < |s| ==> 0 <= s[k]) ==> 0 <= r
  {
    if |s| == 0 then 0 else Sum(s[..|s| - 1]) + s[|s| - 1]
  }

  /** Extending a prefix by one column adds that column to the running sum. */
  lemma SumPrefixStep(s: seq<int>, k: nat)
    requires k < |s|
    ensures Sum(s[..k + 1]) == Sum(s[..k]) + s[k]
  {
    assert s[..k + 1][..k] == s[..k];
  }

  /** A sum of non-negative entries is non-negative and at least each entry. */
  lemma {:induction false} SumNonNegative(s: seq<int>)
    requires forall k :: 0 <= k < |s| ==> 0 <= s[k]
    ensures 0 <= Sum(s)
    ensures forall k :: 0 <= k < |s| ==> s[k] <= Sum(s)
  {
    if |s| > 0 {
      SumNonNegative(s[..|s| - 1]);
      assert forall k :: 0 <= k < |s| - 1 ==> s[..|s| - 1][k] == s[k];
    }
  }

  /** Prefix sums of non-negative entries grow with the prefix length. */
  lemma {:induction false} SumPrefixMonotone(s: seq<int>, j: nat, k: nat)
    requires j <= k <= |s|
    requires forall i :: 0 <= i < |s| ==> 0 <= s[i]
    ensures 0 <= Sum(s[..j]) <= Sum(s[..k]) <= Sum(s)
    decreases |s| - j, k - j
  {
    if j < k {
      SumPrefixStep(s, k - 1);
      SumPrefixMonotone(s, j, k - 1);
      SumPrefixMonotone(s, k, k);
    } else if k < |s| {
      SumPrefixStep(s, k);
      SumPrefixMonotone(s, k + 1, k + 1);
      SumNonNegative(s[..k]);
    } else {
      assert s[..k] == s;
      SumNonNegative(s);
    }
  }

  /** Under the non-negativity that unsigned counts have, a zero sum means every entry is zero. */
  lemma {:induction false} SumZero(s: seq<int>)
    requires forall k :: 0 <= k < |s| ==> 0 <= s[k]
    requires Sum(s) == 0
    ensures forall k :: 0 <= k < |s| ==> s[k] == 0
  {
    SumNonNegative(s);
  }

  /** A row of zeros sums to zero. */
  lemma {:induction false} SumOfZeros(s: seq<int>)
    requires forall k :: 0 <= k < |s| ==> s[k] == 0
    ensures Sum(s) == 0
  {
    if |s| > 0 {
      SumOfZeros(s[..|s| - 1]);
    }
  }

  /** Sum of a row in which one entry has been replaced. */
  lemma {:induction false} SumUpdate(s: seq<int>, k: nat, v: int)
    requires k < |s|
    ensures Sum(s[k := v]) == Sum(s) - s[k] + v
    decreases |s|
  {
    var n := |s| - 1;
    var t := s[k := v];
    assert t[..n] == if k == n then s[..n] else s[..n][k := v];
    if k < n {
      SumUpdate(s[..n], k, v);
    }
  }

  lemma {:induction false} MulMonotone(t: int, u: int, w: int)
    requires 0 <= t && u <= w
    ensures t * u <= t * w
    decreases w - u
  {
    if u < w {
      MulMonotone(t, u, w - 1);
      assert t * w == t * (w - 1) + t;
    }
  }

  /** Cancelling a positive factor from a strict inequality. */
  lemma MulCancelLess(t: int, u: int, w: int)
    requires 0 < t && t * u < t * w
    ensures u < w
  {
    if w <= u {
      MulMonotone(t, w, u);
    }
  }

  /** Go's unsigned division rounds down: q is a / t exactly when t*q <= a < t*q + t. */
  lemma DivUnique(a: int, t: int, q: int)
    requires 0 < t && t * q <= a < t * q + t
    ensures a / t == q
  {
    var q' := a / t;
    assert a == t * q' + a % t && 0 <= a % t < t;
    assert t * (q + 1) == t * q + t;
    assert t * (q' + 1) == t * q' + t;
    MulCancelLess(t, q', q + 1);
    MulCancelLess(t, q, q' + 1);
  }

  lemma DivMonotone(a: int, b: int, t: int)
    requires 0 <= a <= b && 0 < t
    ensures a / t <= b / t
  {
    var qa, qb := a / t, b / t;
    assert a == t * qa + a % t && 0 <= a % t;
    assert b == t * qb + b % t && b % t < t;
    assert t * (qb + 1) == t * qb + t;
    MulCancelLess(t, qa, qb + 1);
  }

  lemma MulDivCancel(t: int, m: int)
    requires 0 < t
    ensures t * m / t == m
  {
    DivUnique(t * m, t, m);
  }
}
