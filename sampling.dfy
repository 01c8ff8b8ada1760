/**
 Inverse-CDF sampling from one row of a cumulative table (the inner scans of
 main.go:66-72 and 75-81): the first column whose cumulative value exceeds
 the random draw r, or column 0 when no column does.
 */
module Sampling {
  import opened Words
  import opened Cdf

  /** Some column of the row exceeds r, so the scan does not fall back. */
  ghost predicate Hits(row: seq<int>, r: int)
  {
    exists k :: 0 <= k < |row| && r < row[k]
  }

  /** The scan started at column from. */
  function PickFrom(row: seq<int>, r: int, from: nat): (k: nat)
    requires from <= |row|
    ensures (exists j :: from <= j < |row| && r < row[j]) ==>
      from <= k < |row| && r < row[k] && forall j :: from <= j < k ==> row[j] <= r
    ensures (forall j :: from <= j < |row| ==> row[j] <= r) ==> k == 0
    decreases |row| - from
  {
    if from == |row| then 0
    else if r < row[from] then from
    else PickFrom(row, r, from + 1)
  }

  /**
   The column sampled for draw r: the least k with r < row[k] when there is
   one, and 0 otherwise.
   */
  function Pick(row: seq<int>, r: int): (k: nat)
    ensures Hits(row, r) ==> k < |row| && r < row[k] && forall j :: 0 <= j < k ==> row[j] <= r
    ensures !Hits(row, r) ==> k == 0
  {
    PickFrom(row, r, 0)
  }

  /** With at least one column, the sampled column is a column of the row. */
  lemma PickInRange(row: seq<int>, r: int)
    requires |row| > 0
    ensures Pick(row, r) < |row|
  {
  }

  /** An all-zero row, or the draw MaxUint32 on a row of uint32 values, always falls back to 0. */
  lemma PickFallback(row: seq<int>, r: int)
    requires IsCountRow(row)
    requires ((forall k :: 0 <= k < |row| ==> row[k] == 0) && 0 <= r) || r == MaxUint32
    ensures !Hits(row, r) && Pick(row, r) == 0
  {
  }

  /**
   When the scan over a normalised row does not fall back, the chosen column
   had a positive count before normalisation: a column with count zero
   repeats the cumulative value of the column before it, so it is never the
   first to exceed r. No overflow bound is needed for this.
   */
  lemma PickHasCount(row: seq<int>, r: int)
    requires IsCountRow(row) && 0 <= r
    requires Hits(NormalizedRow(row), r)
    ensures Pick(NormalizedRow(row), r) < |row| && row[Pick(NormalizedRow(row), r)] > 0
  {
    var n := NormalizedRow(row);
    var k := Pick(n, r);
    var total := Sum(row);
    if total > 0 {
      SumPrefixStep(row, k);
      var s := Sum(row[..k]);
      assert n[k] == Scaled(s + row[k], total);
      if k == 0 {
        assert row[..0] == [];
        ScaledZero(total);
      } else {
        assert n[k - 1] == Scaled(s, total);
      }
      ScaledStep(s, row[k], total, r);
    }
  }

  lemma ScaledZero(total: int)
    requires total > 0
    ensures Scaled(0, total) == 0
  {
  }

  /** A zero-count column cannot be the first whose cumulative value exceeds r. */
  lemma ScaledStep(s: int, c: int, total: int, r: int)
    requires total > 0 && 0 <= c
    requires Scaled(s, total) <= r < Scaled(s + c, total)
    ensures c > 0
  {
  }

  /**
   The scan of row c of table t for draw r, exactly as the Go loop with its
   early break; row is that row's content.
   */
  method Sample(t: array2<uint32>, c: uint8, r: uint32, ghost row: seq<int>) returns (pixel: uint8)
    requires t.Length0 == 256 && t.Length1 == 256
    requires |row| == 256 && forall j :: 0 <= j < 256 ==> row[j] == t[c, j] as int
    ensures pixel as int == Pick(row, r as int)
  {
    pixel := 0;
    var i := 0;
    while i < 256
      invariant 0 <= i <= 256
      invariant forall j :: 0 <= j < i ==> t[c, j] <= r
      invariant pixel == 0
    {
      if r < t[c, i] {
        pixel := i as uint8;
        break;
      }
      i := i + 1;
    }
  }
}
