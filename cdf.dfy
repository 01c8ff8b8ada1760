/**
 Row normalisation of a count table into cumulative sampling tables
 (normalize, main.go:21-35). Every row with a positive total is rewritten as
 uint32((prefixSum * MaxUint32) / total), all in Go's uint64 arithmetic; a row
 whose total is zero is left as it is.
 */
module Cdf {
  import opened Words

  /** Row x of a 256 x 256 table, as unbounded integers. */
  ghost function RowOf(t: array2<uint32>, x: int): (s: seq<int>)
    reads t
    requires t.Length0 == 256 && t.Length1 == 256 && 0 <= x < 256
    ensures |s| == 256
    ensures forall y :: 0 <= y < 256 ==> s[y] == t[x, y] as int
  {
    seq(256, y requires 0 <= y < 256 reads t => t[x, y] as int)
  }

  /** A row of uint32 counts. */
  ghost predicate IsCountRow(row: seq<int>)
  {
    forall k :: 0 <= k < |row| ==> 0 <= row[k] < Two32
  }

  /**
   One normalised entry as Go computes it: the product sum * MaxUint32 wraps
   modulo 2^64, the quotient is truncated to uint32.
   */
  function Scaled(sum: int, total: int): (v: int)
    requires total > 0
    ensures 0 <= v < Two32
  {
    ((sum * MaxUint32) % Two64 / total) % Two32
  }

  /** The row normalize leaves behind for a given row of counts. */
  function NormalizedRow(row: seq<int>): (r: seq<int>)
    ensures |r| == |row|
  {
    var total := Sum(row);
    if total > 0 then seq(|row|, k requires 0 <= k < |row| => Scaled(Sum(row[..k + 1]), total))
    else row
  }

  /** The range in which sum * MaxUint32 never wraps in uint64: a total of at most 2^32 + 1. */
  predicate FitsUint64(row: seq<int>)
  {
    Sum(row) * MaxUint32 < Two64
  }

  /** Without wrap-around the normalised entry for prefix sum s is floor(s * MaxUint32 / total). */
  lemma ScaledExact(s: int, total: int)
    requires 0 <= s <= total && 0 < total && total * MaxUint32 < Two64
    ensures Scaled(s, total) == s * MaxUint32 / total <= MaxUint32
  {
    var p := s * MaxUint32;
    MulMonotone(MaxUint32, s, total);
    assert 0 <= p < Two64;
    assert p % Two64 == p;
    DivMonotone(p, total * MaxUint32, total);
    MulDivCancel(total, MaxUint32);
    assert p / total < Two32;
  }

  /** A row with total 0 is all zero, and normalize leaves it so. */
  lemma NormalizeZeroRow(row: seq<int>)
    requires IsCountRow(row) && Sum(row) == 0
    ensures NormalizedRow(row) == row
    ensures forall k :: 0 <= k < |row| ==> NormalizedRow(row)[k] == 0
  {
    SumZero(row);
  }

  /** Every normalised entry is a uint32, whatever the row. */
  lemma NormalizedIsCountRow(row: seq<int>)
    requires IsCountRow(row)
    ensures IsCountRow(NormalizedRow(row))
  {
  }

  /** Without overflow the normalised row is non-decreasing left to right. */
  lemma NormalizeMonotone(row: seq<int>, j: int, k: int)
    requires IsCountRow(row) && FitsUint64(row)
    requires 0 <= j <= k < |row|
    ensures NormalizedRow(row)[j] <= NormalizedRow(row)[k]
  {
    var total := Sum(row);
    if total > 0 {
      var sj, sk := Sum(row[..j + 1]), Sum(row[..k + 1]);
      SumPrefixMonotone(row, j + 1, k + 1);
      ScaledExact(sj, total);
      ScaledExact(sk, total);
      MulMonotone(MaxUint32, sj, sk);
      DivMonotone(sj * MaxUint32, sk * MaxUint32, total);
      NormalizedAt(row, j);
      NormalizedAt(row, k);
    } else {
      SumNonNegative(row);
      NormalizeZeroRow(row);
    }
  }

  lemma NormalizedAt(row: seq<int>, k: int)
    requires 0 <= k < |row| && Sum(row) > 0
    ensures NormalizedRow(row)[k] == Scaled(Sum(row[..k + 1]), Sum(row))
  {
  }

  /**
   Every entry of a normalised row is at most MaxUint32, whatever the total,
   since the uint32 conversion truncates; without overflow the last entry,
   where the running sum reaches the total, is exactly MaxUint32.
   */
  lemma NormalizeCeiling(row: seq<int>)
    requires IsCountRow(row) && FitsUint64(row) && Sum(row) > 0
    ensures forall k :: 0 <= k < |row| ==> 0 <= NormalizedRow(row)[k] <= MaxUint32
    ensures NormalizedRow(row)[|row| - 1] == MaxUint32
  {
    var total := Sum(row);
    assert row[..|row|] == row;
    ScaledExact(total, total);
    MulDivCancel(total, MaxUint32);
  }

  /** The first inner loop of normalize (main.go:24-26): the total of row i. */
  method RowTotal(d: array2<uint32>, i: int) returns (total: uint64)
    requires d.Length0 == 256 && d.Length1 == 256 && 0 <= i < 256
    ensures total as int == Sum(RowOf(d, i))
  {
    ghost var row := RowOf(d, i);
    total := 0;
    for ii := 0 to 256
      invariant total as int == Sum(row[..ii]) <= ii * MaxUint32
    {
      SumPrefixStep(row, ii);
      assert (ii + 1) * MaxUint32 == ii * MaxUint32 + MaxUint32;
      total := total + d[i, ii] as uint64;
    }
    assert row[..256] == row;
  }

  /**
   The second inner loop of normalize (main.go:29-32): row i, whose total is
   given, is rewritten in place; no other row changes.
   */
  method RescaleRow(d: array2<uint32>, i: int, total: uint64)
    requires d.Length0 == 256 && d.Length1 == 256 && 0 <= i < 256
    requires total > 0 && total as int == Sum(RowOf(d, i))
    modifies d
    ensures forall y :: 0 <= y < 256 ==> d[i, y] as int == NormalizedRow(old(RowOf(d, i)))[y]
    ensures forall x, y :: 0 <= x < 256 && x != i && 0 <= y < 256 ==> d[x, y] == old(d[x, y])
  {
    ghost var row := RowOf(d, i);
    var sum: uint64 := 0;
    for ii := 0 to 256
      invariant sum as int == Sum(row[..ii]) <= ii * MaxUint32
      invariant forall y :: 0 <= y < ii ==> d[i, y] as int == NormalizedRow(row)[y]
      invariant forall y :: ii <= y < 256 ==> d[i, y] as int == row[y]
      invariant forall x, y :: 0 <= x < 256 && x != i && 0 <= y < 256 ==> d[x, y] == old(d[x, y])
    {
      SumPrefixStep(row, ii);
      assert (ii + 1) * MaxUint32 == ii * MaxUint32 + MaxUint32;
      sum := sum + d[i, ii] as uint64;
      d[i, ii] := Scaled(sum as int, total as int) as uint32;
    }
  }

  /**
   normalize on one table. Each row is rewritten from that row alone; the
   two accumulators are uint64 and only the product sum * MaxUint32 can wrap.
   */
  method Normalize(d: array2<uint32>)
    requires d.Length0 == 256 && d.Length1 == 256
    modifies d
    ensures forall x, y :: 0 <= x < 256 && 0 <= y < 256 ==>
      d[x, y] as int == NormalizedRow(old(RowOf(d, x)))[y]
  {
    for i := 0 to 256
      invariant forall x, y :: 0 <= x < i && 0 <= y < 256 ==>
        d[x, y] as int == NormalizedRow(old(RowOf(d, x)))[y]
      invariant forall x, y :: i <= x < 256 && 0 <= y < 256 ==> d[x, y] == old(d[x, y])
    {
      ghost var row := RowOf(d, i);
      assert row == old(RowOf(d, i));
      var total := RowTotal(d, i);
      if total > 0 {
        RescaleRow(d, i, total);
      }
    }
  }
}
