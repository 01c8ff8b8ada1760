/**
 The transition-count tables of one fitness evaluation (main.go:47-57): one
 walk over the pixel buffer, a single cursor holding the previous TRUE pixel,
 and each transition cursor -> data[i] counted in table a when gene bit i is
 set and in table b otherwise.
 */
module Transitions {
  import opened Words

  /** A 256 x 256 table of counts, indexed [previous intensity][next intensity]. */
  type Table = seq<seq<int>>

  ghost predicate IsTable(t: Table)
  {
    |t| == 256 && forall x :: 0 <= x < 256 ==> |t[x]| == 256
  }

  /** The cursor the counting loop holds at position i: the previous pixel, 0 at the start. */
  function Prev(data: seq<uint8>, i: nat): (c: int)
    requires i <= |data|
    ensures 0 <= c < 256
    ensures i == 0 ==> c == 0
    ensures i > 0 ==> c == data[i - 1] as int
  {
    if i == 0 then 0 else data[i - 1] as int
  }

  function Zero(): (t: Table)
    ensures IsTable(t)
    ensures forall x, y :: 0 <= x < 256 && 0 <= y < 256 ==> t[x][y] == 0
  {
    seq(256, _ => seq(256, _ => 0))
  }

  /** The table with one more transition x -> y counted. */
  function Bump(t: Table, x: int, y: int): (r: Table)
    requires IsTable(t) && 0 <= x < 256 && 0 <= y < 256
    ensures IsTable(r)
    ensures forall x', y' :: 0 <= x' < 256 && 0 <= y' < 256 ==>
      r[x'][y'] == if x' == x && y' == y then t[x'][y'] + 1 else t[x'][y']
  {
    t[x := t[x][y := t[x][y] + 1]]
  }

  /**
   The exact (unbounded) counts of class cls after the first n positions of the
   walk; the Go tables hold these modulo 2^32.
   */
  function Tally(data: seq<uint8>, gene: seq<bool>, n: nat, cls: bool): (t: Table)
    requires n <= |gene| <= |data|
    ensures IsTable(t)
  {
    if n == 0 then Zero()
    else
      var t := Tally(data, gene, n - 1, cls);
      if gene[n - 1] == cls then Bump(t, Prev(data, n - 1), data[n - 1] as int) else t
  }

  /** The positions i < n of class cls whose transition is x -> y. */
  function Positions(data: seq<uint8>, gene: seq<bool>, n: nat, cls: bool, x: int, y: int): set<nat>
    requires n <= |gene| <= |data|
  {
    set i: nat | i < n && Matches(data, gene, cls, x, y, i)
  }

  /** Position i of the walk is a transition x -> y of class cls. */
  predicate Matches(data: seq<uint8>, gene: seq<bool>, cls: bool, x: int, y: int, i: nat)
    requires i < |gene| <= |data|
  {
    gene[i] == cls && Prev(data, i) == x && data[i] as int == y
  }

  /** The positions i < n whose gene bit is cls. */
  function ClassPositions(gene: seq<bool>, n: nat, cls: bool): set<nat>
    requires n <= |gene|
  {
    set i: nat | i < n && gene[i] == cls
  }

  /** Row sums of a table, and the total of all its entries. */
  function RowSums(t: Table): (s: seq<int>)
    ensures |s| == |t|
    ensures forall x :: 0 <= x < |t| ==> s[x] == Sum(t[x])
  {
    seq(|t|, x requires 0 <= x < |t| => Sum(t[x]))
  }

  function GridSum(t: Table): int
  {
    Sum(RowSums(t))
  }

  /** Each cell of the count table is the number of matching positions of the walk. */
  lemma {:induction false} TallyCounts(data: seq<uint8>, gene: seq<bool>, n: nat, cls: bool, x: int, y: int)
    requires n <= |gene| <= |data|
    requires 0 <= x < 256 && 0 <= y < 256
    ensures Tally(data, gene, n, cls)[x][y] == |Positions(data, gene, n, cls, x, y)|
  {
    if n == 0 {
      assert Positions(data, gene, n, cls, x, y) == {};
    } else {
      TallyCounts(data, gene, n - 1, cls, x, y);
      PositionsStep(data, gene, n, cls, x, y);
    }
  }

  /** One more position of the walk adds itself to the matching positions exactly when it matches. */
  lemma PositionsStep(data: seq<uint8>, gene: seq<bool>, n: nat, cls: bool, x: int, y: int)
    requires 0 < n <= |gene| <= |data|
    ensures |Positions(data, gene, n, cls, x, y)| ==
      |Positions(data, gene, n - 1, cls, x, y)| + (if Matches(data, gene, cls, x, y, n - 1) then 1 else 0)
  {
    var before := Positions(data, gene, n - 1, cls, x, y);
    var after := Positions(data, gene, n, cls, x, y);
    var hit := Matches(data, gene, cls, x, y, n - 1);
    forall i: nat
      ensures i in after <==> i in before || (hit && i == n - 1)
    {
    }
    CardinalityStep(before, after, n - 1, hit);
  }

  /** A set that gains at most the one new element k. */
  lemma CardinalityStep(p: set<nat>, q: set<nat>, k: nat, add: bool)
    requires k !in p
    requires forall i: nat :: i in q <==> i in p || (add && i == k)
    ensures |q| == |p| + (if add then 1 else 0)
  {
    if add {
      assert q == p + {k};
    } else {
      assert q == p;
    }
  }

  /** No cell can count more transitions than the walk has positions. */
  lemma TallyBounded(data: seq<uint8>, gene: seq<bool>, n: nat, cls: bool, x: int, y: int)
    requires n <= |gene| <= |data|
    requires 0 <= x < 256 && 0 <= y < 256
    ensures 0 <= Tally(data, gene, n, cls)[x][y] <= n
  {
    TallyCounts(data, gene, n, cls, x, y);
    var p := Positions(data, gene, n, cls, x, y);
    SubsetCardinality(p, Indices(n));
  }

  /** The positions 0 .. n-1 of the walk. */
  function Indices(n: nat): (s: set<nat>)
    ensures |s| == n
    ensures forall i: nat :: i in s <==> i < n
  {
    if n == 0 then {} else Indices(n - 1) + {n - 1}
  }

  lemma SubsetCardinality(p: set<nat>, q: set<nat>)
    requires p <= q
    ensures |p| <= |q|
  {
    assert q == p + (q - p);
  }

  /** Counting one more transition raises the table total by exactly one. */
  lemma GridSumBump(t: Table, x: int, y: int)
    requires IsTable(t) && 0 <= x < 256 && 0 <= y < 256
    ensures GridSum(Bump(t, x, y)) == GridSum(t) + 1
  {
    var r := Bump(t, x, y);
    SumUpdate(t[x], y, t[x][y] + 1);
    assert r[x] == t[x][y := t[x][y] + 1];
    assert RowSums(r) == RowSums(t)[x := Sum(t[x]) + 1];
    SumUpdate(RowSums(t), x, Sum(t[x]) + 1);
  }

  lemma {:induction false} GridSumZero(k: nat)
    requires k <= 256
    ensures Sum(RowSums(Zero())[..k]) == 0
  {
    if k > 0 {
      GridSumZero(k - 1);
      SumPrefixStep(RowSums(Zero()), k - 1);
      SumOfZeros(seq(256, _ => 0));
      assert Zero()[k - 1] == seq(256, _ => 0);
    }
  }

  /** The total of the class-cls table is the number of positions whose gene bit is cls. */
  lemma {:induction false} TallyTotal(data: seq<uint8>, gene: seq<bool>, n: nat, cls: bool)
    requires n <= |gene| <= |data|
    ensures GridSum(Tally(data, gene, n, cls)) == |ClassPositions(gene, n, cls)|
  {
    if n == 0 {
      GridSumZero(256);
      assert RowSums(Zero())[..256] == RowSums(Zero());
      assert ClassPositions(gene, n, cls) == {};
    } else {
      TallyTotal(data, gene, n - 1, cls);
      var before, after := ClassPositions(gene, n - 1, cls), ClassPositions(gene, n, cls);
      forall i: nat
        ensures i in after <==> i in before || (gene[n - 1] == cls && i == n - 1)
      {
      }
      CardinalityStep(before, after, n - 1, gene[n - 1] == cls);
      if gene[n - 1] == cls {
        GridSumBump(Tally(data, gene, n - 1, cls), Prev(data, n - 1), data[n - 1] as int);
      }
    }
  }

  /** The two tables partition the walk: together they count every position once. */
  lemma TallyPartition(data: seq<uint8>, gene: seq<bool>)
    requires |gene| <= |data|
    ensures GridSum(Tally(data, gene, |gene|, true)) + GridSum(Tally(data, gene, |gene|, false)) == |gene|
  {
    var n := |gene|;
    TallyTotal(data, gene, n, true);
    TallyTotal(data, gene, n, false);
    var t, f := ClassPositions(gene, n, true), ClassPositions(gene, n, false);
    assert t * f == {};
    assert t + f == Indices(n);
  }

  /** The uint32 cells of t hold the exact counts of T modulo 2^32. */
  ghost predicate Holds(t: array2<uint32>, T: Table)
    reads t
    requires t.Length0 == 256 && t.Length1 == 256 && IsTable(T)
  {
    forall x, y :: 0 <= x < 256 && 0 <= y < 256 ==> t[x, y] as int == T[x][y] % Two32
  }

  /**
   The counting loop of fitness. Each table cell is a Go uint32, so an
   increment past MaxUint32 wraps around to 0.
   */
  method CountTransitions(data: seq<uint8>, gene: seq<bool>) returns (a: array2<uint32>, b: array2<uint32>)
    requires |gene| <= |data|
    ensures fresh(a) && fresh(b) && a != b
    ensures a.Length0 == 256 && a.Length1 == 256 && b.Length0 == 256 && b.Length1 == 256
    ensures Holds(a, Tally(data, gene, |gene|, true)) && Holds(b, Tally(data, gene, |gene|, false))
  {
    a := NewTable();
    b := NewTable();
    var c: uint8 := 0;
    for i := 0 to |gene|
      invariant c as int == Prev(data, i)
      invariant Holds(a, Tally(data, gene, i, true)) && Holds(b, Tally(data, gene, i, false))
    {
      var pixel := data[i];
      Count(a, b, gene[i], c, pixel, Tally(data, gene, i, true), Tally(data, gene, i, false));
      c := pixel;
    }
  }

  /** One step of the counting loop: transition x -> y counted in a when bit is set, in b otherwise. */
  method Count(a: array2<uint32>, b: array2<uint32>, bit: bool, x: uint8, y: uint8, ghost ta: Table, ghost tb: Table)
    requires a.Length0 == 256 && a.Length1 == 256 && b.Length0 == 256 && b.Length1 == 256 && a != b
    requires IsTable(ta) && IsTable(tb) && Holds(a, ta) && Holds(b, tb)
    modifies a, b
    ensures Holds(a, if bit then Bump(ta, x as int, y as int) else ta)
    ensures Holds(b, if bit then tb else Bump(tb, x as int, y as int))
  {
    if bit {
      Increment(a, x, y, ta);
    } else {
      Increment(b, x, y, tb);
    }
  }

  /** A fresh 256 x 256 table of zero counts, as `var a, b [256][256]uint32` starts out in fitness. */
  method NewTable() returns (t: array2<uint32>)
    ensures fresh(t) && t.Length0 == 256 && t.Length1 == 256
    ensures Holds(t, Zero())
  {
    t := new uint32[256, 256]((_, _) => 0);
  }

  /**
   Go's t[x][y]++ on a uint32 cell: MaxUint32 + 1 wraps to 0. Seen through
   the exact counts T, it counts the transition x -> y once more.
   */
  method Increment(t: array2<uint32>, x: uint8, y: uint8, ghost T: Table)
    requires t.Length0 == 256 && t.Length1 == 256 && IsTable(T) && Holds(t, T)
    modifies t
    ensures t[x, y] as int == (old(t[x, y]) as int + 1) % Two32
    ensures forall x', y' :: 0 <= x' < 256 && 0 <= y' < 256 && (x' != x as int || y' != y as int) ==>
      t[x', y'] == old(t[x', y'])
    ensures Holds(t, Bump(T, x as int, y as int))
  {
    t[x, y] := if t[x, y] as int == MaxUint32 then 0 else t[x, y] + 1;
    WrapStep(T[x][y]);
  }

  lemma WrapStep(n: int)
    ensures (n % Two32 + 1) % Two32 == (n + 1) % Two32
  {
  }

  /** With fewer than 2^32 positions no cell wraps, so the Go tables hold the exact counts. */
  lemma NoWrap(data: seq<uint8>, gene: seq<bool>, cls: bool, x: int, y: int)
    requires |gene| <= |data| && |gene| < Two32
    requires 0 <= x < 256 && 0 <= y < 256
    ensures Tally(data, gene, |gene|, cls)[x][y] % Two32 == Tally(data, gene, |gene|, cls)[x][y]
      == |Positions(data, gene, |gene|, cls, x, y)|
  {
    TallyBounded(data, gene, |gene|, cls, x, y);
    TallyCounts(data, gene, |gene|, cls, x, y);
  }

  /**
   Four pixels of intensity 10 with gene bits true, false, true, false: the
   cursor starts at 0, so a counts 0 -> 10 once and 10 -> 10 once, b counts
   10 -> 10 twice, and every other cell is 0.
   */
  lemma FourPixelScenario()
    ensures var data: seq<uint8>, gene := [10, 10, 10, 10], [true, false, true, false];
      forall x, y :: 0 <= x < 256 && 0 <= y < 256 ==>
        Tally(data, gene, 4, true)[x][y] == (if (x == 0 || x == 10) && y == 10 then 1 else 0) &&
        Tally(data, gene, 4, false)[x][y] == (if x == 10 && y == 10 then 2 else 0)
  {
    var data: seq<uint8>, gene := [10, 10, 10, 10], [true, false, true, false];
    assert Tally(data, gene, 4, true) == Bump(Bump(Zero(), 0, 10), 10, 10);
    assert Tally(data, gene, 4, false) == Bump(Bump(Zero(), 10, 10), 10, 10);
  }
}
