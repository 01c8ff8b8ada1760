/**
 The model image of one fitness evaluation (main.go:46-84): count the
 transitions of both classes, normalise both tables, then walk the gene
 again drawing one pixel per position from the row of the class table that
 the cursor selects. The cursor is reset to 0 and then follows the SAMPLED
 pixels, so the resynthesis is autoregressive on its own output.
 */
module Resynthesis {
  import opened Words
  import opened Transitions
  import opened Cdf
  import opened Sampling

  /** Row x of the class-cls count table as the Go uint32 cells hold it. */
  function StoredRow(data: seq<uint8>, gene: seq<bool>, cls: bool, x: int): (row: seq<int>)
    requires |gene| <= |data| && 0 <= x < 256
    ensures |row| == 256 && IsCountRow(row)
  {
    var counts := Tally(data, gene, |gene|, cls);
    seq(256, y requires 0 <= y < 256 => counts[x][y] % Two32)
  }

  /** The cumulative table of class cls after normalize. */
  function CdfTable(data: seq<uint8>, gene: seq<bool>, cls: bool): (t: Table)
    requires |gene| <= |data|
    ensures IsTable(t)
  {
    seq(256, x requires 0 <= x < 256 => NormalizedRow(StoredRow(data, gene, cls, x)))
  }

  /** The model cursor before position i: the previous sampled pixel, 0 at the start. */
  function Cursor(s: seq<uint8>, i: nat): (c: int)
    requires i <= |s|
    ensures 0 <= c < 256
    ensures i == 0 ==> c == 0
    ensures i > 0 ==> c == s[i - 1] as int
  {
    if i == 0 then 0 else s[i - 1] as int
  }

  /**
   The first n sampled pixels: position i uses draw i, the table ta or tb
   chosen by gene bit i, and the row the previous sampled pixel selects.
   */
  function Synth(ta: Table, tb: Table, gene: seq<bool>, draws: seq<uint32>, n: nat): (s: seq<uint8>)
    requires IsTable(ta) && IsTable(tb) && n <= |gene| && n <= |draws|
    ensures |s| == n
  {
    if n == 0 then []
    else
      var s := Synth(ta, tb, gene, draws, n - 1);
      var t := if gene[n - 1] then ta else tb;
      s + [Pick(t[Cursor(s, n - 1)], draws[n - 1] as int) as uint8]
  }

  /** The whole model buffer: make([]byte, len(data)), of which the first |gene| bytes are sampled. */
  function Model(data: seq<uint8>, gene: seq<bool>, draws: seq<uint32>): (m: seq<uint8>)
    requires |gene| <= |data| && |gene| <= |draws|
    ensures |m| == |data|
    ensures forall i :: |gene| <= i < |data| ==> m[i] == 0
  {
    Synth(CdfTable(data, gene, true), CdfTable(data, gene, false), gene, draws, |gene|)
      + seq(|data| - |gene|, _ => 0 as uint8)
  }

  /** Later positions never change earlier samples. */
  lemma {:induction false} SynthPrefix(ta: Table, tb: Table, gene: seq<bool>, draws: seq<uint32>, m: nat, n: nat)
    requires IsTable(ta) && IsTable(tb) && m <= n <= |gene| && n <= |draws|
    ensures Synth(ta, tb, gene, draws, n)[..m] == Synth(ta, tb, gene, draws, m)
    decreases n - m
  {
    if m < n {
      SynthPrefix(ta, tb, gene, draws, m, n - 1);
      assert Synth(ta, tb, gene, draws, n)[..n - 1] == Synth(ta, tb, gene, draws, n - 1);
      assert Synth(ta, tb, gene, draws, n)[..m] == Synth(ta, tb, gene, draws, n)[..n - 1][..m];
    }
  }

  /**
   The sample at position i is drawn with draw i from the row, in the table of
   gene bit i, that the PREVIOUS SAMPLE selects (row 0 at position 0).
   */
  lemma SynthAt(ta: Table, tb: Table, gene: seq<bool>, draws: seq<uint32>, n: nat, i: nat)
    requires IsTable(ta) && IsTable(tb) && i < n <= |gene| && n <= |draws|
    ensures var s := Synth(ta, tb, gene, draws, n);
      s[i] as int == Pick((if gene[i] then ta else tb)[Cursor(s, i)], draws[i] as int)
  {
    SynthPrefix(ta, tb, gene, draws, i + 1, n);
    SynthPrefix(ta, tb, gene, draws, i, n);
    var s := Synth(ta, tb, gene, draws, n);
    assert s[i] == s[..i + 1][i];
    if i > 0 {
      assert s[i - 1] == s[..i][i - 1];
    }
  }

  /**
   The model buffer has the length of data; position i < |gene| is the
   sample drawn from the row of the previous model pixel; the rest stays 0.
   */
  lemma ModelShape(data: seq<uint8>, gene: seq<bool>, draws: seq<uint32>)
    requires |gene| <= |data| && |gene| <= |draws|
    ensures |Model(data, gene, draws)| == |data|
    ensures var m := Model(data, gene, draws);
      forall i :: 0 <= i < |gene| ==>
        m[i] as int == Pick(CdfTable(data, gene, gene[i])[Cursor(m, i)], draws[i] as int)
    ensures forall i :: |gene| <= i < |data| ==> Model(data, gene, draws)[i] == 0
  {
    var ta, tb := CdfTable(data, gene, true), CdfTable(data, gene, false);
    var s := Synth(ta, tb, gene, draws, |gene|);
    var m := Model(data, gene, draws);
    forall i | 0 <= i < |gene|
      ensures m[i] as int == Pick(CdfTable(data, gene, gene[i])[Cursor(m, i)], draws[i] as int)
    {
      SynthAt(ta, tb, gene, draws, |gene|, i);
      assert m[i] == s[i] && Cursor(m, i) == Cursor(s, i);
    }
  }

  /**
   Every sampled pixel that did not fall back was OBSERVED: some position j of
   the same class has the transition (previous model pixel) -> (sampled pixel)
   in the original image.
   */
  lemma SampleWasObserved(data: seq<uint8>, gene: seq<bool>, draws: seq<uint32>, i: nat)
    requires |gene| <= |data| && |gene| <= |draws| && i < |gene|
    requires Hits(CdfTable(data, gene, gene[i])[Cursor(Model(data, gene, draws), i)], draws[i] as int)
    ensures var m := Model(data, gene, draws);
      exists j :: 0 <= j < |gene| && gene[j] == gene[i] && Prev(data, j) == Cursor(m, i) && data[j] == m[i]
  {
    var ta, tb := CdfTable(data, gene, true), CdfTable(data, gene, false);
    var s := Synth(ta, tb, gene, draws, |gene|);
    var m := Model(data, gene, draws);
    assert m[i] == s[i];
    assert Cursor(m, i) == Cursor(s, i) by {
      if i > 0 {
        assert m[i - 1] == s[i - 1];
      }
    }
    var c := Cursor(s, i);
    var r := draws[i] as int;
    SynthAt(ta, tb, gene, draws, |gene|, i);
    var row := StoredRow(data, gene, gene[i], c);
    assert CdfTable(data, gene, gene[i])[c] == NormalizedRow(row);
    assert s[i] as int == Pick(NormalizedRow(row), r);
    PickHasCount(row, r);
    ObservedFromCount(data, gene, gene[i], c, s[i] as int);
  }

  /** A positive stored count has a witness position in the walk. */
  lemma ObservedFromCount(data: seq<uint8>, gene: seq<bool>, cls: bool, x: int, y: int)
    requires |gene| <= |data| && 0 <= x < 256 && 0 <= y < 256
    requires StoredRow(data, gene, cls, x)[y] > 0
    ensures exists j :: 0 <= j < |gene| && gene[j] == cls && Prev(data, j) == x && data[j] as int == y
  {
    var count := Tally(data, gene, |gene|, cls)[x][y];
    assert StoredRow(data, gene, cls, x)[y] == count % Two32;
    TallyCounts(data, gene, |gene|, cls, x, y);
    var p := Positions(data, gene, |gene|, cls, x, y);
    assert count == |p| && count != 0;
    var j :| j in p;
  }

  /** A gene with no false bit leaves class b with no counts, so every class-b sample falls back to 0. */
  lemma AllTrueEmptiesClassB(data: seq<uint8>, gene: seq<bool>, x: int, r: int)
    requires |gene| <= |data| && 0 <= x < 256 && 0 <= r
    requires forall i :: 0 <= i < |gene| ==> gene[i]
    ensures forall y :: 0 <= y < 256 ==> CdfTable(data, gene, false)[x][y] == 0
    ensures Pick(CdfTable(data, gene, false)[x], r) == 0
  {
    forall y | 0 <= y < 256
      ensures StoredRow(data, gene, false, x)[y] == 0
    {
      TallyCounts(data, gene, |gene|, false, x, y);
      assert Positions(data, gene, |gene|, false, x, y) == {};
    }
    SumOfZeros(StoredRow(data, gene, false, x));
    NormalizeZeroRow(StoredRow(data, gene, false, x));
    PickFallback(CdfTable(data, gene, false)[x], r);
  }

  /** The cells of t are exactly the entries of T. */
  ghost predicate Mirrors(t: array2<uint32>, T: Table)
    reads t
    requires t.Length0 == 256 && t.Length1 == 256 && IsTable(T)
  {
    forall x, y :: 0 <= x < 256 && 0 <= y < 256 ==> t[x, y] as int == T[x][y]
  }

  /** Lines 47-60 of fitness: both count tables, each normalised in place. */
  method BuildTables(data: seq<uint8>, gene: seq<bool>) returns (a: array2<uint32>, b: array2<uint32>)
    requires |gene| <= |data|
    ensures fresh(a) && fresh(b) && a != b
    ensures a.Length0 == 256 && a.Length1 == 256 && b.Length0 == 256 && b.Length1 == 256
    ensures Mirrors(a, CdfTable(data, gene, true)) && Mirrors(b, CdfTable(data, gene, false))
  {
    a, b := CountTransitions(data, gene);
    forall x | 0 <= x < 256
      ensures RowOf(a, x) == StoredRow(data, gene, true, x)
      ensures RowOf(b, x) == StoredRow(data, gene, false, x)
    {
    }
    Normalize(a);
    Normalize(b);
  }

  /** One more position: the sample drawn from the row the cursor selects is appended. */
  lemma SynthStep(ta: Table, tb: Table, gene: seq<bool>, draws: seq<uint32>, i: nat, s: seq<uint8>, row: seq<int>, pixel: uint8)
    requires IsTable(ta) && IsTable(tb) && i < |gene| && i < |draws|
    requires s == Synth(ta, tb, gene, draws, i)
    requires row == (if gene[i] then ta else tb)[Cursor(s, i)]
    requires pixel as int == Pick(row, draws[i] as int)
    ensures Synth(ta, tb, gene, draws, i + 1) == s + [pixel]
  {
  }

  /**
   The resynthesis loop of fitness (main.go:62-84) over two cumulative tables
   ta and tb held in a and b: the cursor starts at 0, each position samples
   from the table its gene bit selects, and the sampled pixel becomes the
   cursor. Bytes past |gene| keep the 0 that make gave them.
   */
  method Resynthesize(a: array2<uint32>, b: array2<uint32>, ghost ta: Table, ghost tb: Table,
                      size: nat, gene: seq<bool>, draws: seq<uint32>)
    returns (model: array<uint8>)
    requires a.Length0 == 256 && a.Length1 == 256 && b.Length0 == 256 && b.Length1 == 256
    requires IsTable(ta) && IsTable(tb) && Mirrors(a, ta) && Mirrors(b, tb)
    requires |gene| <= size && |gene| <= |draws|
    ensures fresh(model) && model.Length == size
    ensures model[..|gene|] == Synth(ta, tb, gene, draws, |gene|)
    ensures forall k :: |gene| <= k < size ==> model[k] == 0
  {
    var c: uint8 := 0;
    model := new uint8[size](_ => 0);
    ghost var s: seq<uint8> := [];
    for i := 0 to |gene|
      modifies model
      invariant s == Synth(ta, tb, gene, draws, i)
      invariant model[..i] == s
      invariant c as int == Cursor(s, i)
      invariant forall k :: i <= k < size ==> model[k] == 0
    {
      var pixel;
      if gene[i] {
        pixel := Sample(a, c, draws[i], ta[c]);
      } else {
        pixel := Sample(b, c, draws[i], tb[c]);
      }
      SynthStep(ta, tb, gene, draws, i, s, (if gene[i] then ta else tb)[c], pixel);
      model[i], c := pixel, pixel;
      s := s + [pixel];
      assert model[..i + 1] == model[..i] + [pixel];
    }
  }

  /** The fitness walk up to the model buffer: counting, normalize, resynthesis. */
  method SynthesizeModel(data: seq<uint8>, gene: seq<bool>, draws: seq<uint32>) returns (model: array<uint8>)
    requires |gene| <= |data| && |gene| <= |draws|
    ensures fresh(model) && model[..] == Model(data, gene, draws)
  {
    var a, b := BuildTables(data, gene);
    model := Resynthesize(a, b, CdfTable(data, gene, true), CdfTable(data, gene, false), |data|, gene, draws);
    assert model[..] == model[..|gene|] + model[|gene|..];
  }
}
