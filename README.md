# kmarkov: the integer core of the Markov fitness, in Dafny

kmarkov searches for a two-class segmentation of a grayscale image. Each
candidate is a bit string, the gene, with one bit per pixel. The fitness of
a gene is computed in three steps:

1. It builds two first-order Markov models of the pixel sequence. Transitions
   into class-true pixels count in table `a` and the rest in table `b`.
2. `normalize` turns each row of counts into a cumulative table.
3. It resynthesises a model image by inverse-CDF sampling from those tables.
   The model image is then compressed to compute a normalised compression
   distance.

This project models the integer part of that pipeline in `main.go`, as
imperative Dafny over arrays, with Go's `uint8`/`uint32`/`uint64`
arithmetic written out:

- `words.dfy` (`Words`): the Go integer types, `MaxUint32`, and the running row sum `Sum` with its lemmas.
- `transitions.dfy` (`Transitions`): the counting loop of `fitness` on two
  `array2<uint32>` tables. `Tally` is the exact count and each cell holds it
  modulo 2^32, because `++` on a `uint32` wraps.
- `cdf.dfy` (`Cdf`): `normalize`, rewriting each row in place. `Scaled`
  keeps the uint64 wrap of `sum * MaxUint32` and the truncation to `uint32`.
- `sampling.dfy` (`Sampling`): the break-out scan that picks the first column
  whose cumulative value exceeds the draw, or column 0.
- `resynthesis.dfy` (`Resynthesis`): the whole model-buffer construction.
  - `Synth` and `Model` are the value-level specification.
  - `BuildTables`, `Resynthesize` and `SynthesizeModel` are the imperative walk proved against it.
- `mask.dfy` (`Mask`): the black/white mask of the best genome.
- `intensity.dfy` (`Intensity`): the RGB-to-intensity conversion of each input pixel.

The package-level `data` buffer is a parameter. Each `rand.Uint32()` call of
the resynthesis loop becomes the next element of a `draws: seq<uint32>`
parameter. Position `i` uses `draws[i]`.

## Model

| member | source | states |
|---|---|---|
| `Words.Sum` | main.go:24-26 | The running total of a row accumulated left to right, as `total` and `sum` are. A row of non-negative counts has a non-negative sum. |
| `Transitions.Prev` | main.go:48-56 | The counting cursor before position i is 0 at i = 0 and the previous data pixel otherwise, always in 0..255. |
| `Transitions.Bump` | main.go:52-54 | Counting one transition x -> y raises exactly that cell by one and leaves every other cell alone. |
| `Transitions.Tally` | main.go:47-57 | The exact counts of one class after n positions form a 256 x 256 table. |
| `Transitions.CountTransitions` | main.go:47-57 | It returns two fresh, distinct 256 x 256 tables. Every cell of a is the class-true tally modulo 2^32, and every cell of b is the class-false tally modulo 2^32. |
| `Transitions.Count` | main.go:51-55 | One loop step counts the transition in a when the gene bit is set and in b otherwise. The other table is unchanged. |
| `Transitions.Increment` | main.go:52 | `t[x][y]++` on a uint32 cell wraps MaxUint32 to 0, changes no other cell, and keeps the cells equal to the exact counts modulo 2^32. |
| `Transitions.NewTable` | main.go:47 | A fresh table whose cells are all zero. |
| `Transitions.TallyCounts` | main.go:48-57 | Cell [x][y] of a class's tally is the number of positions i of that class such that data[i] = y and the previous pixel is x (0 at i = 0). |
| `Transitions.PositionsStep` | main.go:49-56 | One more position adds one to the matching count exactly when it matches. |
| `Transitions.TallyBounded` | main.go:49-55 | No cell counts more transitions than there are positions. |
| `Transitions.GridSumBump` | main.go:52-54 | Counting a transition raises a table's grand total by one. |
| `Transitions.TallyTotal` | main.go:49-55 | The grand total of a class's table is the number of gene bits of that class. |
| `Transitions.TallyPartition` | main.go:49-55 | The totals of a and b add up to the length of the gene. |
| `Transitions.NoWrap` | main.go:52-54 | With fewer than 2^32 positions no cell wraps, so the stored cell is the exact number of matching positions. |
| `Transitions.FourPixelScenario` | main.go:47-57 | For four pixels of value 10 with bits true, false, true, false: a[0][10] = a[10][10] = 1, b[10][10] = 2, and every other cell is 0. |
| `Cdf.RowOf` | main.go:22-24 | Row x of an array table as a sequence of its 256 cells. |
| `Cdf.Scaled` | main.go:31 | An entry is `uint32((sum * MaxUint32) / total)`, where the uint64 product wraps. |
| `Cdf.NormalizedRow` | main.go:22-33 | Normalising keeps the row's length. |
| `Cdf.NormalizedAt` | main.go:29-31 | The entry at column k of a row with positive total is the scaled prefix sum up to and including k. |
| `Cdf.ScaledExact` | main.go:31 | When total * MaxUint32 fits in uint64, the entry is exactly floor(sum * MaxUint32 / total) and at most MaxUint32. |
| `Cdf.NormalizeZeroRow` | main.go:28 | A row of uint32 counts with total 0 is all zero and is left unchanged. |
| `Cdf.NormalizedIsCountRow` | main.go:31 | Every normalised entry fits in uint32. |
| `Cdf.NormalizeMonotone` | main.go:29-32 | Without uint64 overflow, the normalised row is non-decreasing left to right. |
| `Cdf.NormalizeCeiling` | main.go:23-31 | In a row with positive total every entry is at most MaxUint32, whatever the total; without uint64 overflow the last entry is exactly MaxUint32. |
| `Cdf.RowTotal` | main.go:23-26 | The first inner loop returns the row total in uint64 with no overflow. |
| `Cdf.RescaleRow` | main.go:28-32 | The second inner loop rewrites row i into its normalised form and changes no other row. |
| `Cdf.Normalize` | main.go:21-35 | Every row of the table becomes the normalised form of that same row of the input. |
| `Sampling.PickFrom` | main.go:67-72 | The scan from column `from` returns the least column at or after `from` whose value exceeds r, or 0 when there is none. |
| `Sampling.Pick` | main.go:66-72 | The sampled column is the least k with r < row[k] when such a k exists, and 0 otherwise. |
| `Sampling.PickInRange` | main.go:67 | The sampled column always indexes the row. |
| `Sampling.PickFallback` | main.go:66-72 | An all-zero row, or the draw MaxUint32 on a uint32 row, falls back to column 0. |
| `Sampling.PickHasCount` | main.go:29-31 | When the scan of a normalised row does not fall back, the chosen column had a positive count before normalisation. |
| `Sampling.ScaledStep` | main.go:30-31 | A column whose scaled value rises above r, having been at most r, has a positive count. |
| `Sampling.Sample` | main.go:66-72 | The scan with early `break` over row c returns Pick of that row for draw r. |
| `Resynthesis.StoredRow` | main.go:52-54 | Row x of the stored class table is a row of 256 uint32 counts. |
| `Resynthesis.CdfTable` | main.go:59-60 | The normalised class table is a 256 x 256 table. |
| `Resynthesis.Cursor` | main.go:62-82 | The resynthesis cursor before position i is 0 at i = 0 (line 62) and the previous sampled pixel otherwise (lines 73 and 82), always in 0..255. |
| `Resynthesis.Model` | main.go:63-84 | The model buffer has the length of data, and every byte past the gene stays 0, as `make([]byte, len(data))` left it. |
| `Resynthesis.Synth` | main.go:62-84 | The first n samples have length n. |
| `Resynthesis.SynthPrefix` | main.go:64-84 | Later positions never change earlier samples. |
| `Resynthesis.SynthAt` | main.go:65-82 | Sample i is drawn with draw i from the gene-bit-i table, in the row selected by the previous sample (row 0 at i = 0). |
| `Resynthesis.SynthStep` | main.go:73 | The loop appends the pixel picked from the row at the cursor. |
| `Resynthesis.ModelShape` | main.go:62-84 | The model buffer has the length of data. Each gene position holds the sample drawn from the row indexed by the previous model pixel, and every later byte is 0. |
| `Resynthesis.SampleWasObserved` | main.go:47-84 | A sample that did not fall back is an observed transition: some position of the same class in data goes from the previous model pixel to the sampled pixel. |
| `Resynthesis.ObservedFromCount` | main.go:48-57 | A positive stored count has a witnessing position in the walk. |
| `Resynthesis.AllTrueEmptiesClassB` | main.go:53-54 | An all-true gene leaves class b with an all-zero cumulative table, so every class-b sample falls back to 0. |
| `Resynthesis.BuildTables` | main.go:47-60 | Both tables come out as the normalised class tallies. |
| `Resynthesis.Resynthesize` | main.go:62-84 | A fresh buffer of the given size: the first gene-length bytes of the model buffer are Synth over the two cumulative tables, and the remaining bytes are 0. |
| `Resynthesis.SynthesizeModel` | main.go:46-84 | The fresh model buffer `fitness` builds equals Model: counting, normalising and autoregressive resynthesis. |
| `Mask.BuildMask` | main.go:163-170 | A fresh buffer of the pixel count, holding 0 where the gene bit is true and 255 where it is false, and 0 beyond the gene. |
| `Mask.MaskRecoversGene` | main.go:163-170 | A mask as long as the gene gives the gene back: a pixel is black exactly when its bit is true. |
| `Intensity.Intensity` | main.go:125-126 | The intensity byte is the floor of the channel sum divided by 768. |
| `Intensity.EqualChannels` | main.go:125-126 | A gray 8-bit value y, widened to 16 bits by RGBA(), converts back to y. |
| `Intensity.IntensityMonotone` | main.go:125-126 | A pixel that is brighter in every channel is never darker. |

Proof helpers without a row: the prefix-sum lemmas of `Words` (`SumPrefixStep`,
`SumNonNegative`, `SumPrefixMonotone`, `SumZero`, `SumOfZeros`, `SumUpdate`)
and its arithmetic lemmas (`MulMonotone`, `MulCancelLess`, `DivUnique`,
`DivMonotone`, `MulDivCancel`); `Transitions.WrapStep`, `Transitions.Indices`,
`Transitions.CardinalityStep`, `Transitions.SubsetCardinality`,
`Transitions.GridSumZero`; `Sampling.ScaledZero`.

## Left out

- `kc` (main.go:37-44) is not part of this model. It calls an external compression pipeline whose source is not part of this model.
- The NCD line (main.go:86-87) is floating-point arithmetic on compressed lengths.
- `rand.Uint32()` is replaced by the explicit `draws` sequence. Any values in [0, 2^32) may be supplied.
- The genetic-algorithm driver (main.go:143-160) is an external library that evaluates genomes in parallel, so this model has no concurrency.
- Image decoding, resizing, encoding and file handling (main.go:95-141, 171-180) are not modelled. `Intensity.Intensity` covers only the per-pixel arithmetic of line 126. It takes the 16-bit channels that `RGBA()` would return as inputs.
- The package-level globals `data` and `dataComplexity` are parameters. `dataComplexity` only feeds the NCD, so it does not appear at all.
- `Cdf.NormalizeMonotone` and `Cdf.NormalizeCeiling` require the row total to be at most 2^32 + 1, so that `sum * MaxUint32` does not wrap in uint64. Past that bound, `Cdf.Scaled` models the wrap as Go computes it, but nothing is proved about order there.
- `Resynthesis.BuildTables`, `Resynthesis.SynthesizeModel`, `Resynthesis.Resynthesize` and `Mask.BuildMask` require the gene to be no longer than the buffer they index. Go would panic with an index out of range otherwise. In the program they are equal, because the genome has width * height bits.

Two consequences of the code are worth stating on their own:

- Resynthesis conditions each sample on the previously sampled pixel (`model[i], c = pixel, pixel`, lines 73 and 82), so it is autoregressive on its own output.
- The counting cursor starts at 0, so position 0 counts the transition 0 -> data[0]. For `[10, 10, 10, 10]` with bits `[true, false, true, false]`, the tables hold a[0][10] = a[10][10] = 1 and b[10][10] = 2, and every other cell is 0 (`Transitions.FourPixelScenario`).
