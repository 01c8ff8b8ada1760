/**
 The output mask of the best genome (main.go:163-170): a zeroed buffer of
 width * height bytes, then one byte per gene bit, 0 (black) for class true
 and 255 (white) for class false.
 */
module Mask {
  import opened Words

  /**
   size is the pixel count the buffer is made with; Go indexes it by the gene
   positions, so the gene may not be longer.
   */
  method BuildMask(size: nat, gene: seq<bool>) returns (pixels: array<uint8>)
    requires |gene| <= size
    ensures fresh(pixels) && pixels.Length == size
    ensures forall i :: 0 <= i < |gene| ==> pixels[i] == if gene[i] then 0 else 255
    ensures forall i :: |gene| <= i < size ==> pixels[i] == 0
  {
    pixels := new uint8[size](_ => 0);
    for i := 0 to |gene|
      invariant forall k :: 0 <= k < i ==> pixels[k] == if gene[k] then 0 else 255
      invariant forall k :: i <= k < size ==> pixels[k] == 0
    {
      if gene[i] {
        pixels[i] := 0;
      } else {
        pixels[i] := 255;
      }
    }
  }

  /**
   Reading the mask back: when the gene covers every pixel, as it does for the
   genome of width * height bits, a pixel is class true exactly when it is black.
   */
  lemma MaskRecoversGene(gene: seq<bool>, pixels: seq<uint8>)
    requires |pixels| == |gene|
    requires forall i :: 0 <= i < |gene| ==> pixels[i] == if gene[i] then 0 else 255
    ensures forall i :: 0 <= i < |gene| ==> (pixels[i] == 0 <==> gene[i])
    ensures pixels == seq(|gene|, i requires 0 <= i < |gene| => if gene[i] then 0 else 255)
  {
  }
}
