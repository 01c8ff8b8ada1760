/**
 The conversion of one image pixel to an intensity byte (main.go:126):
 the three 16-bit channels that Go's RGBA() returns are summed in uint32,
 divided by 3 * 256 and truncated to a byte.
 */
module Intensity {
  import opened Words

  /** Go's byte((r + g + b) / (3 * 256)), with both wrap-arounds written out. */
  function Intensity(r: uint32, g: uint32, b: uint32): (v: uint8)
    requires r <= 0xFFFF && g <= 0xFFFF && b <= 0xFFFF
    ensures v as int == (r as int + g as int + b as int) / 768
  {
    (((r as int + g as int + b as int) % Two32 / 768) % 0x100) as uint8
  }

  /**
   A pixel whose three channels all carry the 8-bit value y (RGBA() widens y
   to y * 0x101) keeps the intensity y: the division truncates nothing away.
   */
  lemma EqualChannels(y: uint8)
    ensures Intensity(y as uint32 * 0x101, y as uint32 * 0x101, y as uint32 * 0x101) == y
  {
    var w := y as int * 0x101;
    assert 3 * w == 768 * (y as int) + 3 * (y as int);
    DivUnique(3 * w, 768, y as int);
  }

  /** A brighter pixel in every channel is never darker. */
  lemma IntensityMonotone(r: uint32, g: uint32, b: uint32, r': uint32, g': uint32, b': uint32)
    requires r <= r' <= 0xFFFF && g <= g' <= 0xFFFF && b <= b' <= 0xFFFF
    ensures Intensity(r, g, b) <= Intensity(r', g', b')
  {
  }
}
