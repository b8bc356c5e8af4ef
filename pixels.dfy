/**
 * Packed 32-bit ARGB pixels: the grayscale packing of a 12-bit intensity and the red/blue
 * stereo combination of two packed pixels. A pixel is the unsigned reading of the Java
 * `int` bit pattern, so `0xFF000000 + ...` never wraps here.
 */
module Pixels {
  import opened WordCodec

  /** The four 8-bit lanes of a packed pixel, from the top (alpha) down to blue. */
  function Alpha(p: int): int { p / 0x100 / 0x100 / 0x100 % 0x100 }
  function Red(p: int): int { p / 0x100 / 0x100 % 0x100 }
  function Green(p: int): int { p / 0x100 % 0x100 }
  function Blue(p: int): int { p % 0x100 }

  /** Appending a byte below a number: the byte is the remainder, the number the quotient. */
  lemma ShiftInByte(x: int, y: int)
    requires 0 <= y < 0x100
    ensures (x * 0x100 + y) / 0x100 == x && (x * 0x100 + y) % 0x100 == y
  {
  }

  /** A pixel from its four lanes: `(a << 24) + (r << 16) + (g << 8) + b`. */
  function Pack(a: int, r: int, g: int, b: int): (p: int)
    requires 0 <= a < 0x100 && 0 <= r < 0x100 && 0 <= g < 0x100 && 0 <= b < 0x100
    ensures 0 <= p < 0x1_0000_0000
    ensures Alpha(p) == a && Red(p) == r && Green(p) == g && Blue(p) == b
  {
    var ar := a * 0x100 + r;
    var arg := ar * 0x100 + g;
    ShiftInByte(a, r);
    ShiftInByte(ar, g);
    ShiftInByte(arg, b);
    ShiftInByte(0, a);
    arg * 0x100 + b
  }

  /** How the bit fields of a 12-bit intensity relate to each other. */
  lemma IntensityFields(i: int)
    requires 0 <= i <= MAX_INTENSITY
    ensures i / 64 % 64 == i / 64
    ensures i % 64 % 4 == i % 4
    ensures i % 64 / 4 % 4 == i / 4 % 4
    ensures i / 64 * 4 + i % 64 / 16 % 4 == i / 16
    ensures i == i / 16 * 16 + i / 4 % 4 * 4 + i % 4
  {
    LowBits(i);
    BlueBits(i);
    Digits(i);
  }

  /** The two-bit slices of the six low bits are those of the whole intensity. */
  lemma LowBits(i: int)
    requires 0 <= i <= MAX_INTENSITY
    ensures i % 64 % 4 == i % 4
    ensures i % 64 / 4 % 4 == i / 4 % 4
  {
    var q, m := i / 64, i % 64;
    assert i == q * 64 + m;
    assert i / 4 == q * 16 + m / 4;
  }

  /** The six high bits and bits 4-5 together are the eight high bits. */
  lemma BlueBits(i: int)
    requires 0 <= i <= MAX_INTENSITY
    ensures i / 64 * 4 + i % 64 / 16 % 4 == i / 16
  {
    var q, m := i / 64, i % 64;
    assert i == q * 64 + m;
    assert i / 16 == q * 4 + m / 16;
  }

  /** An intensity is its eight high bits, then bits 2-3, then bits 0-1. */
  lemma Digits(i: int)
    requires 0 <= i <= MAX_INTENSITY
    ensures i == i / 16 * 16 + i / 4 % 4 * 4 + i % 4
  {
    var q := i / 4;
    assert i == q * 4 + i % 4;
    assert q == q / 4 * 4 + q % 4;
    assert i / 16 == q / 4;
  }

  /**
   * Packs an intensity, clamped into [0, 4095], as a nearly gray opaque pixel: each colour
   * lane holds the six high bits of the intensity shifted left by two, plus a two-bit slice
   * of the six low bits (bits 0-1 in red, 2-3 in green, 4-5 in blue).
   * The channel argument plays no part.
   */
  function GrayScale(realChannel: int, intensity: int): (p: int)
    ensures 0 <= p < 0x1_0000_0000
    ensures Alpha(p) == 0xFF
    ensures Red(p) == Clamp(intensity) / 64 * 4 + Clamp(intensity) % 4
    ensures Green(p) == Clamp(intensity) / 64 * 4 + Clamp(intensity) / 4 % 4
    ensures Blue(p) == Clamp(intensity) / 16
  {
    var i := Clamp(intensity);
    var highSix := (i / 64) % 64 * 4;
    var lowSix := i % 64;
    var r := lowSix % 4;
    var g := lowSix / 4 % 4;
    var b := lowSix / 16 % 4;
    IntensityFields(i);
    Pack(0xFF, highSix + r, highSix + g, highSix + b)
  }

  /**
   * Reads a 12-bit intensity back out of a pixel made by GrayScale: the blue lane carries
   * its eight high bits, the low two bits of green and of red the rest.
   */
  function GrayLevel(p: int): (i: int)
    ensures 0 <= i <= MAX_INTENSITY
  {
    Blue(p) * 16 + Green(p) % 4 * 4 + Red(p) % 4
  }

  /** Appending two bits below a number leaves them as the remainder modulo 4. */
  lemma ShiftInQuarter(x: int, y: int)
    requires 0 <= y < 4
    ensures (x * 4 + y) % 4 == y
  {
  }

  /** The packing is lossless on the clamped intensity. */
  lemma GrayScaleLossless(realChannel: int, intensity: int)
    ensures GrayLevel(GrayScale(realChannel, intensity)) == Clamp(intensity)
  {
    var i := Clamp(intensity);
    var p := GrayScale(realChannel, intensity);
    IntensityFields(i);
    ShiftInQuarter(i / 64, i / 4 % 4);
    ShiftInQuarter(i / 64, i % 4);
    assert Green(p) % 4 == i / 4 % 4;
    assert Red(p) % 4 == i % 4;
  }

  /** Two intensities in range pack to the same pixel only if they are equal, whatever the channels. */
  lemma GrayScaleInjective(c1: int, i1: int, c2: int, i2: int)
    requires 0 <= i1 <= MAX_INTENSITY && 0 <= i2 <= MAX_INTENSITY
    requires GrayScale(c1, i1) == GrayScale(c2, i2)
    ensures i1 == i2
  {
    GrayScaleLossless(c1, i1);
    GrayScaleLossless(c2, i2);
  }

  /** The packed pixel does not depend on the channel it is packed for. */
  lemma GrayScaleChannelFree(c1: int, c2: int, intensity: int)
    ensures GrayScale(c1, intensity) == GrayScale(c2, intensity)
  {
  }

  /**
   * A red/blue stereo pixel: opaque, the low byte of the right pixel in the red lane,
   * nothing in green, the low byte of the left pixel in the blue lane. `x & 0xFF` on a
   * two's-complement int is `x % 256`, so negative Java pixels are covered too.
   */
  function CombinePixels(left: int, right: int, realChannel: int): (p: int)
    ensures 0 <= p < 0x1_0000_0000
    ensures Alpha(p) == 0xFF && Green(p) == 0
    ensures Red(p) == Blue(right) && Blue(p) == Blue(left)
  {
    var intensityLeft := left % 0x100;
    var intensityRight := right % 0x100;
    Pack(0xFF, intensityRight, 0, intensityLeft)
  }

  /**
   * Combining two grayscale pixels puts the eight high bits of the right intensity in red
   * and those of the left intensity in blue, whatever the channels.
   */
  lemma CombineGrayScale(cl: int, il: int, cr: int, ir: int, c: int)
    ensures Alpha(CombinePixels(GrayScale(cl, il), GrayScale(cr, ir), c)) == 0xFF
    ensures Red(CombinePixels(GrayScale(cl, il), GrayScale(cr, ir), c)) == Clamp(ir) / 16
    ensures Green(CombinePixels(GrayScale(cl, il), GrayScale(cr, ir), c)) == 0
    ensures Blue(CombinePixels(GrayScale(cl, il), GrayScale(cr, ir), c)) == Clamp(il) / 16
  {
  }

  /** Left byte 0x10 and right byte 0x20 combine to 0xFF200010. */
  lemma CombineExample(c: int)
    ensures CombinePixels(0x10, 0x20, c) == 0xFF20_0010
  {
    assert 0x10 % 0x100 == 0x10 && 0x20 % 0x100 == 0x20;
    assert Pack(0xFF, 0x20, 0, 0x10) == 0xFF20_0010;
  }
}
