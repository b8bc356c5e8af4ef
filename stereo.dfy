/**
 * The pixel loop of stereo knitting: one row of the left image is overwritten, pixel by
 * pixel, with the red/blue combination of itself and the same row of the right image.
 */
module Stereo {
  import opened Pixels

  /**
   * Combines the first `width` pixels of `left` with those of `right` in place. The two
   * arrays may be the same one: each pixel is read before it is written, so the result is
   * still the combination of the old pixels.
   */
  method KnitRow(left: array<int>, right: array<int>, width: nat, realChannel: int)
    requires width <= left.Length && width <= right.Length
    modifies left
    ensures forall p :: 0 <= p < width ==>
      left[p] == CombinePixels(old(left[p]), old(right[p]), realChannel)
    ensures forall p :: width <= p < left.Length ==> left[p] == old(left[p])
  {
    var pixel := 0;
    while pixel < width
      invariant 0 <= pixel <= width
      invariant forall p :: 0 <= p < pixel ==>
        left[p] == CombinePixels(old(left[p]), old(right[p]), realChannel)
      invariant forall p :: pixel <= p < left.Length ==> left[p] == old(left[p])
      invariant forall p :: pixel <= p < right.Length ==> right[p] == old(right[p])
    {
      left[pixel] := CombinePixels(left[pixel], right[pixel], realChannel);
      pixel := pixel + 1;
    }
  }
}
