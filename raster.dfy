/**
 * Decoded images as the handler of app.py sees them: 8-bit channels, a
 * three-channel pixel stored as a triple, a single-channel image for the
 * output of the luminance conversion, and the two pieces of channel
 * plumbing that are this program's own: the BGR/RGB swap (a reversal of
 * the triple) and the re-expansion of one channel into three.
 */
module Raster {

  /** The value of one channel of a uint8 image. */
  newtype uint8 = x: int | 0 <= x < 256

  /** One pixel of a three-channel image, channels in storage order. */
  datatype Pixel = Pixel(first: uint8, second: uint8, third: uint8)

  /** A width-by-height raster stored row-major. */
  datatype Grid<T> = Grid(width: nat, height: nat, cells: seq<T>)

  type Image = Grid<Pixel>
  type GrayImage = Grid<uint8>

  /** The declared dimensions agree with the number of stored cells. */
  predicate WellFormed<T>(g: Grid<T>) {
    |g.cells| == g.width * g.height
  }

  /** `cvtColor` with `COLOR_BGR2RGB` or `COLOR_RGB2BGR` on one pixel. */
  function SwapPixel(p: Pixel): (q: Pixel)
    ensures q.first == p.third && q.second == p.second && q.third == p.first
  {
    Pixel(p.third, p.second, p.first)
  }

  /** `cvtColor` with `COLOR_BGR2RGB` or `COLOR_RGB2BGR`: every pixel's triple reversed. */
  function SwapChannels(img: Image): (r: Image)
    ensures r.width == img.width && r.height == img.height && |r.cells| == |img.cells|
    ensures WellFormed(r) <==> WellFormed(img)
    ensures forall i :: 0 <= i < |img.cells| ==>
      r.cells[i].first == img.cells[i].third &&
      r.cells[i].second == img.cells[i].second &&
      r.cells[i].third == img.cells[i].first
  {
    Grid(img.width, img.height, seq(|img.cells|, i requires 0 <= i < |img.cells| => SwapPixel(img.cells[i])))
  }

  /** Swapping twice restores every pixel. */
  lemma SwapChannelsInvolution(img: Image)
    ensures SwapChannels(SwapChannels(img)) == img
  {
    var twice := SwapChannels(SwapChannels(img));
    assert twice.cells == img.cells;
  }

  /** A pixel none of whose channels differ. */
  predicate IsGrayPixel(p: Pixel) {
    p.first == p.second == p.third
  }

  /** `cvtColor` with `COLOR_GRAY2RGB`: the single value copied into all three channels. */
  function ExpandGray(g: GrayImage): (r: Image)
    ensures r.width == g.width && r.height == g.height && |r.cells| == |g.cells|
    ensures WellFormed(r) <==> WellFormed(g)
    ensures forall i :: 0 <= i < |g.cells| ==>
      IsGrayPixel(r.cells[i]) && r.cells[i].first == g.cells[i]
  {
    Grid(g.width, g.height, seq(|g.cells|, i requires 0 <= i < |g.cells| => Pixel(g.cells[i], g.cells[i], g.cells[i])))
  }

  /** Swapping the channels of an image of gray pixels changes nothing. */
  lemma {:induction false} SwapFixesGray(img: Image)
    requires forall i :: 0 <= i < |img.cells| ==> IsGrayPixel(img.cells[i])
    ensures SwapChannels(img) == img
  {
    var s := SwapChannels(img);
    forall i | 0 <= i < |img.cells|
      ensures s.cells[i] == img.cells[i]
    {
      assert IsGrayPixel(img.cells[i]);
    }
    assert s.cells == img.cells;
  }
}
