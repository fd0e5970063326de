/** Decoded images and the orientation transform applied to them.

    A decoded frame is a rectangular grid of pixels, row by row (a `cv::Mat`
    with `rows` rows and `cols` columns). The streamer's "invert" option rotates
    the frame by 180 degrees with two calls of `cv::flip`: flip code 0 (around
    the x-axis, reversing the order of the rows), then flip code 1 (around the
    y-axis, reversing every row). */
module ImageOps {

  /** One 8-bit channel value. */
  newtype Byte = x: int | 0 <= x < 256

  /** A pixel of the canonical 3-channel 8-bit ("bgr8") layout. */
  datatype Pixel = Pixel(blue: Byte, green: Byte, red: Byte)

  predicate IsRectangular(g: seq<seq<Pixel>>) {
    forall i :: 0 <= i < |g| ==> |g[i]| == |g[0]|
  }

  /** A decoded image: every row has the same number of columns. */
  type Image = g: seq<seq<Pixel>> | IsRectangular(g)

  function Rows(g: Image): nat {
    |g|
  }

  function Cols(g: Image): nat {
    if |g| == 0 then 0 else |g[0]|
  }

  /** The sequence read back to front. */
  function Reverse<T>(s: seq<T>): (r: seq<T>)
    ensures |r| == |s|
    ensures forall i :: 0 <= i < |s| ==> r[i] == s[|s| - 1 - i]
  {
    if s == [] then [] else Reverse(s[1..]) + [s[0]]
  }

  /** `cv::flip(img, img, 0)`: mirror around the horizontal axis. */
  function FlipAroundX(g: Image): (r: Image)
    ensures Rows(r) == Rows(g) && Cols(r) == Cols(g)
    ensures forall i :: 0 <= i < Rows(g) ==> r[i] == g[Rows(g) - 1 - i]
  {
    Reverse(g)
  }

  /** `cv::flip(img, img, 1)`: mirror around the vertical axis. */
  function FlipAroundY(g: Image): (r: Image)
    ensures Rows(r) == Rows(g) && Cols(r) == Cols(g)
    ensures forall i :: 0 <= i < Rows(g) ==> r[i] == Reverse(g[i])
  {
    seq(|g|, i requires 0 <= i < |g| => Reverse(g[i]))
  }

  /** The 180-degree rotation of the "invert" option: pixel (i, j) of the
      result is pixel (rows-1-i, cols-1-j) of the input. */
  function Rotate180(g: Image): (r: Image)
    ensures Rows(r) == Rows(g) && Cols(r) == Cols(g)
    ensures forall i, j :: 0 <= i < Rows(g) && 0 <= j < Cols(g) ==>
      r[i][j] == g[Rows(g) - 1 - i][Cols(g) - 1 - j]
  {
    FlipAroundY(FlipAroundX(g))
  }

  /** Rotating twice by 180 degrees gives back the original frame. */
  lemma Rotate180Twice(g: Image)
    ensures Rotate180(Rotate180(g)) == g
  {
    var r := Rotate180(Rotate180(g));
    assert |r| == |g|;
    forall i | 0 <= i < |g|
      ensures r[i] == g[i]
    {
      assert |r[i]| == |g[i]| == Cols(g);
    }
  }
}
