/**
 * `src/core/canvas.rs`: a `width` by `height` grid of colours, stored column-major as
 * `pixels[x][y]`, with a bounds-checked read and an in-place, bounds-checked write.
 */
module CoreCanvas {
  import opened Wrappers
  import opened CoreColor

  /** `Err`: the only failure of a canvas operation. */
  datatype CanvasError = OutOfBounds

  /** `pixels` has `width` columns of `height` pixels each. */
  predicate Shaped(pixels: seq<seq<Color>>, width: nat, height: nat) {
    |pixels| == width && forall x :: 0 <= x < width ==> |pixels[x]| == height
  }

  /** The buffer `vec![vec![black; height]; width]` that `new` allocates. */
  function Blank(width: nat, height: nat): (pixels: seq<seq<Color>>)
    ensures Shaped(pixels, width, height)
  {
    seq(width, _ => seq(height, _ => Black()))
  }

  /** The buffer after the single pixel `(x, y)` is overwritten with `c`. */
  function Painted(pixels: seq<seq<Color>>, x: nat, y: nat, c: Color): seq<seq<Color>>
    requires x < |pixels| && y < |pixels[x]|
  {
    pixels[x := pixels[x][y := c]]
  }

  /** Every pixel of a blank buffer is black. */
  lemma BlankIsBlack(width: nat, height: nat, x: nat, y: nat)
    requires x < width && y < height
    ensures Blank(width, height)[x][y] == Black()
  {
  }

  /** Painting keeps the shape, stores `c` at `(x, y)` and leaves every other pixel as it was. */
  lemma PaintedChangesOnePixel(pixels: seq<seq<Color>>, width: nat, height: nat,
                               x: nat, y: nat, c: Color, i: nat, j: nat)
    requires Shaped(pixels, width, height) && x < width && y < height
    requires i < width && j < height
    ensures Shaped(Painted(pixels, x, y, c), width, height)
    ensures Painted(pixels, x, y, c)[i][j] == if i == x && j == y then c else pixels[i][j]
  {
  }

  /** `Canvas`: its buffer is replaced in place by `set_pixel`. */
  class Canvas {
    var width: nat
    var height: nat
    var pixels: seq<seq<Color>>

    ghost predicate Valid()
      reads this
    {
      Shaped(pixels, width, height)
    }

    /** `new`: stores the dimensions and starts with every pixel black. */
    constructor (width: nat, height: nat)
      ensures Valid()
      ensures this.width == width && this.height == height
      ensures pixels == Blank(width, height)
    {
      this.width := width;
      this.height := height;
      pixels := Blank(width, height);
    }

    /** `pixel_at`: the colour at `(x, y)`, or nothing outside the canvas. */
    function PixelAt(x: nat, y: nat): (r: Option<Color>)
      reads this
      requires Valid()
      ensures r.Some? <==> x < width && y < height
      ensures r.Some? ==> r.value == pixels[x][y]
    {
      if x < width && y < height then Some(pixels[x][y]) else None
    }

    /**
     * `set_pixel`: overwrites one pixel inside the canvas and reports `OutOfBounds`,
     * changing nothing, outside it.
     */
    method SetPixel(x: nat, y: nat, c: Color) returns (r: Result<(), CanvasError>)
      requires Valid()
      modifies this
      ensures Valid()
      ensures width == old(width) && height == old(height)
      ensures r.Ok? <==> x < old(width) && y < old(height)
      ensures r.Ok? ==> pixels == Painted(old(pixels), x, y, c) && PixelAt(x, y) == Some(c)
      ensures r.Err? ==> r.error == OutOfBounds && pixels == old(pixels)
    {
      if x < width && y < height {
        pixels := pixels[x := pixels[x][y := c]];
        r := Ok(());
      } else {
        r := Err(OutOfBounds);
      }
    }
  }
}
