/** The drawing layer: a grid of straight-alpha RGBA pixels, stored row by row.
    Everything the canvas API does to this layer is reduced here to the two
    operations the session uses: painting a set of covered pixels with one ink,
    and covering the whole layer with one ink (a full-size fillRect). */
module Pixels {

  type Byte = x: int | 0 <= x < 256

  /** A colour as the colour picker yields it: three 8-bit channels, no alpha. */
  datatype Colour = Colour(red: Byte, green: Byte, blue: Byte)

  /** One pixel of the drawing layer; alpha 0 means "unpainted, background visible". */
  datatype Pixel = Pixel(red: Byte, green: Byte, blue: Byte, alpha: Byte)

  /** The value of every pixel of a freshly sized canvas, and of an erased one. */
  const Transparent: Pixel := Pixel(0, 0, 0, 0)

  /** A picked colour laid down at full opacity, as strokes and fills do. */
  function Opaque(c: Colour): (p: Pixel) {
    Pixel(c.red, c.green, c.blue, 255)
  }

  /** A pixel address: column x, row y. */
  datatype Point = Point(x: int, y: int)

  /** Rows of pixels; row y holds the pixels (0, y) .. (width - 1, y). */
  type Layer = seq<seq<Pixel>>

  predicate IsGrid(l: Layer, w: nat, h: nat) {
    |l| == h && forall y :: 0 <= y < h ==> |l[y]| == w
  }

  /** Two layers have the same row count and the same row lengths. */
  predicate SameShape(a: Layer, b: Layer) {
    |a| == |b| && forall y :: 0 <= y < |a| ==> |a[y]| == |b[y]|
  }

  /** A w-by-h layer with nothing painted on it. */
  function Blank(w: nat, h: nat): (l: Layer)
    ensures IsGrid(l, w, h)
    ensures forall y, x :: 0 <= y < h && 0 <= x < w ==> l[y][x] == Transparent
  {
    seq(h, _ => seq(w, _ => Transparent))
  }

  /** The layer after a stroke segment has covered the pixels in `covered`
      with `ink`; covered points outside the layer are clipped away. */
  function Paint(l: Layer, covered: set<Point>, ink: Pixel): (r: Layer)
    ensures SameShape(r, l)
    ensures forall y, x :: 0 <= y < |l| && 0 <= x < |l[y]| ==>
      r[y][x] == (if Point(x, y) in covered then ink else l[y][x])
  {
    seq(|l|, y requires 0 <= y < |l| =>
      seq(|l[y]|, x requires 0 <= x < |l[y]| =>
        if Point(x, y) in covered then ink else l[y][x]))
  }

  /** The layer after one rectangle spanning all of it has been filled with `ink`. */
  function FillAll(l: Layer, ink: Pixel): (r: Layer)
    ensures SameShape(r, l)
    ensures forall y, x :: 0 <= y < |l| && 0 <= x < |l[y]| ==> r[y][x] == ink
  {
    seq(|l|, y requires 0 <= y < |l| => seq(|l[y]|, _ => ink))
  }

  lemma SameShapeGrid(a: Layer, b: Layer, w: nat, h: nat)
    requires SameShape(a, b) && IsGrid(b, w, h)
    ensures IsGrid(a, w, h)
  {
  }

  /** Painting a set that covers every pixel of the layer is the same as
      filling the whole layer: a full-size fill is a stroke that misses nothing. */
  lemma {:induction false} PaintEverywhereIsFill(l: Layer, covered: set<Point>, ink: Pixel)
    requires forall y, x :: 0 <= y < |l| && 0 <= x < |l[y]| ==> Point(x, y) in covered
    ensures Paint(l, covered, ink) == FillAll(l, ink)
  {
    var p := Paint(l, covered, ink);
    var f := FillAll(l, ink);
    forall y | 0 <= y < |l|
      ensures p[y] == f[y]
    {
      assert |p[y]| == |f[y]|;
      forall x | 0 <= x < |l[y]|
        ensures p[y][x] == f[y][x]
      {
        assert Point(x, y) in covered;
      }
    }
  }

  /** A stroke segment that covers no pixel leaves the layer as it was. */
  lemma {:induction false} PaintNothing(l: Layer, ink: Pixel)
    ensures Paint(l, {}, ink) == l
  {
    var p := Paint(l, {}, ink);
    forall y | 0 <= y < |l|
      ensures p[y] == l[y]
    {
      assert |p[y]| == |l[y]|;
    }
  }

  /** Filling forgets the previous contents: two layers of one shape fill to
      the same result, so a second fill with the same ink changes nothing. */
  lemma {:induction false} FillForgetsContents(a: Layer, b: Layer, ink: Pixel)
    requires SameShape(a, b)
    ensures FillAll(a, ink) == FillAll(b, ink)
    ensures FillAll(FillAll(a, ink), ink) == FillAll(a, ink)
  {
    var fa := FillAll(a, ink);
    var fb := FillAll(b, ink);
    forall y | 0 <= y < |a|
      ensures fa[y] == fb[y]
    {
      assert |fa[y]| == |fb[y]|;
    }
    var ff := FillAll(fa, ink);
    forall y | 0 <= y < |a|
      ensures ff[y] == fa[y]
    {
      assert |ff[y]| == |fa[y]|;
    }
  }

  /** Clearing a w-by-h layer gives the blank w-by-h layer. */
  lemma {:induction false} ClearedIsBlank(l: Layer, w: nat, h: nat)
    requires IsGrid(l, w, h)
    ensures FillAll(l, Transparent) == Blank(w, h)
  {
    var c := FillAll(l, Transparent);
    var b := Blank(w, h);
    forall y | 0 <= y < h
      ensures c[y] == b[y]
    {
      assert |c[y]| == |b[y]|;
    }
  }
}
