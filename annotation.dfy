/** Annotation of kreise1.py: the detector's circles are rounded to the nearest
    integer (ties to even, as `np.around` does), cast to unsigned 16-bit
    integers, turned into the bounding box of an ellipse with uint16
    arithmetic, and drawn one by one onto a copy of the uploaded picture. The
    ellipse drawer raises on a reversed box, which ends the loop early.

    The detector itself is not modelled: its output enters as an arbitrary
    sequence of rational triples. A detector that finds nothing (`None`) is
    the empty sequence here; the script then draws nothing. */
module Annotation {

  /** 2^16: uint16 values and uint16 arithmetic live modulo this. */
  const Modulus: int := 65536

  type U16 = x: int | 0 <= x < Modulus

  type Byte = x: int | 0 <= x < 256

  /** Reduction of an integer into uint16, as numpy's uint16 addition and
      subtraction wrap around. Stated for the ranges a sum or difference of
      two uint16 values can take. */
  function Wrap(x: int): (w: U16)
    ensures 0 <= x < Modulus ==> w == x
    ensures -Modulus <= x < 0 ==> w == x + Modulus
    ensures Modulus <= x < 2 * Modulus ==> w == x - Modulus
  {
    x % Modulus
  }

  /** An integer within half a pixel of a reported coordinate. */
  predicate Near(n: int, v: real) {
    n as real - v <= 0.5 && v - n as real <= 0.5
  }

  /** `np.around` with no decimals: the nearest integer, and the even one of
      the two when `v` lies exactly half-way between them. */
  function RoundHalfEven(v: real): (n: int)
    ensures Near(n, v)
    ensures n as real - v == 0.5 || v - n as real == 0.5 ==> n % 2 == 0
  {
    var f := v.Floor;
    var frac := v - f as real;
    if frac < 0.5 then f
    else if frac > 0.5 then f + 1
    else if f % 2 == 0 then f
    else f + 1
  }

  /** One circle as the detector reports it: centre and radius in pixels,
      not yet rounded. */
  datatype Detection = Detection(x: real, y: real, r: real)

  /** One circle after `np.uint16(np.around(...))`. */
  datatype Circle = Circle(x: U16, y: U16, r: U16)

  /** Rounding then casting one detection (kreise1.py, line 47). A coordinate
      whose rounded value fits in uint16 comes out as that rounded value, the
      nearest integer with ties to even; one that does not wraps modulo 2^16. */
  function ToCircle(d: Detection): (c: Circle)
    ensures 0.0 <= d.x < 65535.5 ==> c.x == RoundHalfEven(d.x)
    ensures 0.0 <= d.y < 65535.5 ==> c.y == RoundHalfEven(d.y)
    ensures 0.0 <= d.r < 65535.5 ==> c.r == RoundHalfEven(d.r)
  {
    Circle(Wrap(RoundHalfEven(d.x)), Wrap(RoundHalfEven(d.y)), Wrap(RoundHalfEven(d.r)))
  }

  /** The rectangle `[(x0, y0), (x1, y1)]` handed to the ellipse drawer. */
  datatype Box = Box(x0: U16, y0: U16, x1: U16, y1: U16)

  /** `[(x - r, y - r), (x + r, y + r)]` on uint16 values (kreise1.py,
      line 49). Each corner is the uint16 value that lands back on the centre
      when the radius is added or taken away again; when no corner wraps the
      box is the square of side 2r centred on (x, y). */
  function BoundingBox(c: Circle): (b: Box)
    ensures Wrap(b.x0 + c.r) == c.x && Wrap(b.y0 + c.r) == c.y
    ensures Wrap(b.x1 - c.r) == c.x && Wrap(b.y1 - c.r) == c.y
    ensures c.r <= c.x && c.r <= c.y && c.x + c.r < Modulus && c.y + c.r < Modulus ==>
              b.x1 - b.x0 == 2 * c.r && b.y1 - b.y0 == 2 * c.r &&
              b.x0 + b.x1 == 2 * c.x && b.y0 + b.y1 == 2 * c.y
  {
    Box(Wrap(c.x - c.r), Wrap(c.y - c.r), Wrap(c.x + c.r), Wrap(c.y + c.r))
  }

  /** A circle that reaches past the left or top image edge has its first
      corner wrapped to the far end of the uint16 range, beyond the centre;
      one whose right or bottom edge passes 65535 has its second corner
      wrapped to before the centre. */
  lemma WrappedCorners(c: Circle)
    ensures c.x < c.r ==> BoundingBox(c).x0 == c.x - c.r + Modulus > c.x
    ensures c.y < c.r ==> BoundingBox(c).y0 == c.y - c.r + Modulus > c.y
    ensures Modulus <= c.x + c.r ==> BoundingBox(c).x1 == c.x + c.r - Modulus < c.x
    ensures Modulus <= c.y + c.r ==> BoundingBox(c).y1 == c.y + c.r - Modulus < c.y
  {
  }

  /** The ellipse drawer accepts a box only when its second corner is not
      to the left of or above its first; otherwise it raises `ValueError`. */
  predicate Drawable(b: Box) {
    b.x0 <= b.x1 && b.y0 <= b.y1
  }

  /** A circle whose box wraps at no corner can always be drawn. */
  lemma UnwrappedIsDrawable(c: Circle)
    requires c.r <= c.x && c.r <= c.y && c.x + c.r < Modulus && c.y + c.r < Modulus
    ensures Drawable(BoundingBox(c))
  {
  }

  /** A circle reaching past the left or the top edge by less than half the
      uint16 range, and not past 65535 on the opposite side, gets a reversed
      box, which the ellipse drawer refuses. */
  lemma EdgeWrapIsNotDrawable(c: Circle)
    ensures c.x < c.r < Modulus / 2 && c.x + c.r < Modulus ==> !Drawable(BoundingBox(c))
    ensures c.y < c.r < Modulus / 2 && c.y + c.r < Modulus ==> !Drawable(BoundingBox(c))
  {
  }

  /** A circle of radius 20 centred 10 pixels from the left edge: its box has
      the first corner to the right of the second. */
  lemma WrappedBoxExample()
    ensures BoundingBox(ToCircle(Detection(10.4, 40.0, 19.5))) == Box(65526, 20, 30, 60)
    ensures !Drawable(BoundingBox(ToCircle(Detection(10.4, 40.0, 19.5))))
  {
  }

  /** Rounding is determined by its contract: the only integer within half a
      pixel, or the even one of two at exactly half a pixel. */
  lemma RoundHalfEvenUnique(v: real, n: int)
    requires Near(n, v)
    requires n as real - v == 0.5 || v - n as real == 0.5 ==> n % 2 == 0
    ensures RoundHalfEven(v) == n
  {
  }

  /** Outline colour and width (kreise1.py, line 49). */
  datatype Rgb = Rgb(red: Byte, green: Byte, blue: Byte)
  const Red: Rgb := Rgb(255, 0, 0)
  const OutlineWidth: nat := 2

  /** An unfilled ellipse drawn into a picture. */
  datatype Outline = Outline(box: Box, colour: Rgb, width: nat)

  /** What the loop body draws for one detection. */
  function Mark(d: Detection): Outline {
    Outline(BoundingBox(ToCircle(d)), Red, OutlineWidth)
  }

  /** The outlines drawn for a detector result, in detector order. */
  function Outlines(ds: seq<Detection>): (os: seq<Outline>)
    ensures |os| == |ds|
  {
    if ds == [] then [] else Outlines(ds[..|ds| - 1]) + [Mark(ds[|ds| - 1])]
  }

  /** One outline per detection, the i-th drawn for the i-th detection. */
  lemma {:induction false} OutlinesAt(ds: seq<Detection>, i: nat)
    requires i < |ds|
    ensures Outlines(ds)[i] == Mark(ds[i])
  {
    if i < |ds| - 1 {
      OutlinesAt(ds[..|ds| - 1], i);
    }
  }

  /** Drawing two detector results one after the other draws the outlines
      of their concatenation. */
  lemma {:induction false} OutlinesAppend(a: seq<Detection>, b: seq<Detection>)
    ensures Outlines(a + b) == Outlines(a) + Outlines(b)
  {
    if b != [] {
      var last := |b| - 1;
      assert (a + b)[..|a + b| - 1] == a + b[..last];
      OutlinesAppend(a, b[..last]);
    } else {
      assert a + b == a;
    }
  }

  /** How many outlines the loop draws before the ellipse drawer raises:
      the index of the first reversed box, or all of them. */
  function FirstReversed(os: seq<Outline>): (k: nat)
    ensures k <= |os|
    ensures forall i :: 0 <= i < k ==> Drawable(os[i].box)
    ensures k < |os| ==> !Drawable(os[k].box)
  {
    if os == [] || !Drawable(os[0].box) then 0
    else
      assert forall i :: 1 <= i < |os| ==> os[1..][i - 1] == os[i];
      1 + FirstReversed(os[1..])
  }

  /** The count is fixed by its contract: the drawable prefix ending at the
      first reversed box, or at the end. */
  lemma FirstReversedUnique(os: seq<Outline>, k: nat)
    requires k <= |os|
    requires forall i :: 0 <= i < k ==> Drawable(os[i].box)
    requires k < |os| ==> !Drawable(os[k].box)
    ensures FirstReversed(os) == k
  {
  }

  /** The outline drawn for a detection whose circle does not wrap is drawable. */
  lemma UnwrappedMarkIsDrawable(ds: seq<Detection>, i: nat)
    requires i < |ds|
    requires var c := ToCircle(ds[i]);
             c.r <= c.x && c.r <= c.y && c.x + c.r < Modulus && c.y + c.r < Modulus
    ensures Drawable(Outlines(ds)[i].box)
  {
    OutlinesAt(ds, i);
    UnwrappedIsDrawable(ToCircle(ds[i]));
  }

  /** When no rounded circle wraps at any corner, every detection is drawn. */
  lemma NoWrapDrawsAll(ds: seq<Detection>)
    requires forall i :: 0 <= i < |ds| ==>
               var c := ToCircle(ds[i]);
               c.r <= c.x && c.r <= c.y && c.x + c.r < Modulus && c.y + c.r < Modulus
    ensures FirstReversed(Outlines(ds)) == |ds|
  {
    forall i | 0 <= i < |ds|
      ensures Drawable(Outlines(ds)[i].box)
    {
      UnwrappedMarkIsDrawable(ds, i);
    }
    FirstReversedUnique(Outlines(ds), |ds|);
  }

  /** A decoded RGB picture: its raster and the outlines drawn on it so far. */
  class Picture {
    var width: nat
    var height: nat
    var pixels: seq<Rgb>
    var outlines: seq<Outline>

    ghost predicate Valid()
      reads this
    {
      |pixels| == width * height
    }

    constructor (width: nat, height: nat, pixels: seq<Rgb>, outlines: seq<Outline>)
      requires |pixels| == width * height
      ensures Valid()
      ensures this.width == width && this.height == height
      ensures this.pixels == pixels && this.outlines == outlines
    {
      this.width := width;
      this.height := height;
      this.pixels := pixels;
      this.outlines := outlines;
    }

    /** `img.copy()`: a new picture with the same contents. */
    method Copy() returns (p: Picture)
      requires Valid()
      ensures fresh(p) && p.Valid()
      ensures p.width == width && p.height == height
      ensures p.pixels == pixels && p.outlines == outlines
    {
      p := new Picture(width, height, pixels, outlines);
    }

    /** `draw.ellipse(box, outline=colour, width=lineWidth)`. It draws when
        the box is not reversed; otherwise it raises `ValueError` (`ok` is
        false) and draws nothing. */
    method Ellipse(box: Box, colour: Rgb, lineWidth: nat) returns (ok: bool)
      requires Valid()
      modifies this
      ensures Valid()
      ensures width == old(width) && height == old(height) && pixels == old(pixels)
      ensures ok == Drawable(box)
      ensures outlines == if ok then old(outlines) + [Outline(box, colour, lineWidth)]
                          else old(outlines)
    {
      ok := Drawable(box);
      if ok {
        outlines := outlines + [Outline(box, colour, lineWidth)];
      }
    }
  }

  /** The body of the loop at kreise1.py, line 49, for the i-th detection:
      round and cast it, then draw the ellipse in its box, which the drawer
      refuses when the box is reversed. */
  method DrawDetection(drawn: Picture, detections: seq<Detection>, i: nat) returns (ok: bool)
    requires drawn.Valid() && i < |detections|
    modifies drawn
    ensures drawn.Valid()
    ensures drawn.width == old(drawn.width) && drawn.height == old(drawn.height)
    ensures drawn.pixels == old(drawn.pixels)
    ensures ok == Drawable(Outlines(detections)[i].box)
    ensures drawn.outlines == if ok then old(drawn.outlines) + [Outlines(detections)[i]]
                              else old(drawn.outlines)
  {
    OutlinesAt(detections, i);
    var c := ToCircle(detections[i]);
    ok := drawn.Ellipse(BoundingBox(c), Red, OutlineWidth);
  }

  /** The loop at kreise1.py, lines 48-49, on the picture being drawn: one
      ellipse per detection in order, until the first reversed box raises out
      of the loop (`completed` is false). */
  method DrawAll(drawn: Picture, detections: seq<Detection>) returns (completed: bool)
    requires drawn.Valid()
    modifies drawn
    ensures drawn.Valid()
    ensures drawn.width == old(drawn.width) && drawn.height == old(drawn.height)
    ensures drawn.pixels == old(drawn.pixels)
    ensures completed <==> FirstReversed(Outlines(detections)) == |detections|
    ensures drawn.outlines ==
              old(drawn.outlines) + Outlines(detections)[..FirstReversed(Outlines(detections))]
  {
    ghost var marks := Outlines(detections);
    completed := true;
    var i := 0;
    while i < |detections| && completed
      invariant 0 <= i <= |detections|
      invariant drawn.Valid()
      invariant drawn.width == old(drawn.width) && drawn.height == old(drawn.height)
      invariant drawn.pixels == old(drawn.pixels)
      invariant forall j :: 0 <= j < i ==> Drawable(marks[j].box)
      invariant !completed ==> i < |detections| && !Drawable(marks[i].box)
      invariant drawn.outlines == old(drawn.outlines) + marks[..i]
      decreases |detections| - i, completed
    {
      var ok := DrawDetection(drawn, detections, i);
      if ok {
        assert marks[..i + 1] == marks[..i] + [marks[i]];
        i := i + 1;
      } else {
        completed := false;
      }
    }
    FirstReversedUnique(marks, i);
  }

  /** Lines 43-49 of kreise1.py: copy the picture, then for each detection in
      order round it, cast it and draw its bounding ellipse in red. The first
      reversed box raises out of the loop (`completed` is false), and the
      outlines drawn so far stay on the copy, which is then never shown. The
      uploaded picture is left as it was. */
  method Annotate(img: Picture, detections: seq<Detection>) returns (drawn: Picture, completed: bool)
    requires img.Valid()
    ensures fresh(drawn) && drawn.Valid()
    ensures drawn.width == img.width && drawn.height == img.height
    ensures drawn.pixels == img.pixels
    ensures completed <==> FirstReversed(Outlines(detections)) == |detections|
    ensures drawn.outlines ==
              img.outlines + Outlines(detections)[..FirstReversed(Outlines(detections))]
    ensures unchanged(img)
  {
    drawn := img.Copy();
    completed := DrawAll(drawn, detections);
  }
}
