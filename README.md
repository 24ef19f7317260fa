# Circle detection sizing and annotation (kreise1)

`kreise1.py` is a one-page tool. A user uploads a picture and gives a
resolution in dots per inch (DPI) and a range of circle diameters in
millimetres. The tool converts that range into pixel radius bounds for a
circle detector. It then draws a red outline around every circle found, on a
copy of the picture.

This project models the two parts of that pipeline that are plain arithmetic
and bookkeeping:

- **Units** (`units.dfy`). `mm_to_pixel` is `int((mm / 25.4) * dpi)`. Every
  input is an integer: the DPI widget is limited to [10, 1200] and both
  diameter sliders to [1, 100]. The second slider starts at `min_mm` but
  keeps the default 50. Once `min_mm` exceeds 50, the slider widens its lower
  end to 50, so `max_mm` can lie below `min_mm`. So the model states
  the conversion exactly as `(10 * mm * dpi) / 254`, truncated. A lemma ties
  that value to the exact rational `(mm / 25.4) * dpi`. Each radius bound is
  the pixel count floor-divided by 2.
- **Annotation** (`annotation.dfy`). Each detected triple is rounded with
  `np.around`, which rounds half to even, not half away from zero. It is then
  cast to `uint16`, and the ellipse box `[(x - r, y - r), (x + r, y + r)]` is
  computed in `uint16` arithmetic, which wraps modulo 65536. The picture is a
  class. `Copy` is `img.copy()`. `Ellipse` is `draw.ellipse`; Pillow raises
  `ValueError` for a box whose second corner lies left of or above its
  first, and `Ellipse` reports that as failure and draws nothing. `Annotate`
  is the loop on the copy. It draws one outline per detection, in detector
  order, until the first reversed box raises out of the loop. The uploaded
  picture is never changed.

The detector's output is an arbitrary sequence of rational triples. When the
detector finds nothing (`None`), the model uses the empty sequence, and the
script likewise draws nothing.

Proved properties include:
- the pixel count is never rounded up;
- a larger diameter or resolution never gives a smaller pixel count, so
  `min_radius <= max_radius` whenever `min_mm <= max_mm`, in particular
  whenever `min_mm <= 50`;
- past 50 mm on the first slider the pair can be reversed, and so can the
  radius bounds: 60 mm and 50 mm at 300 dpi give radius bounds 354 and 295;
- over the widget ranges, pixel counts lie in [0, 4724] and radii in
  [0, 2362], and both ends are reached;
- a radius bound is 0 exactly when `10 * mm * dpi < 508`; at 1 mm that means
  exactly at 50 dpi or below;
- rounding is the unique nearest integer, with ties to even;
- a box whose corners do not wrap is the square of side `2r` centred on the
  circle, and Pillow accepts it;
- a circle with `x < r < 32768` and `x + r < 65536` gets its left corner
  wrapped past its right corner, and likewise at the top edge. For example, a circle at `(10, 40)` with
  radius 20 gets the box `(65526, 20, 30, 60)`. Pillow refuses that box, so
  the annotation loop stops there, and the annotated picture and download
  button are never shown;
- when no rounded circle wraps, every detection is drawn;
- annotation leaves the original picture unchanged. The copy holds exactly
  the outlines of the detections before the first reversed box, in order.

## Model

| member | source | states |
|---|---|---|
| `Units.MmToPixel` | kreise1.py:22 | the pixel count `px` satisfies `254 * px <= 10 * mm * dpi < 254 * (px + 1)`: it is mm·dpi/25.4 truncated, never rounded up |
| `Units.RadiusFromDiameter` | kreise1.py:27-28 | the radius `r` satisfies `2r <= px <= 2r + 1`: the pixel count floor-divided by 2 |
| `Units.RadiusBounds` | kreise1.py:24-28 | both bounds are the floor halves of their pixel counts, and `min_mm <= max_mm` implies `min_radius <= max_radius` |
| `Units.MmToPixelIsFloor` | kreise1.py:22 | the integer formula equals the floor of the exact rational `(mm / 25.4) * dpi` |
| `Units.RadiusIsFloorOfHalf` | kreise1.py:22-28 | the radius bound is the floor of half the exact pixel diameter, so the two truncations act as a single one |
| `Units.MmToPixelMonotone` | kreise1.py:22 | more millimetres or more DPI never give fewer pixels |
| `Units.RadiusOrdered` | kreise1.py:24-28 | a diameter no larger than another gives a radius bound no larger than the other's |
| `Units.PixelBounds` | kreise1.py:21-28 | for DPI in [10, 1200] and mm in [1, 100], the pixel count is at most 4724 and the radius at most 2362; 1 mm at 10 DPI gives 0 and 100 mm at 1200 DPI gives 4724 and 2362 |
| `Units.RadiusBoundsInRange` | kreise1.py:21-28 | for every pair the sliders can produce (both in [1, 100], `max_mm` at least the smaller of `min_mm` and 50) and DPI in [10, 1200], both radius bounds are at most 2362, and they are ordered whenever `min_mm <= 50` |
| `Units.ReversedPairExample` | kreise1.py:24-28 | the sliders can produce `min_mm = 60`, `max_mm = 50`; at 300 DPI that gives `min_radius = 354 > max_radius = 295` |
| `Units.ZeroRadius` | kreise1.py:22-28 | a radius bound is 0 if and only if `10 * mm * dpi < 508`, that is, the pixel count is below 2 |
| `Units.ZeroRadiusAtOneMm` | kreise1.py:21-28 | at 1 mm and a DPI in [10, 1200], the radius bound is 0 if and only if DPI <= 50 |
| `Units.DefaultBounds` | kreise1.py:21-28 | with the default inputs of 5 mm and 50 mm at 300 DPI, the pixel counts are 59 and 590 and the radius bounds are 29 and 295 |
| `Units.ExactAtMultiplesOf127` | kreise1.py:22 | where `mm * dpi` is a multiple of 127 (for example at 127 or 254 DPI), the exact value is a whole number of pixels: `254 * px == 10 * mm * dpi` |
| `Annotation.Wrap` | kreise1.py:47-49 | uint16 reduction: the identity on [0, 65536), adds 65536 to a negative difference, and subtracts 65536 from a sum past 65535 |
| `Annotation.RoundHalfEven` | kreise1.py:47 | `np.around`: the result is within 0.5 of the input, and even when the input lies exactly half-way |
| `Annotation.RoundHalfEvenUnique` | kreise1.py:47 | any integer within 0.5 of the input that is also even at a tie is the rounding result, so the contract determines rounding |
| `Annotation.ToCircle` | kreise1.py:47 | `np.uint16(np.around(...))` of one triple: each coordinate whose rounded value fits in uint16 is exactly its half-to-even rounding |
| `Annotation.BoundingBox` | kreise1.py:49 | each corner moves back to the centre in uint16 arithmetic when r is added or subtracted; when no corner wraps, the box is a square of side 2r centred on (x, y) |
| `Annotation.WrappedCorners` | kreise1.py:49 | if `r > x`, the left corner is `x - r + 65536`, to the right of the centre; if `x + r >= 65536`, the right corner is `x + r - 65536`, to the left of it; the same holds for y |
| `Annotation.UnwrappedIsDrawable` | kreise1.py:49 | a circle with `r <= x`, `r <= y`, `x + r < 65536` and `y + r < 65536` gets a box the ellipse drawer accepts |
| `Annotation.EdgeWrapIsNotDrawable` | kreise1.py:49 | a circle with `x < r < 32768` and `x + r < 65536`, or with `y < r < 32768` and `y + r < 65536`, gets a reversed box, which the ellipse drawer refuses |
| `Annotation.WrappedBoxExample` | kreise1.py:47-49 | the detection (10.4, 40.0, 19.5) rounds to (10, 40, 20), and its box is (65526, 20, 30, 60), which the ellipse drawer refuses |
| `Annotation.Outlines` | kreise1.py:48-49 | one outline per detection |
| `Annotation.OutlinesAt` | kreise1.py:48-49 | the i-th outline is the red, width-2 ellipse in the box of the i-th detection, rounded and cast |
| `Annotation.OutlinesAppend` | kreise1.py:48-49 | the outlines of two detector results in turn are the outlines of their concatenation |
| `Annotation.FirstReversed` | kreise1.py:48-49 | the number of outlines drawn before the drawer raises: every earlier box is drawable, and the box at that index, if any, is reversed |
| `Annotation.FirstReversedUnique` | kreise1.py:48-49 | that count is the only index with those two properties |
| `Annotation.UnwrappedMarkIsDrawable` | kreise1.py:47-49 | the outline for a detection whose rounded circle does not wrap is drawable |
| `Annotation.NoWrapDrawsAll` | kreise1.py:47-49 | when no rounded circle wraps at any corner, the loop draws every detection |
| `Annotation.Picture.constructor` | kreise1.py:16 | a decoded picture has `width * height` pixels and the given outlines |
| `Annotation.Picture.Copy` | kreise1.py:43 | a fresh picture with the same size, pixels and outlines |
| `Annotation.Picture.Ellipse` | kreise1.py:49 | succeeds exactly when the box is not reversed; it then appends one outline with the given box, colour and width, and otherwise draws nothing; size and pixels never change |
| `Annotation.DrawDetection` | kreise1.py:47-49 | draws the i-th detection's outline when its box is drawable, and reports failure with nothing drawn otherwise |
| `Annotation.DrawAll` | kreise1.py:48-49 | the loop adds exactly the outlines before the first reversed box, in order, and completes exactly when there is none |
| `Annotation.Annotate` | kreise1.py:43-49 | returns a fresh copy whose outlines are the original's followed by those of the detections before the first reversed box, in detector order; it completes exactly when no box is reversed; the original picture is unchanged |

## Left out

- User interface: page setup, title, uploader, warnings, `st.stop`, image display, info message and download button (kreise1.py:7-13, 50, 55-62). These are presentation only. The widgets' integer ranges are kept as the predicates `ValidDpi`, `ValidDiameter` and `ReachableSizePair`. `ReachableSizePair` assumes the slider widens its lower end to take in a default below it, rather than raising.
- Image decoding and grayscale conversion (`Image.open(...).convert`, `np.array`, `cv2.cvtColor`, kreise1.py:16-18). These are library calls. A decoded picture is a size and a list of pixels.
- The circle detector `cv2.HoughCircles` and its constants `dp=1.2`, `minDist=10`, `param1=50`, `param2=30` (kreise1.py:31-40). This is a floating-point OpenCV algorithm. Its output enters the model as an arbitrary sequence of rational triples. What OpenCV does with a radius bound of 0 is not modelled.
- Pixel rasterisation by `ImageDraw.ellipse` and PNG encoding (kreise1.py:49, 53-54). These are library rendering and I/O. The model records the box, colour and width handed to `ellipse`, and whether Pillow refuses the box. The `ValueError` itself is modelled as a `false` result that ends the loop. What happens after it is uncaught is left out: Streamlit shows the error, and lines 50-61 do not run.
- Units.MmToPixel: states the exact rational value `(mm / 25.4) * dpi`, truncated. The script computes it in IEEE-754 doubles. When `mm * dpi` is a multiple of 127, the exact value is a whole number (`ExactAtMultiplesOf127`), and the double may land just below it and truncate one lower. The model does not claim bit-for-bit parity at those points.
- Annotation.ToCircle: casts with reduction modulo 65536. numpy leaves the cast of a float outside the uint16 range platform-defined. Detector coordinates lie within the picture, so the cast is the identity in practice.
