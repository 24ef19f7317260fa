/** Unit conversion of kreise1.py: a diameter in millimetres at a given image
    resolution becomes a pixel count, and half of it becomes a radius bound for
    the circle detector.

    The script computes `int((mm / 25.4) * dpi)`. Every input is an integer
    (the widgets are integer widgets), so the exact value of that expression
    is the rational `10 * mm * dpi / 254`, and `int(...)` truncates it. */
module Units {

  /** Tenths of a millimetre per inch: 25.4 mm is exactly one inch. */
  const TenthMmPerInch: nat := 254

  /** Range of the resolution widget (kreise1.py, line 21). */
  const MinDpi: nat := 10
  const MaxDpi: nat := 1200

  /** Range of both diameter sliders (kreise1.py, lines 24-25), and the
      second slider's default. */
  const MinMm: nat := 1
  const MaxMm: nat := 100
  const DefaultMaxMm: nat := 50

  predicate ValidDpi(dpi: int) {
    MinDpi <= dpi <= MaxDpi
  }

  predicate ValidDiameter(mm: int) {
    MinMm <= mm <= MaxMm
  }

  /** The pairs the two sliders can hand to lines 27-28. The second slider's
      lower end is the first slider's value, but its default stays 50; a
      slider widens its lower end to take in a default below it, so once
      minMm exceeds 50 the second slider reaches down to 50 and maxMm may lie
      below minMm. */
  predicate ReachableSizePair(minMm: int, maxMm: int) {
    ValidDiameter(minMm) && ValidDiameter(maxMm) &&
    (if minMm <= DefaultMaxMm then minMm else DefaultMaxMm) <= maxMm
  }

  /** `mm_to_pixel`: the number of whole pixels covered by `mm` millimetres at
      `dpi` dots per inch. Truncates, never rounds up. */
  function MmToPixel(mm: nat, dpi: nat): (px: nat)
    ensures px * TenthMmPerInch <= 10 * mm * dpi < (px + 1) * TenthMmPerInch
  {
    (10 * mm * dpi) / TenthMmPerInch
  }

  /** A radius bound: the pixel diameter floor-divided by 2 (`// 2`). */
  function RadiusFromDiameter(mm: nat, dpi: nat): (r: nat)
    ensures 2 * r <= MmToPixel(mm, dpi) <= 2 * r + 1
  {
    MmToPixel(mm, dpi) / 2
  }

  /** The detector's radius range derived from the size range. */
  datatype RadiusRange = RadiusRange(minRadius: nat, maxRadius: nat)

  /** `min_radius` and `max_radius` (kreise1.py, lines 27-28). */
  function RadiusBounds(minMm: nat, maxMm: nat, dpi: nat): (b: RadiusRange)
    ensures 2 * b.minRadius <= MmToPixel(minMm, dpi) <= 2 * b.minRadius + 1
    ensures 2 * b.maxRadius <= MmToPixel(maxMm, dpi) <= 2 * b.maxRadius + 1
    ensures minMm <= maxMm ==> b.minRadius <= b.maxRadius
  {
    RadiusOrdered(minMm, maxMm, dpi);
    RadiusRange(RadiusFromDiameter(minMm, dpi), RadiusFromDiameter(maxMm, dpi))
  }

  /** The integer formula is the truncation of the exact rational value of
      `(mm / 25.4) * dpi`. */
  lemma MmToPixelIsFloor(mm: nat, dpi: nat)
    ensures MmToPixel(mm, dpi) as real <= (mm as real / 25.4) * dpi as real
    ensures (mm as real / 25.4) * dpi as real < (MmToPixel(mm, dpi) + 1) as real
  {
    var px := MmToPixel(mm, dpi);
    var p := 10 * mm * dpi;
    assert (mm as real / 25.4) * dpi as real == p as real / 254.0;
    assert (px * 254) as real <= p as real < ((px + 1) * 254) as real;
  }

  /** Halving the truncated diameter gives the truncated half of the exact
      diameter: the two roundings compose to a single floor. */
  lemma RadiusIsFloorOfHalf(mm: nat, dpi: nat)
    ensures RadiusFromDiameter(mm, dpi) as real <= (mm as real / 25.4) * dpi as real / 2.0
    ensures (mm as real / 25.4) * dpi as real / 2.0 < (RadiusFromDiameter(mm, dpi) + 1) as real
  {
    var r := RadiusFromDiameter(mm, dpi);
    var p := 10 * mm * dpi;
    assert (mm as real / 25.4) * dpi as real / 2.0 == p as real / 508.0;
    assert (r * 508) as real <= p as real < ((r + 1) * 508) as real;
  }

  /** More millimetres or more dots per inch never give fewer pixels. */
  lemma MmToPixelMonotone(mm1: nat, mm2: nat, dpi1: nat, dpi2: nat)
    requires mm1 <= mm2 && dpi1 <= dpi2
    ensures MmToPixel(mm1, dpi1) <= MmToPixel(mm2, dpi2)
  {
    assert mm1 * dpi1 <= mm2 * dpi1 <= mm2 * dpi2;
    var p1, p2 := MmToPixel(mm1, dpi1), MmToPixel(mm2, dpi2);
    assert p1 * TenthMmPerInch < (p2 + 1) * TenthMmPerInch;
  }

  /** A larger diameter never gives a smaller radius bound. */
  lemma RadiusOrdered(minMm: nat, maxMm: nat, dpi: nat)
    ensures minMm <= maxMm ==> RadiusFromDiameter(minMm, dpi) <= RadiusFromDiameter(maxMm, dpi)
  {
    if minMm <= maxMm {
      MmToPixelMonotone(minMm, maxMm, dpi, dpi);
    }
  }

  /** Over the widgets' ranges the pixel count lies in [0, 4724] and every
      radius in [0, 2362]; both ends are reached. */
  lemma PixelBounds(mm: nat, dpi: nat)
    requires ValidDpi(dpi) && ValidDiameter(mm)
    ensures MmToPixel(mm, dpi) <= 4724
    ensures RadiusFromDiameter(mm, dpi) <= 2362
    ensures MmToPixel(MinMm, MinDpi) == 0 && RadiusFromDiameter(MinMm, MinDpi) == 0
    ensures MmToPixel(MaxMm, MaxDpi) == 4724 && RadiusFromDiameter(MaxMm, MaxDpi) == 2362
  {
    MmToPixelMonotone(mm, MaxMm, dpi, MaxDpi);
  }

  /** A radius bound is 0 exactly when the pixel diameter is below 2. */
  lemma ZeroRadius(mm: nat, dpi: nat)
    ensures RadiusFromDiameter(mm, dpi) == 0 <==> 10 * mm * dpi < 2 * TenthMmPerInch
  {
  }

  /** At the smallest diameter, 1 mm, the radius bound is 0 exactly at 50 dpi
      and below. */
  lemma ZeroRadiusAtOneMm(dpi: nat)
    requires ValidDpi(dpi)
    ensures RadiusFromDiameter(MinMm, dpi) == 0 <==> dpi <= 50
  {
    ZeroRadius(MinMm, dpi);
  }

  /** The script's defaults, 5 mm and 50 mm at 300 dpi. */
  lemma DefaultBounds()
    ensures MmToPixel(5, 300) == 59 && MmToPixel(50, 300) == 590
    ensures RadiusBounds(5, 50, 300) == RadiusRange(29, 295)
  {
  }

  /** Where `mm * dpi` is a multiple of 127 (at 127 or 254 dpi, for one),
      the exact value is a whole number of pixels and truncation loses
      nothing. */
  lemma ExactAtMultiplesOf127(mm: nat, dpi: nat)
    requires (mm * dpi) % 127 == 0
    ensures MmToPixel(mm, dpi) * TenthMmPerInch == 10 * mm * dpi
  {
    var q := (mm * dpi) / 127;
    assert 10 * mm * dpi == (5 * q) * TenthMmPerInch;
  }

  /** For every pair the sliders can produce and every resolution the
      widget admits, both radius bounds lie in [0, 2362]; they are ordered
      whenever minMm <= 50, or more generally whenever minMm <= maxMm. */
  lemma RadiusBoundsInRange(minMm: nat, maxMm: nat, dpi: nat)
    requires ReachableSizePair(minMm, maxMm) && ValidDpi(dpi)
    ensures RadiusBounds(minMm, maxMm, dpi).minRadius <= 2362
    ensures RadiusBounds(minMm, maxMm, dpi).maxRadius <= 2362
    ensures minMm <= DefaultMaxMm ==>
              RadiusBounds(minMm, maxMm, dpi).minRadius <= RadiusBounds(minMm, maxMm, dpi).maxRadius
  {
    PixelBounds(minMm, dpi);
    PixelBounds(maxMm, dpi);
  }

  /** Past 50 mm on the first slider the pair can be reversed, and so can
      the radius bounds: 60 mm and 50 mm at 300 dpi give 354 and 295. */
  lemma ReversedPairExample()
    ensures ReachableSizePair(60, 50)
    ensures RadiusBounds(60, 50, 300) == RadiusRange(354, 295)
    ensures RadiusBounds(60, 50, 300).minRadius > RadiusBounds(60, 50, 300).maxRadius
  {
  }
}
