/** The colour matrices built by `adjustBrightness`, `adjustContrast` and
    `adjustColorTemperature`, in the row-major 4x5 layout of
    `android.graphics.ColorMatrix`: rows red, green, blue, alpha; columns
    red, green, blue, alpha and a constant offset. Float coefficients are
    modelled with `real`. */
module ColorMatrices {

  const MatrixLength: nat := 20

  predicate Shaped(m: seq<real>)
  {
    |m| == MatrixLength
  }

  /** The coefficient in row `row`, column `col`. */
  function Entry(m: seq<real>, row: nat, col: nat): real
    requires Shaped(m) && row < 4 && col < 5
  {
    m[row * 5 + col]
  }

  /** The matrix that changes nothing. */
  const Identity: seq<real> :=
    [1.0, 0.0, 0.0, 0.0, 0.0,
     0.0, 1.0, 0.0, 0.0, 0.0,
     0.0, 0.0, 1.0, 0.0, 0.0,
     0.0, 0.0, 0.0, 1.0, 0.0]

  /** A colour with real channels, before any clamping to [0, 255]. */
  datatype Rgba = Rgba(r: real, g: real, b: real, a: real)

  /** One output channel: the row's weights applied to (r, g, b, a), plus
      the row's offset. */
  function RowValue(m: seq<real>, row: nat, c: Rgba): real
    requires Shaped(m) && row < 4
  {
    Entry(m, row, 0) * c.r + Entry(m, row, 1) * c.g + Entry(m, row, 2) * c.b
      + Entry(m, row, 3) * c.a + Entry(m, row, 4)
  }

  /** What a colour matrix means: the affine map it applies to a colour
      (Android clamps the result afterwards; that step is not modelled). */
  function Transform(m: seq<real>, c: Rgba): Rgba
    requires Shaped(m)
  {
    Rgba(RowValue(m, 0, c), RowValue(m, 1, c), RowValue(m, 2, c), RowValue(m, 3, c))
  }

  /** The alpha row is (0, 0, 0, 1, 0). */
  predicate KeepsAlpha(m: seq<real>)
    requires Shaped(m)
  {
    && Entry(m, 3, 0) == 0.0 && Entry(m, 3, 1) == 0.0 && Entry(m, 3, 2) == 0.0
    && Entry(m, 3, 3) == 1.0 && Entry(m, 3, 4) == 0.0
  }

  /** Only the diagonal is nonzero: each channel is scaled on its own, no
      channel leaks into another and nothing is added. */
  predicate Diagonal(m: seq<real>)
    requires Shaped(m)
  {
    forall row, col | 0 <= row < 4 && 0 <= col < 5 && row != col :: Entry(m, row, col) == 0.0
  }

  /** The identity matrix maps every colour to itself. */
  lemma IdentityTransform(c: Rgba)
    ensures Shaped(Identity) && KeepsAlpha(Identity) && Diagonal(Identity)
    ensures Transform(Identity, c) == c
  {
  }

  /** A matrix whose alpha row is (0, 0, 0, 1, 0) leaves alpha alone. */
  lemma KeepsAlphaTransform(m: seq<real>, c: Rgba)
    requires Shaped(m) && KeepsAlpha(m)
    ensures Transform(m, c).a == c.a
  {
  }

  // ---------------------------------------------------------------------
  // Brightness

  /** `value / 100f * 255f`: the amount added to red, green and blue. */
  function BrightnessOffset(value: real): real
  {
    value / 100.0 * 255.0
  }

  /** `adjustBrightness`'s matrix: a 4x5 matrix with alpha row
      (0, 0, 0, 1, 0); value 0 gives the identity. */
  function BrightnessMatrix(value: real): (m: seq<real>)
    ensures Shaped(m) && KeepsAlpha(m)
    ensures value == 0.0 ==> m == Identity
  {
    var t := BrightnessOffset(value);
    [1.0, 0.0, 0.0, 0.0, t,
     0.0, 1.0, 0.0, 0.0, t,
     0.0, 0.0, 1.0, 0.0, t,
     0.0, 0.0, 0.0, 1.0, 0.0]
  }

  /** What the brightness matrix does: red, green and blue all move by
      the same offset, value/100 of the full 255 range; alpha is untouched. */
  lemma BrightnessShift(value: real, c: Rgba)
    ensures Transform(BrightnessMatrix(value), c)
         == Rgba(c.r + BrightnessOffset(value), c.g + BrightnessOffset(value),
                 c.b + BrightnessOffset(value), c.a)
  {
  }

  /** Two brightness steps add up: brightening by a and then by b is the
      same map as brightening by a + b. */
  lemma BrightnessCompose(a: real, b: real, c: Rgba)
    ensures Transform(BrightnessMatrix(b), Transform(BrightnessMatrix(a), c))
         == Transform(BrightnessMatrix(a + b), c)
  {
    BrightnessShift(a, c);
    BrightnessShift(b, Transform(BrightnessMatrix(a), c));
    BrightnessShift(a + b, c);
    OffsetAdditive(a, b);
  }

  lemma OffsetAdditive(a: real, b: real)
    ensures BrightnessOffset(a) + BrightnessOffset(b) == BrightnessOffset(a + b)
  {
  }

  /** Brightening by -v undoes brightening by v (before clamping). */
  lemma BrightnessInverse(v: real, c: Rgba)
    ensures Transform(BrightnessMatrix(-v), Transform(BrightnessMatrix(v), c)) == c
  {
    BrightnessCompose(v, -v, c);
    assert v + -v == 0.0;
    IdentityTransform(c);
  }

  // ---------------------------------------------------------------------
  // Contrast

  /** The grey level contrast pivots about: half of 255. */
  const Midpoint: real := 127.5

  /** `(-0.5f * contrast + 0.5f) * 255f`. */
  function ContrastOffset(contrast: real): real
  {
    (-0.5 * contrast + 0.5) * 255.0
  }

  /** `adjustContrast`'s matrix: a 4x5 matrix with alpha row
      (0, 0, 0, 1, 0); contrast 1 gives the identity. */
  function ContrastMatrix(contrast: real): (m: seq<real>)
    ensures Shaped(m) && KeepsAlpha(m)
    ensures contrast == 1.0 ==> m == Identity
  {
    var t := ContrastOffset(contrast);
    [contrast, 0.0, 0.0, 0.0, t,
     0.0, contrast, 0.0, 0.0, t,
     0.0, 0.0, contrast, 0.0, t,
     0.0, 0.0, 0.0, 1.0, 0.0]
  }

  /** What the contrast matrix does: each colour channel's distance from
      the midpoint 127.5 is multiplied by the contrast; alpha is untouched. */
  lemma ContrastScales(contrast: real, c: Rgba)
    ensures var t := Transform(ContrastMatrix(contrast), c);
      && t.r - Midpoint == contrast * (c.r - Midpoint)
      && t.g - Midpoint == contrast * (c.g - Midpoint)
      && t.b - Midpoint == contrast * (c.b - Midpoint)
      && t.a == c.a
  {
  }

  /** The midpoint grey is a fixed point for every contrast:
      c * 127.5 + (-0.5 c + 0.5) * 255 = 127.5. */
  lemma ContrastMidpointFixed(contrast: real, alpha: real)
    ensures var grey := Rgba(Midpoint, Midpoint, Midpoint, alpha);
      Transform(ContrastMatrix(contrast), grey) == grey
  {
  }

  /** Two contrast steps multiply: contrast a after contrast b is the same
      map as contrast a * b. */
  lemma ContrastCompose(a: real, b: real, c: Rgba)
    ensures Transform(ContrastMatrix(a), Transform(ContrastMatrix(b), c))
         == Transform(ContrastMatrix(a * b), c)
  {
    var t := Transform(ContrastMatrix(b), c);
    var u := Transform(ContrastMatrix(a), t);
    var v := Transform(ContrastMatrix(a * b), c);
    ContrastScales(b, c);
    ContrastScales(a, t);
    ContrastScales(a * b, c);
    assert u.r - Midpoint == a * (b * (c.r - Midpoint)) == v.r - Midpoint;
    assert u.g - Midpoint == a * (b * (c.g - Midpoint)) == v.g - Midpoint;
    assert u.b - Midpoint == a * (b * (c.b - Midpoint)) == v.b - Midpoint;
  }

  /** A nonzero contrast is undone by its reciprocal (before clamping). */
  lemma ContrastInverse(k: real, c: Rgba)
    requires k != 0.0
    ensures Transform(ContrastMatrix(1.0 / k), Transform(ContrastMatrix(k), c)) == c
  {
    ContrastCompose(1.0 / k, k, c);
    assert 1.0 / k * k == 1.0;
    IdentityTransform(c);
  }

  // ---------------------------------------------------------------------
  // Colour temperature

  /** `value / 100f`: -1 is fully cool, +1 fully warm. */
  function Warmth(value: int): real
  {
    value as real / 100.0
  }

  /** `adjustColorTemperature`'s matrix: a pure per-channel scaling. Red
      and blue move by the same amount in opposite directions (0.4 per unit
      of warmth), green moves half as far as red, alpha is untouched, and
      value 0 gives the identity. */
  function TemperatureMatrix(value: int): (m: seq<real>)
    ensures Shaped(m) && KeepsAlpha(m) && Diagonal(m)
    ensures value == 0 ==> m == Identity
    ensures Entry(m, 0, 0) - 1.0 == 0.4 * Warmth(value)
    ensures Entry(m, 0, 0) + Entry(m, 2, 2) == 2.0
    ensures Entry(m, 0, 0) - 1.0 == 2.0 * (Entry(m, 1, 1) - 1.0)
  {
    var warm := Warmth(value);
    var rScale := 1.0 + warm * 0.4;
    var gScale := 1.0 + warm * 0.2;
    var bScale := 1.0 - warm * 0.4;
    [rScale, 0.0, 0.0, 0.0, 0.0,
     0.0, gScale, 0.0, 0.0, 0.0,
     0.0, 0.0, bScale, 0.0, 0.0,
     0.0, 0.0, 0.0, 1.0, 0.0]
  }

  /** Warming (value > 0) strengthens red and green and weakens blue;
      cooling (value < 0) does the opposite; black stays black. */
  lemma TemperatureDirection(value: int, c: Rgba)
    requires c.r > 0.0 && c.g > 0.0 && c.b > 0.0
    ensures var t := Transform(TemperatureMatrix(value), c);
      && t.a == c.a
      && (value > 0 ==> t.r > c.r && t.g > c.g && t.b < c.b)
      && (value < 0 ==> t.r < c.r && t.g < c.g && t.b > c.b)
  {
    var m := TemperatureMatrix(value);
    assert Entry(m, 0, 1) == Entry(m, 0, 2) == Entry(m, 0, 3) == Entry(m, 0, 4) == 0.0;
    assert Entry(m, 1, 0) == Entry(m, 1, 2) == Entry(m, 1, 3) == Entry(m, 1, 4) == 0.0;
    assert Entry(m, 2, 0) == Entry(m, 2, 1) == Entry(m, 2, 3) == Entry(m, 2, 4) == 0.0;
    var t := Transform(m, c);
    assert t.r == Entry(m, 0, 0) * c.r;
    assert t.g == Entry(m, 1, 1) * c.g;
    assert t.b == Entry(m, 2, 2) * c.b;
    if value > 0 {
      assert Entry(m, 0, 0) > 1.0 && Entry(m, 1, 1) > 1.0 && Entry(m, 2, 2) < 1.0;
      ScaleAbove(Entry(m, 0, 0), c.r);
      ScaleAbove(Entry(m, 1, 1), c.g);
      ScaleBelow(Entry(m, 2, 2), c.b);
    } else if value < 0 {
      assert Entry(m, 0, 0) < 1.0 && Entry(m, 1, 1) < 1.0 && Entry(m, 2, 2) > 1.0;
      ScaleBelow(Entry(m, 0, 0), c.r);
      ScaleBelow(Entry(m, 1, 1), c.g);
      ScaleAbove(Entry(m, 2, 2), c.b);
    }
  }

  lemma ScaleAbove(k: real, v: real)
    requires k > 1.0 && v > 0.0
    ensures k * v > v
  {
    assert k * v - v == (k - 1.0) * v;
  }

  lemma ScaleBelow(k: real, v: real)
    requires k < 1.0 && v > 0.0
    ensures k * v < v
  {
    assert v - k * v == (1.0 - k) * v;
  }

  /** No temperature setting moves black. */
  lemma TemperatureKeepsBlack(value: int, alpha: real)
    ensures var black := Rgba(0.0, 0.0, 0.0, alpha);
      Transform(TemperatureMatrix(value), black) == black
  {
  }
}
