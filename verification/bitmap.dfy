/** Row-major pixel buffers, as `Bitmap.getPixels` and `Bitmap.setPixels`
    exchange them with an `IntArray` of `width * height` entries, and the
    failure a filter can report. */
module Bitmap {

  /** Kotlin's `require(...)` throws `IllegalArgumentException` with a message. */
  datatype FilterError = IllegalArgument(message: string)

  datatype Result<T> = Success(value: T) | Failure(error: FilterError)

  /** Position of pixel (x, y) in a row-major buffer of the given width. */
  function Offset(width: int, x: int, y: int): int
  {
    y * width + x
  }

  /** Column and row of a buffer position. */
  function Col(width: nat, i: nat): nat
    requires width > 0
  {
    i % width
  }

  function Row(width: nat, i: nat): nat
    requires width > 0
  {
    i / width
  }

  /** An in-range (x, y) lands inside the buffer, and splitting its
      position back into column and row gives (x, y). */
  lemma OffsetInRange(width: nat, height: nat, x: int, y: int)
    requires 0 <= x < width && 0 <= y < height
    ensures 0 <= Offset(width, x, y) < width * height
    ensures Col(width, Offset(width, x, y)) == x
    ensures Row(width, Offset(width, x, y)) == y
  {
    var i := y * width + x;
    assert (y + 1) * width <= height * width by {
      MulLeq(y + 1, height, width);
    }
    assert i / width == y && i % width == x by {
      DivModUnique(i, width, y, x);
    }
  }

  /** Every buffer position is the offset of an in-range (x, y). */
  lemma PositionInRange(width: nat, height: nat, i: nat)
    requires i < width * height
    ensures width > 0
    ensures Col(width, i) < width && Row(width, i) < height
    ensures Offset(width, Col(width, i), Row(width, i)) == i
  {
    if width == 0 {
      assert false;
    }
    var y, x := i / width, i % width;
    assert i == y * width + x;
    if y >= height {
      MulLeq(height, y, width);
      assert false;
    }
  }

  lemma MulLeq(a: nat, b: nat, c: nat)
    requires a <= b
    ensures a * c <= b * c
  {
    assert b * c == a * c + (b - a) * c;
  }

  lemma DivModUnique(i: int, n: int, q: int, r: int)
    requires n > 0 && 0 <= r < n && i == q * n + r
    ensures i / n == q && i % n == r
  {
    var q', r' := i / n, i % n;
    assert (q - q') * n == r' - r;
    if q > q' {
      MulLeq(1, q - q', n);
    } else if q < q' {
      MulLeq(1, q' - q, n);
    }
  }

  /** A bitmap's pixel data; `Valid` is the invariant a real `Bitmap`
      always satisfies. */
  datatype Image = Image(width: nat, height: nat, pixels: seq<bv32>)
  {
    predicate Valid()
    {
      |pixels| == width * height
    }

    predicate InBounds(x: int, y: int)
    {
      0 <= x < width && 0 <= y < height
    }

    /** The pixel at column x, row y. */
    function At(x: int, y: int): bv32
      requires Valid() && InBounds(x, y)
    {
      OffsetInRange(width, height, x, y);
      pixels[Offset(width, x, y)]
    }
  }
}
