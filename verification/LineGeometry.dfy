/** The integer line rasteriser's pixels in closed form, independent of its error term. */
module LineGeometry {
  import opened Machine

  datatype Point = Point(x: int, y: int)

  datatype Line = Line(x0: int, y0: int, x1: int, y1: int) {
    function Dx(): int { Abs(x1 - x0) }
    function Dy(): int { Abs(y1 - y0) }
    function Sx(): int { if x1 > x0 then 1 else -1 }
    function Sy(): int { if y1 > y0 then 1 else -1 }
    function Steps(): (n: nat)
      ensures n == Max(Dx(), Dy())
    { Max(Abs(x1 - x0), Abs(y1 - y0)) }

    /** Steps taken along each axis by pixel i: one per i along the longer axis, the
        rounded share along the other. */
    function AlongX(i: int): int { if Dx() >= Dy() then i else Share(i, Dx(), Dy()) }
    function AlongY(i: int): int { if Dx() >= Dy() then Share(i, Dy(), Dx()) else i }

    function Pixel(i: int): Point {
      Point(x0 + Sx() * AlongX(i), y0 + Sy() * AlongY(i))
    }

    /** p is one of the first k pixels. */
    predicate Covers(k: nat, p: Point) {
      exists i :: 0 <= i < k && Pixel(i) == p
    }
  }

  /** i * minor / major rounded to the nearest integer, halves downward. */
  function Share(i: int, minor: int, major: int): int {
    if major <= 0 then 0 else (2 * (i * minor) + major - 1) / (2 * major)
  }

  lemma DivBounds(a: int, d: int)
    requires d > 0
    ensures d * (a / d) <= a < d * (a / d) + d
  {
  }

  lemma MultipleGap(k: int, d: int)
    requires d > 0
    ensures k >= 1 ==> k * d >= d
    ensures k <= -1 ==> k * d <= -d
  {
    if k >= 1 {
      assert k * d == (k - 1) * d + d;
    } else if k <= -1 {
      assert k * d == (k + 1) * d - d && (k + 1) * d <= 0;
    }
  }

  /** Share is the only integer whose deviation from the exact share lies in [-1/2, 1/2). */
  lemma ShareBounds(i: int, minor: int, major: int)
    requires major > 0
    ensures var r := Share(i, minor, major); -major <= 2 * (r * major - i * minor) < major
  {
    var a: int := 2 * (i * minor) + major - 1;
    var r := Share(i, minor, major);
    DivBounds(a, 2 * major);
    assert 2 * major * r == 2 * (r * major);
  }

  lemma ShareUnique(i: int, minor: int, major: int, r: int)
    requires major > 0 && -major <= 2 * (r * major - i * minor) < major
    ensures r == Share(i, minor, major)
  {
    hide Share;
    var q := Share(i, minor, major);
    ShareBounds(i, minor, major);
    assert r * major - q * major == (r - q) * major;
    MultipleGap(r - q, major);
  }

  lemma ShareEnds(minor: nat, major: nat)
    requires major > 0
    ensures Share(0, minor, major) == 0 && Share(major, minor, major) == minor
  {
    assert minor * major == major * minor;
    ShareUnique(0, minor, major, 0);
    ShareUnique(major, minor, major, minor);
  }

  /** The rasteriser's decisions at pixel i, from its error term e: the major coordinate
      always steps, and the minor one steps exactly when the share does. */
  lemma Decision(i: int, minor: int, major: int, e: int)
    requires 0 <= i && 0 <= minor <= major && major > 0
    requires e == major - minor + Share(i, minor, major) * major - i * minor
    ensures 2 * e > -minor
    ensures Share(i + 1, minor, major) == Share(i, minor, major) + if 2 * e < major then 1 else 0
  {
    var r := Share(i, minor, major);
    ShareBounds(i, minor, major);
    var next := if 2 * e < major then r + 1 else r;
    assert (i + 1) * minor == i * minor + minor;
    assert (r + 1) * major == r * major + major;
    ShareUnique(i + 1, minor, major, next);
    if minor == major {
      ShareUnique(i, minor, major, i);
    }
  }

  // ---- The pixels ----

  /** The line starts and ends at its end points. */
  lemma EndPoints(l: Line)
    ensures l.Pixel(0) == Point(l.x0, l.y0)
    ensures l.Pixel(l.Steps()) == Point(l.x1, l.y1)
  {
    if l.Dx() >= l.Dy() && l.Dx() > 0 {
      ShareEnds(l.Dy(), l.Dx());
    } else if l.Dy() > 0 {
      ShareEnds(l.Dx(), l.Dy());
    }
  }

  /** Successive pixels are distinct neighbours, diagonals included. */
  lemma Adjacent(l: Line, i: nat)
    requires i < l.Steps()
    ensures var p, q := l.Pixel(i), l.Pixel(i + 1);
            p != q && Abs(p.x - q.x) <= 1 && Abs(p.y - q.y) <= 1
  {
    var minor, major := Min(l.Dx(), l.Dy()), l.Steps();
    Decision(i, minor, major, major - minor + Share(i, minor, major) * major - i * minor);
  }

  /** Pixel i is within half a pixel, along the minor axis, of the point of the ideal line
      that is i steps along the major axis. */
  lemma HalfPixel(l: Line, i: nat)
    requires 0 < l.Steps()
    ensures var p := l.Pixel(i);
            if l.Dx() >= l.Dy() then 2 * Abs(Abs(p.y - l.y0) * l.Dx() - i * l.Dy()) <= l.Dx()
            else 2 * Abs(Abs(p.x - l.x0) * l.Dy() - i * l.Dx()) <= l.Dy()
  {
    var minor, major := Min(l.Dx(), l.Dy()), l.Steps();
    ShareBounds(i, minor, major);
    ShareNonNegative(i, minor, major);
  }

  lemma ShareNonNegative(i: nat, minor: nat, major: nat)
    ensures Share(i, minor, major) >= 0
  {
    if major > 0 {
      DivBounds(2 * (i * minor) + major - 1, 2 * major);
    }
  }

  /** No pixel repeats, so a line of n steps has exactly n + 1 pixels. */
  lemma PixelsDistinct(l: Line, i: nat, j: nat)
    requires i != j && i <= l.Steps() && j <= l.Steps()
    ensures l.Pixel(i) != l.Pixel(j)
  {
  }

  // ---- Axis-parallel lines, which the code draws with separate loops ----

  lemma VerticalPixels(l: Line, p: Point)
    requires l.x0 == l.x1
    ensures l.Covers(l.Steps() + 1, p) <==> p.x == l.x0 && Min(l.y0, l.y1) <= p.y <= Max(l.y0, l.y1)
  {
    forall i: nat | i <= l.Steps()
      ensures l.Pixel(i) == Point(l.x0, l.y0 + l.Sy() * i)
    {
      VerticalPixel(l, i);
    }
    if p.x == l.x0 && Min(l.y0, l.y1) <= p.y <= Max(l.y0, l.y1) {
      assert l.Pixel(Abs(p.y - l.y0)) == p;
    }
  }

  lemma VerticalPixel(l: Line, i: nat)
    requires l.x0 == l.x1 && i <= l.Steps()
    ensures l.Pixel(i) == Point(l.x0, l.y0 + l.Sy() * i)
  {
    if l.Dy() > 0 {
      ShareUnique(i, 0, l.Dy(), 0);
    }
  }

  lemma HorizontalPixels(l: Line, p: Point)
    requires l.y0 == l.y1 && l.x0 != l.x1
    ensures l.Covers(l.Steps() + 1, p) <==> p.y == l.y0 && Min(l.x0, l.x1) <= p.x <= Max(l.x0, l.x1)
  {
    forall i: nat | i <= l.Steps()
      ensures l.Pixel(i) == Point(l.x0 + l.Sx() * i, l.y0)
    {
      ShareUnique(i, 0, l.Dx(), 0);
    }
    if p.y == l.y0 && Min(l.x0, l.x1) <= p.x <= Max(l.x0, l.x1) {
      assert l.Pixel(Abs(p.x - l.x0)) == p;
    }
  }
}
