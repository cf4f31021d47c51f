// The geometry of a tileset's texture (src/graphics/tileset.cpp): how many tiles it holds, and where they are.
module Atlas {

  /** The settings of a tileset and the size of its texture, in pixels. */
  datatype Sheet = Sheet(margin: int, spacing: int, tileWidth: int, tileHeight: int, width: int, height: int)

  /** The four sides of a tile as proportions of the texture. */
  datatype Coords = Coords(left: real, top: real, right: real, bottom: real)

  /** Division of integers in C++ drops the fraction, towards zero. */
  function Quotient(a: int, b: int): int
    requires b > 0
  {
    if a >= 0 then a / b else -(-a / b)
  }

  /** Towards zero on both sides of it. */
  lemma QuotientIsOdd(a: int, b: int)
    requires b > 0
    ensures Quotient(-a, b) == -Quotient(a, b)
  {
  }

  /** The number of tiles along one side. */
  function Count(extent: int, margin: int, tile: int, spacing: int): int
    requires tile + spacing > 0
  {
    Quotient(extent - margin + spacing, tile + spacing)
  }

  /** What the sizes of the arrays demand of the settings: steps that advance, and counts that are not negative. */
  predicate Measurable(s: Sheet)
  {
    && s.width > 0 && s.height > 0
    && s.tileWidth + s.spacing > 0 && s.tileHeight + s.spacing > 0
    && Columns(s) >= 0 && Rows(s) >= 0
  }

  function Columns(s: Sheet): int
    requires s.tileWidth + s.spacing > 0
  {
    Count(s.width, s.margin, s.tileWidth, s.spacing)
  }

  function Rows(s: Sheet): int
    requires s.tileHeight + s.spacing > 0
  {
    Count(s.height, s.margin, s.tileHeight, s.spacing)
  }

  /** Where tile k of a side begins, in pixels. */
  function Start(margin: int, step: int, k: int): int
  {
    margin + k * step
  }

  function Offset(margin: int, step: int, k: int, extent: int): real
    requires extent > 0
  {
    Start(margin, step, k) as real / extent as real
  }

  predicate Holds(s: Sheet, i: int)
    requires Measurable(s)
  {
    0 <= i < Columns(s) * Rows(s)
  }

  lemma SomeColumn(s: Sheet, i: int)
    requires Measurable(s) && Holds(s, i)
    ensures Columns(s) > 0
  {
    SomeFactor(Columns(s), Rows(s));
  }

  lemma SomeFactor(a: int, b: int)
    requires a >= 0 && a * b > 0
    ensures a > 0
  {
  }

  function Column(s: Sheet, i: int): int
    requires Measurable(s) && Holds(s, i)
  {
    SomeColumn(s, i);
    i % Columns(s)
  }

  function Row(s: Sheet, i: int): int
    requires Measurable(s) && Holds(s, i)
  {
    SomeColumn(s, i);
    i / Columns(s)
  }

  lemma CellInSheet(s: Sheet, i: int)
    requires Measurable(s) && Holds(s, i)
    ensures 0 <= Column(s, i) < Columns(s) && 0 <= Row(s, i) < Rows(s)
    ensures i == Row(s, i) * Columns(s) + Column(s, i)
  {
    SomeColumn(s, i);
    Split(i, Columns(s), Rows(s));
  }

  lemma Split(i: int, w: int, h: int)
    requires w > 0 && 0 <= i < w * h
    ensures 0 <= i % w < w && 0 <= i / w < h && i == (i / w) * w + i % w
  {
    var q := i / w;
    assert i == q * w + i % w;
    Multiples(q, h, w);
    Multiples(-1, q, w);
  }

  lemma Multiples(a: int, b: int, n: int)
    requires n > 0
    ensures a < b <==> a * n < b * n
  {
    assert (b - a) * n == b * n - a * n;
    if a < b {
      assert (b - a) * n > 0;
    } else {
      assert (a - b) * n >= 0;
    }
  }

  function CoordsOf(s: Sheet, i: int): Coords
    requires Measurable(s) && Holds(s, i)
  {
    var left := Offset(s.margin, s.tileWidth + s.spacing, Column(s, i), s.width);
    var top := Offset(s.margin, s.tileHeight + s.spacing, Row(s, i), s.height);
    Coords(left, top, left + s.tileWidth as real / s.width as real, top + s.tileHeight as real / s.height as real)
  }

  /** The first tile begins behind the margin, each other one a step behind the one before it. */
  lemma StartsStepByStep(margin: int, step: int, k: int)
    ensures Start(margin, step, 0) == margin && Start(margin, step, k + 1) == Start(margin, step, k) + step
  {
    assert (k + 1) * step == k * step + step;
  }

  /** A proportion of a side, in pixels. */
  function InPixels(x: real, extent: int): real
  {
    x * extent as real
  }

  lemma SideInPixels(margin: int, step: int, k: int, tile: int, extent: int)
    requires extent > 0
    ensures
      var x := Offset(margin, step, k, extent);
      && InPixels(x, extent) == Start(margin, step, k) as real
      && InPixels(x + tile as real / extent as real, extent) == (Start(margin, step, k) + tile) as real
  {
    Undone(Start(margin, step, k), extent);
    Sides(margin, step, tile, k, extent);
    Undone(Start(margin, step, k) + tile, extent);
  }

  lemma Undone(a: int, extent: int)
    requires extent > 0
    ensures InPixels(a as real / extent as real, extent) == a as real
  {
  }

  /** In pixels the rectangle of a tile begins where its column and its row do, and has the tile's size. */
  lemma CoordsInPixels(s: Sheet, i: int)
    requires Measurable(s) && Holds(s, i)
    ensures
      var c := CoordsOf(s, i);
      var x := Start(s.margin, s.tileWidth + s.spacing, Column(s, i));
      var y := Start(s.margin, s.tileHeight + s.spacing, Row(s, i));
      && InPixels(c.left, s.width) == x as real && InPixels(c.right, s.width) == (x + s.tileWidth) as real
      && InPixels(c.top, s.height) == y as real && InPixels(c.bottom, s.height) == (y + s.tileHeight) as real
  {
    SideInPixels(s.margin, s.tileWidth + s.spacing, Column(s, i), s.tileWidth, s.width);
    SideInPixels(s.margin, s.tileHeight + s.spacing, Row(s, i), s.tileHeight, s.height);
  }

  // ---------- What the counts mean ----------

  lemma QuotientBounds(a: int, b: int, k: int)
    requires a >= 0 && b > 0
    ensures k < a / b <==> (k + 1) * b <= a
  {
    var q := a / b;
    assert q * b <= a < q * b + b;
    assert (q + 1) * b == q * b + b;
    Multiples(q, k + 1, b);
    Multiples(k + 1, q + 1, b);
  }

  /** As many tiles as fit, no fewer: tile k ends inside the texture exactly when it is counted. */
  lemma CountedIffFits(extent: int, margin: int, tile: int, spacing: int, k: int)
    requires tile > 0 && spacing >= 0 && k >= 0
    ensures k < Count(extent, margin, tile, spacing) <==> Start(margin, tile + spacing, k) + tile <= extent
  {
    var a, b := extent - margin + spacing, tile + spacing;
    assert (k + 1) * b == k * b + b;
    assert k * b >= 0;
    if a >= 0 {
      QuotientBounds(a, b, k);
    } else {
      assert -a / b >= 0;
    }
  }

  lemma StepsApart(margin: int, step: int, tile: int, j: int, k: int)
    requires 0 < tile <= step && j < k
    ensures Start(margin, step, j) + tile <= Start(margin, step, k)
  {
    assert (k - j - 1) * step >= 0;
    assert (k - j - 1) * step == k * step - j * step - step;
  }

  /** Usual settings: real tiles, no negative margin or spacing. */
  predicate Plain(s: Sheet)
  {
    Measurable(s) && s.margin >= 0 && s.spacing >= 0 && s.tileWidth > 0 && s.tileHeight > 0
  }

  lemma ProportionOrder(a: int, b: int, extent: int)
    requires extent > 0
    ensures a <= b <==> a as real / extent as real <= b as real / extent as real
    ensures a as real / extent as real <= 1.0 <==> a <= extent
    ensures 0.0 <= a as real / extent as real <==> 0 <= a
  {
    var e := extent as real;
    var p, q := a as real / e, b as real / e;
    assert p * e == a as real && q * e == b as real;
    Order(p, q, e, a as real, b as real);
    Order(p, 1.0, e, a as real, e);
    Order(0.0, p, e, 0.0, a as real);
  }

  lemma Order(p: real, q: real, e: real, a: real, b: real)
    requires e > 0.0 && p * e == a && q * e == b
    ensures p <= q <==> a <= b
  {
    assert (q - p) * e == b - a;
    if p <= q {
      assert (q - p) * e >= 0.0;
    } else {
      assert (p - q) * e > 0.0;
    }
  }

  lemma Sides(margin: int, step: int, tile: int, k: int, extent: int)
    requires extent > 0
    ensures Offset(margin, step, k, extent) + tile as real / extent as real
            == (Start(margin, step, k) + tile) as real / extent as real
  {
    var a, b, e := Start(margin, step, k), tile, extent as real;
    var p, q, r := a as real / e, b as real / e, (a + b) as real / e;
    assert p * e == a as real && q * e == b as real && r * e == (a + b) as real;
    assert (p + q) * e == p * e + q * e;
    Order(p + q, r, e, (a + b) as real, (a + b) as real);
    Order(r, p + q, e, (a + b) as real, (a + b) as real);
  }

  /** Every tile lies inside the texture. */
  lemma TileInsideTexture(s: Sheet, i: int)
    requires Plain(s) && Holds(s, i)
    ensures
      var c := CoordsOf(s, i);
      0.0 <= c.left <= c.right <= 1.0 && 0.0 <= c.top <= c.bottom <= 1.0
  {
    CellInSheet(s, i);
    InsideSide(s.margin, s.spacing, s.tileWidth, Column(s, i), s.width);
    InsideSide(s.margin, s.spacing, s.tileHeight, Row(s, i), s.height);
  }

  lemma InsideSide(margin: int, spacing: int, tile: int, k: int, extent: int)
    requires margin >= 0 && spacing >= 0 && tile > 0 && extent > 0 && 0 <= k < Count(extent, margin, tile, spacing)
    ensures
      var left := Offset(margin, tile + spacing, k, extent);
      0.0 <= left <= left + tile as real / extent as real <= 1.0
  {
    var a := Start(margin, tile + spacing, k);
    assert k * (tile + spacing) >= 0;
    CountedIffFits(extent, margin, tile, spacing, k);
    Sides(margin, tile + spacing, tile, k, extent);
    ProportionOrder(a, a + tile, extent);
    ProportionOrder(a + tile, a, extent);
  }

  predicate Apart(c: Coords, d: Coords)
  {
    c.right <= d.left || d.right <= c.left || c.bottom <= d.top || d.bottom <= c.top
  }

  /** Different tiles do not overlap. */
  lemma TilesApart(s: Sheet, i: int, j: int)
    requires Plain(s) && Holds(s, i) && Holds(s, j) && i != j
    ensures Apart(CoordsOf(s, i), CoordsOf(s, j))
  {
    CellInSheet(s, i);
    CellInSheet(s, j);
    if Column(s, i) != Column(s, j) {
      ApartOnSide(s.margin, s.spacing, s.tileWidth, Column(s, i), Column(s, j), s.width);
    } else {
      ApartOnSide(s.margin, s.spacing, s.tileHeight, Row(s, i), Row(s, j), s.height);
    }
  }

  lemma ApartOnSide(margin: int, spacing: int, tile: int, j: int, k: int, extent: int)
    requires spacing >= 0 && tile > 0 && extent > 0 && j != k
    ensures
      var step, size := tile + spacing, tile as real / extent as real;
      var x, y := Offset(margin, step, j, extent), Offset(margin, step, k, extent);
      x + size <= y || y + size <= x
  {
    var step := tile + spacing;
    Sides(margin, step, tile, j, extent);
    Sides(margin, step, tile, k, extent);
    if j < k {
      StepsApart(margin, step, tile, j, k);
      ProportionOrder(Start(margin, step, j) + tile, Start(margin, step, k), extent);
    } else {
      StepsApart(margin, step, tile, k, j);
      ProportionOrder(Start(margin, step, k) + tile, Start(margin, step, j), extent);
    }
  }
}
