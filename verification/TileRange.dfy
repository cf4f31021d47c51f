// The range of rows and columns a tile map layer draws (src/game/tilemapscenelayer.cpp), over real numbers.
module TileRange {

  /** What the camera shows: its centre, the size of the viewport, and whether it is turned. radius stands for the
      square root of the camera's visible magnitude. */
  datatype View = View(x: real, y: real, width: real, height: real, rotated: bool, radius: real)

  /** A layer: its size in cells, the size of a tile on screen, and its translation. */
  datatype Layer = Layer(columns: int, rows: int, tileWidth: real, tileHeight: real, x: real, y: real)

  predicate Drawable(l: Layer)
  {
    l.columns > 0 && l.rows > 0 && l.tileWidth > 0.0 && l.tileHeight > 0.0
  }

  predicate Sighted(v: View)
  {
    && v.width >= 0.0 && v.height >= 0.0 && v.radius >= 0.0
    && v.radius * v.radius == (v.width / 2.0) * (v.width / 2.0) + (v.height / 2.0) * (v.height / 2.0)
  }

  function Ceiling(x: real): int
  {
    -(-x).Floor
  }

  // ---------- The formulas ----------

  /** A distance as a number of cells: divided by the size of the map, times its number of cells. */
  function Cells(e: real, tile: real, n: real): real
    requires tile > 0.0 && n != 0.0
  {
    MapSize(tile, n);
    e / (tile * (if n > 0.0 then n else -n)) * n
  }

  lemma MapSize(tile: real, n: real)
    requires tile > 0.0 && n != 0.0
    ensures tile * (if n > 0.0 then n else -n) > 0.0
  {
  }

  /** The length of n cells. */
  function Extent(tile: real, n: int): real { n as real * tile }

  function HalfWidth(l: Layer): real { Extent(l.tileWidth, l.columns) / 2.0 }

  function HalfHeight(l: Layer): real { Extent(l.tileHeight, l.rows) / 2.0 }

  function MarginX(v: View, l: Layer): real
  {
    if v.rotated then v.radius else v.width / 2.0 + l.tileWidth / 2.0
  }

  function MarginY(v: View, l: Layer): real
  {
    if v.rotated then v.radius else v.height / 2.0 + l.tileHeight / 2.0
  }

  function ColStart(v: View, l: Layer): int
    requires Drawable(l)
  {
    Cells(v.x + l.x - MarginX(v, l) + HalfWidth(l), l.tileWidth, l.columns as real).Floor
  }

  function ColStop(v: View, l: Layer): int
    requires Drawable(l)
  {
    Ceiling(Cells(v.x + l.x + MarginX(v, l) + HalfWidth(l), l.tileWidth, l.columns as real))
  }

  function RowStart(v: View, l: Layer): int
    requires Drawable(l)
  {
    Cells(v.y + l.y + MarginY(v, l) - HalfHeight(l), l.tileHeight, -(l.rows as real)).Floor
  }

  function RowStop(v: View, l: Layer): int
    requires Drawable(l)
  {
    Ceiling(Cells(v.y + l.y - MarginY(v, l) - HalfHeight(l), l.tileHeight, -(l.rows as real)))
  }

  predicate InRange(v: View, l: Layer, r: int, c: int)
    requires Drawable(l)
  {
    RowStart(v, l) <= r < RowStop(v, l) && ColStart(v, l) <= c < ColStop(v, l)
  }

  /** Where the lower left corner of a cell is drawn. */
  function OriginX(l: Layer, c: int): real
  {
    Extent(l.tileWidth, c) - HalfWidth(l) - l.x
  }

  function OriginY(l: Layer, r: int): real
  {
    Extent(l.tileHeight, l.rows - r) - HalfHeight(l) - l.y - l.tileHeight
  }

  // ---------- Floors and ceilings ----------

  lemma Quotient(e: real, d: real, n: real, a: real)
    requires d > 0.0 && d == a * n
    ensures e / d * n * a == e
  {
    var q := e / d;
    assert q * d == e;
    assert q * n * a == q * (a * n);
  }

  /** The number of cells times the width of a cell is the distance again, measured from the other end when n < 0. */
  lemma CellsTimesTile(e: real, a: real, n: real)
    requires a > 0.0 && n != 0.0
    ensures Cells(e, a, n) * a == if n > 0.0 then e else -e
  {
    MapSize(a, n);
    if n > 0.0 {
      Quotient(e, a * n, n, a);
    } else {
      Quotient(e, a * -n, -n, a);
      var q := e / (a * -n);
      Opposite(q, n, a);
    }
  }

  lemma Opposite(q: real, n: real, a: real)
    ensures q * n * a == -(q * -n * a)
  {
  }

  lemma Compare(x: real, y: real, a: real, m: real, n: real)
    requires a > 0.0 && x * a == m && y * a == n
    ensures x < y <==> m < n
  {
    assert (y - x) * a == n - m;
    if x < y {
      assert (y - x) * a > 0.0;
    } else {
      assert (x - y) * a >= 0.0;
    }
  }

  lemma FloorIsBelow(x: real, i: int)
    ensures x.Floor <= i <==> x < i as real + 1.0
  {
  }

  lemma CeilingIsAbove(x: real, i: int)
    ensures i < Ceiling(x) <==> i as real < x
  {
  }

  /** A cell at or after the floor of p / a is one that ends after p, cells being a wide. */
  lemma FloorEdge(p: real, q: real, a: real, i: int)
    requires a > 0.0 && q * a == p
    ensures q.Floor <= i <==> Extent(a, i) + a > p
  {
    FloorIsBelow(q, i);
    Plus(i as real, 1.0, a);
    Compare(q, i as real + 1.0, a, p, Extent(a, i) + a);
  }

  /** A cell before the ceiling of p / a is one that begins before p. */
  lemma CeilingEdge(p: real, q: real, a: real, i: int)
    requires a > 0.0 && q * a == p
    ensures i < Ceiling(q) <==> Extent(a, i) < p
  {
    CeilingIsAbove(q, i);
    Compare(i as real, q, a, Extent(a, i), p);
  }

  lemma Plus(x: real, y: real, t: real)
    ensures (x + y) * t == x * t + y * t
  {
  }

  lemma Columns(v: View, l: Layer, c: int)
    requires Drawable(l)
    ensures ColStart(v, l) <= c <==> OriginX(l, c) + l.tileWidth > v.x - MarginX(v, l)
    ensures c < ColStop(v, l) <==> OriginX(l, c) < v.x + MarginX(v, l)
  {
    var a, n := l.tileWidth, l.columns as real;
    var p, q := v.x + l.x - MarginX(v, l) + HalfWidth(l), v.x + l.x + MarginX(v, l) + HalfWidth(l);
    CellsTimesTile(p, a, n);
    CellsTimesTile(q, a, n);
    FloorEdge(p, Cells(p, a, n), a, c);
    CeilingEdge(q, Cells(q, a, n), a, c);
  }

  lemma Rows(v: View, l: Layer, r: int)
    requires Drawable(l)
    ensures RowStart(v, l) <= r <==> OriginY(l, r) < v.y + MarginY(v, l)
    ensures r < RowStop(v, l) <==> OriginY(l, r) + l.tileHeight > v.y - MarginY(v, l)
  {
    var a, n := l.tileHeight, -(l.rows as real);
    var p, q := v.y + l.y + MarginY(v, l) - HalfHeight(l), v.y + l.y - MarginY(v, l) - HalfHeight(l);
    CellsTimesTile(p, a, n);
    CellsTimesTile(q, a, n);
    FloorEdge(-p, Cells(p, a, n), a, r);
    CeilingEdge(-q, Cells(q, a, n), a, r);
    FromTop(l, r);
  }

  lemma FromTop(l: Layer, r: int)
    ensures OriginY(l, r) + l.tileHeight == HalfHeight(l) - l.y - Extent(l.tileHeight, r)
  {
    var n, t := l.rows as real, l.tileHeight;
    Plus(n, -(r as real), t);
    assert (l.rows - r) as real == n + -(r as real);
    assert -(r as real) * t == -(r as real * t);
  }

  /** The map's middle is drawn at minus the translation, and the cells lie side by side, rows from the top down. */
  lemma MapIsCentred(l: Layer, r: int, c: int)
    ensures OriginX(l, 0) == -HalfWidth(l) - l.x && OriginX(l, l.columns) == HalfWidth(l) - l.x
    ensures OriginY(l, 0) + l.tileHeight == HalfHeight(l) - l.y
    ensures OriginY(l, l.rows) + l.tileHeight == -HalfHeight(l) - l.y
    ensures OriginX(l, c + 1) == OriginX(l, c) + l.tileWidth
    ensures OriginY(l, r + 1) + l.tileHeight == OriginY(l, r)
  {
    Plus(c as real, 1.0, l.tileWidth);
    Plus(r as real, 1.0, l.tileHeight);
    FromTop(l, 0);
    FromTop(l, r);
    FromTop(l, r + 1);
    FromTop(l, l.rows);
  }

  // ---------- What the range means ----------

  /** The cells drawn are exactly those whose rectangle overlaps the area around the camera: the viewport widened by
      half a tile on every side, or for a turned camera the square around its visible circle. */
  lemma RangeIsOverlap(v: View, l: Layer, r: int, c: int)
    requires Drawable(l)
    ensures InRange(v, l, r, c) <==>
      var w := if v.rotated then v.radius else (v.width + l.tileWidth) / 2.0;
      var h := if v.rotated then v.radius else (v.height + l.tileHeight) / 2.0;
      && OriginX(l, c) < v.x + w && OriginX(l, c) + l.tileWidth > v.x - w
      && OriginY(l, r) < v.y + h && OriginY(l, r) + l.tileHeight > v.y - h
  {
    Columns(v, l, c);
    Rows(v, l, r);
  }

  /** A point of the viewport: (a, b) away from its centre before the camera is turned, cosine and sine being those
      of the camera's rotation. */
  predicate Sees(v: View, cosine: real, sine: real, a: real, b: real, x: real, y: real)
  {
    && cosine * cosine + sine * sine == 1.0 && (!v.rotated ==> cosine == 1.0 && sine == 0.0)
    && -v.width / 2.0 <= a <= v.width / 2.0 && -v.height / 2.0 <= b <= v.height / 2.0
    && x == v.x + cosine * a - sine * b && y == v.y + sine * a + cosine * b
  }

  lemma Square(a: real, h: real)
    requires -h <= a <= h
    ensures a * a <= h * h
  {
    assert (h - a) * (h + a) >= 0.0;
    assert (h - a) * (h + a) == h * h - a * a;
  }

  lemma SquareGrows(r: real, x: real)
    requires 0.0 <= r < x
    ensures r * r < x * x
  {
    assert (x - r) * x > 0.0;
    assert (x - r) * r >= 0.0;
  }

  lemma Within(x: real, r: real)
    requires x * x <= r * r && r >= 0.0
    ensures -r <= x <= r
  {
    if x > r {
      SquareGrows(r, x);
    } else if x < -r {
      SquareGrows(r, -x);
    }
  }

  /** Turning a vector keeps its length. */
  lemma Turned(c: real, s: real, a: real, b: real)
    requires c * c + s * s == 1.0
    ensures (c * a - s * b) * (c * a - s * b) + (s * a + c * b) * (s * a + c * b) == a * a + b * b
  {
    Expand(c, s, a, b);
    assert (c * c + s * s) * (a * a + b * b) == a * a + b * b;
  }

  lemma Expand(c: real, s: real, a: real, b: real)
    ensures (c * a - s * b) * (c * a - s * b) + (s * a + c * b) * (s * a + c * b) == (c * c + s * s) * (a * a + b * b)
  {
  }

  /** A turned vector of the viewport stays within the visible radius. */
  lemma WithinRadius(c: real, s: real, a: real, b: real, w: real, h: real, radius: real)
    requires c * c + s * s == 1.0 && -w <= a <= w && -h <= b <= h
    requires radius >= 0.0 && radius * radius == w * w + h * h
    ensures -radius <= c * a - s * b <= radius && -radius <= s * a + c * b <= radius
  {
    var p, q := c * a - s * b, s * a + c * b;
    Turned(c, s, a, b);
    Square(a, w);
    Square(b, h);
    assert p * p >= 0.0 && q * q >= 0.0;
    Within(p, radius);
    Within(q, radius);
  }

  lemma SeenWithinMargin(v: View, l: Layer, cosine: real, sine: real, a: real, b: real, x: real, y: real)
    requires Drawable(l) && Sighted(v) && Sees(v, cosine, sine, a, b, x, y)
    ensures v.x - MarginX(v, l) <= x <= v.x + MarginX(v, l)
    ensures v.y - MarginY(v, l) <= y <= v.y + MarginY(v, l)
  {
    if v.rotated {
      WithinRadius(cosine, sine, a, b, v.width / 2.0, v.height / 2.0, v.radius);
    }
  }

  /** No visible cell is culled: a cell with a point inside it that the camera sees is in the range, whatever the
      camera's position and rotation and the layer's size, scale and translation. */
  lemma NothingVisibleCulled(v: View, l: Layer, r: int, c: int,
                             cosine: real, sine: real, a: real, b: real, x: real, y: real)
    requires Drawable(l) && Sighted(v) && Sees(v, cosine, sine, a, b, x, y)
    requires OriginX(l, c) < x < OriginX(l, c) + l.tileWidth
    requires OriginY(l, r) < y < OriginY(l, r) + l.tileHeight
    ensures InRange(v, l, r, c)
  {
    SeenWithinMargin(v, l, cosine, sine, a, b, x, y);
    RangeIsOverlap(v, l, r, c);
  }
}
