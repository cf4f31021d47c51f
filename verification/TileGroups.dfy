// How the visible cells of a tile map layer are addressed and grouped by tile index
// (src/game/tilemapscenelayer.cpp).
module TileGroups {
  import opened Sequences
  import opened TileRange

  datatype Point = Point(x: real, y: real)

  /** A cell that is drawn: its tile index and where its lower left corner goes. */
  datatype Spot = Spot(index: nat, at: Point)

  // ---------- Addresses ----------

  /** The remainder operator of C++, which takes the sign of its left operand. */
  function Remainder(a: int, n: int): int
    requires n > 0
  {
    if a >= 0 then a % n else -(-a % n)
  }

  /** The row or column a position wraps around to. */
  function Wrap(a: int, n: int): (i: int)
    requires n > 0
    ensures 0 <= i < n
  {
    var i := Remainder(a, n);
    (if i >= 0 then 0 else n) + i
  }

  lemma AtLeast(k: int, n: int)
    requires k > 0 && n > 0
    ensures k * n >= n
  {
  }

  lemma SmallMultiple(k: int, n: int)
    requires n > 0 && -n < k * n < n
    ensures k == 0
  {
    if k > 0 {
      AtLeast(k, n);
    } else if k < 0 {
      AtLeast(-k, n);
    }
  }

  lemma OneRemainder(a: int, n: int, q: int, r: int)
    requires n > 0 && a == q * n + r && 0 <= r < n
    ensures a % n == r
  {
    assert a == (a / n) * n + a % n;
    assert (a / n - q) * n == r - a % n;
    SmallMultiple(a / n - q, n);
  }

  /** Negative positions included, a position wraps to its Euclidean remainder: the map repeats without end. */
  lemma WrapIsModulo(a: int, n: int)
    requires n > 0
    ensures Wrap(a, n) == a % n
  {
    if a < 0 {
      var q, m := -a / n, -a % n;
      assert -a == q * n + m;
      if m == 0 {
        assert a == -q * n + 0;
        OneRemainder(a, n, -q, 0);
      } else {
        assert (-q - 1) * n == -q * n - n;
        OneRemainder(a, n, -q - 1, n - m);
      }
    }
  }

  /** The word of the map data that a cell shows. */
  function Address(columns: int, rows: int, r: int, c: int): (i: int)
    requires columns > 0 && rows > 0
    ensures 0 <= i < columns * rows
  {
    InGrid(columns, rows, Wrap(r, rows), Wrap(c, columns));
    Wrap(r, rows) * columns + Wrap(c, columns)
  }

  lemma InGrid(columns: int, rows: int, r: int, c: int)
    requires 0 <= r < rows && 0 <= c < columns
    ensures 0 <= r * columns + c < columns * rows
  {
    Product(r, columns);
    Product(rows - 1 - r, columns);
    Spread(rows, 1 + r, columns);
    Spread(1 + r, 1, columns);
  }

  lemma Product(a: int, b: int)
    requires a >= 0 && b >= 0
    ensures a * b >= 0
  {
  }

  lemma Spread(a: int, b: int, n: int)
    ensures (a - b) * n == a * n - b * n
  {
  }

  /** Every cell shows the word at its row modulo the height and its column modulo the width. */
  lemma AddressIsModulo(columns: int, rows: int, r: int, c: int)
    requires columns > 0 && rows > 0
    ensures Address(columns, rows, r, c) == (r % rows) * columns + c % columns
  {
    WrapIsModulo(r, rows);
    WrapIsModulo(c, columns);
  }

  // ---------- The scan ----------

  predicate MapFits(data: seq<nat>, l: Layer)
  {
    Drawable(l) && |data| == l.columns * l.rows
  }

  function TileAt(data: seq<nat>, l: Layer, r: int, c: int): nat
    requires MapFits(data, l)
  {
    data[Address(l.columns, l.rows, r, c)]
  }

  function SpotAt(data: seq<nat>, l: Layer, r: int, c: int): seq<Spot>
    requires MapFits(data, l)
  {
    var index := TileAt(data, l, r, c);
    if index == 0 then [] else [Spot(index, Point(OriginX(l, c), OriginY(l, r)))]
  }

  function RowSpots(data: seq<nat>, l: Layer, r: int, c: int, stop: int): seq<Spot>
    requires MapFits(data, l)
    decreases stop - c
  {
    if c >= stop then [] else SpotAt(data, l, r, c) + RowSpots(data, l, r, c + 1, stop)
  }

  /** The non-empty cells of a range, row by row. */
  function Spots(data: seq<nat>, l: Layer, r: int, rowStop: int, colStart: int, colStop: int): seq<Spot>
    requires MapFits(data, l)
    decreases rowStop - r
  {
    if r >= rowStop then []
    else RowSpots(data, l, r, colStart, colStop) + Spots(data, l, r + 1, rowStop, colStart, colStop)
  }

  /** The scan of a single cell: nothing when the word at its row modulo the height and its column modulo the width is
      zero, else that word at the cell's origin. */
  lemma OneCell(data: seq<nat>, l: Layer, r: int, c: int)
    requires MapFits(data, l)
    ensures 0 <= (r % l.rows) * l.columns + c % l.columns < |data|
    ensures
      var word := data[(r % l.rows) * l.columns + c % l.columns];
      RowSpots(data, l, r, c, c + 1) == if word == 0 then [] else [Spot(word, Point(OriginX(l, c), OriginY(l, r)))]
  {
    AddressIsModulo(l.columns, l.rows, r, c);
    assert RowSpots(data, l, r, c + 1, c + 1) == [];
    assert SpotAt(data, l, r, c) + [] == SpotAt(data, l, r, c);
  }

  /** A row is scanned from left to right: its first columns, then the others. */
  lemma {:induction false} RowSplits(data: seq<nat>, l: Layer, r: int, from: int, mid: int, stop: int)
    requires MapFits(data, l) && from <= mid <= stop
    ensures RowSpots(data, l, r, from, stop) == RowSpots(data, l, r, from, mid) + RowSpots(data, l, r, mid, stop)
    decreases mid - from
  {
    if from < mid {
      RowSplits(data, l, r, from + 1, mid, stop);
      Assoc(SpotAt(data, l, r, from), RowSpots(data, l, r, from + 1, mid), RowSpots(data, l, r, mid, stop));
    }
  }

  /** A range is scanned from its first row on, row after row. */
  lemma {:induction false} RowsSplit(data: seq<nat>, l: Layer, from: int, mid: int, stop: int, colStart: int,
      colStop: int)
    requires MapFits(data, l) && from <= mid <= stop
    ensures Spots(data, l, from, stop, colStart, colStop)
            == Spots(data, l, from, mid, colStart, colStop) + Spots(data, l, mid, stop, colStart, colStop)
    ensures Spots(data, l, from, from + 1, colStart, colStop) == RowSpots(data, l, from, colStart, colStop)
    decreases mid - from
  {
    assert Spots(data, l, from + 1, from + 1, colStart, colStop) == [];
    assert RowSpots(data, l, from, colStart, colStop) + [] == RowSpots(data, l, from, colStart, colStop);
    if from < mid {
      RowsSplit(data, l, from + 1, mid, stop, colStart, colStop);
      Assoc(RowSpots(data, l, from, colStart, colStop), Spots(data, l, from + 1, mid, colStart, colStop),
            Spots(data, l, mid, stop, colStart, colStop));
    }
  }

  function OriginOf(spot: Spot, index: nat): seq<Point>
  {
    if spot.index == index then [spot.at] else []
  }

  /** The origins of the spots with one tile index, in scan order. */
  function OriginsOf(spots: seq<Spot>, index: nat): seq<Point>
  {
    if spots == [] then [] else OriginOf(spots[0], index) + OriginsOf(spots[1..], index)
  }

  lemma {:induction false} OriginsJoin(a: seq<Spot>, b: seq<Spot>, index: nat)
    ensures OriginsOf(a + b, index) == OriginsOf(a, index) + OriginsOf(b, index)
  {
    if a == [] {
      assert a + b == b;
    } else {
      assert (a + b)[1..] == a[1..] + b;
      OriginsJoin(a[1..], b, index);
      Assoc(OriginOf(a[0], index), OriginsOf(a[1..], index), OriginsOf(b, index));
    }
  }

  // ---------- The groups ----------

  datatype Count = Count(index: nat, count: nat)

  /** The counts by ascending tile index, the origins by tile index in the order of their insertion, and the largest
      count. */
  datatype Groups = Groups(counts: seq<Count>, origins: map<nat, seq<Point>>, max: nat)

  const NO_GROUPS := Groups([], map[], 0)

  predicate Ascending(q: seq<Count>)
  {
    forall i, j :: 0 <= i < j < |q| ==> q[i].index < q[j].index
  }

  function CountOf(q: seq<Count>, index: nat): nat
  {
    if q == [] then 0 else if q[0].index == index then q[0].count else CountOf(q[1..], index)
  }

  /** One more for a tile index; a new index takes its place in the ascending order. */
  function Counted(q: seq<Count>, index: nat): seq<Count>
  {
    if q == [] || q[0].index > index then [Count(index, 1)] + q
    else if q[0].index == index then [Count(index, q[0].count + 1)] + q[1..]
    else [q[0]] + Counted(q[1..], index)
  }

  lemma {:induction false} NoCount(q: seq<Count>, index: nat)
    requires Ascending(q) && q != [] && q[0].index > index
    ensures CountOf(q, index) == 0
  {
    if q[1..] != [] {
      NoCount(q[1..], index);
    }
  }

  lemma {:induction false} CountedAdds(q: seq<Count>, index: nat, other: nat)
    requires Ascending(q)
    ensures CountOf(Counted(q, index), other) == CountOf(q, other) + if index == other then 1 else 0
  {
    var r := Counted(q, index);
    if q == [] || q[0].index > index {
      assert r[1..] == q;
      if q != [] { NoCount(q, index); }
    } else if q[0].index == index {
      assert r[1..] == q[1..];
    } else {
      assert r[1..] == Counted(q[1..], index);
      CountedAdds(q[1..], index, other);
    }
  }

  lemma {:induction false} CountedAscends(q: seq<Count>, index: nat)
    requires Ascending(q)
    ensures
      var r := Counted(q, index);
      Ascending(r) && r != []
      && (forall i :: 0 <= i < |r| ==> r[i].index >= if q == [] || q[0].index > index then index else q[0].index)
  {
    if q != [] && q[0].index < index {
      CountedAscends(q[1..], index);
      var r := Counted(q[1..], index);
      forall i | 0 <= i < |r|
        ensures r[i].index > q[0].index
      {
        if |q| > 1 { assert q[1..][0].index > q[0].index; }
      }
    }
  }

  function Added(g: Groups, spot: Spot): Groups
  {
    var counts := Counted(g.counts, spot.index);
    var before := if spot.index in g.origins then g.origins[spot.index] else [];
    Groups(counts, g.origins[spot.index := before + [spot.at]],
           if g.max < CountOf(counts, spot.index) then CountOf(counts, spot.index) else g.max)
  }

  function Grouped(spots: seq<Spot>, g: Groups): Groups
  {
    if spots == [] then g else Grouped(spots[1..], Added(g, spots[0]))
  }

  lemma {:induction false} GroupedJoin(a: seq<Spot>, b: seq<Spot>, g: Groups)
    ensures Grouped(a + b, g) == Grouped(b, Grouped(a, g))
  {
    if a == [] {
      assert a + b == b;
    } else {
      assert (a + b)[1..] == a[1..] + b;
      GroupedJoin(a[1..], b, Added(g, a[0]));
    }
  }

  /** What the groups say of one tile index once the given spots have been seen. */
  predicate Tells(g: Groups, seen: seq<Spot>, index: nat)
  {
    && CountOf(g.counts, index) == |OriginsOf(seen, index)| <= g.max
    && (index in g.origins <==> OriginsOf(seen, index) != [])
    && (index in g.origins ==> g.origins[index] == OriginsOf(seen, index))
  }

  /** The groups hold, for every tile index, exactly its spots: as many as were counted, their origins in scan order,
      and none more than the largest count. */
  ghost predicate Represents(g: Groups, seen: seq<Spot>)
  {
    && Ascending(g.counts)
    && (forall index: nat :: Tells(g, seen, index))
    && Reached(g.counts, g.max)
  }

  ghost predicate Reached(q: seq<Count>, max: nat)
  {
    max == 0 || exists index: nat :: CountOf(q, index) == max
  }

  lemma AddedTells(g: Groups, seen: seq<Spot>, spot: Spot, index: nat)
    requires Ascending(g.counts) && Tells(g, seen, index) && Tells(g, seen, spot.index)
    ensures Tells(Added(g, spot), seen + [spot], index)
  {
    CountedAdds(g.counts, spot.index, index);
    CountedAdds(g.counts, spot.index, spot.index);
    OriginsJoin(seen, [spot], index);
    assert OriginsOf([spot], index) == OriginOf(spot, index);
  }

  lemma AddedRepresents(g: Groups, seen: seq<Spot>, spot: Spot)
    requires Represents(g, seen)
    ensures Represents(Added(g, spot), seen + [spot])
  {
    var h := Added(g, spot);
    CountedAscends(g.counts, spot.index);
    forall index: nat
      ensures Tells(h, seen + [spot], index)
    {
      assert Tells(g, seen, index) && Tells(g, seen, spot.index);
      AddedTells(g, seen, spot, index);
    }
    MaxIsReached(g, spot);
  }

  lemma MaxIsReached(g: Groups, spot: Spot)
    requires Ascending(g.counts) && Reached(g.counts, g.max)
    ensures Reached(Added(g, spot).counts, Added(g, spot).max)
  {
    var h := Added(g, spot);
    CountedAdds(g.counts, spot.index, spot.index);
    if h.max != CountOf(h.counts, spot.index) {
      var index: nat :| CountOf(g.counts, index) == g.max;
      CountedAdds(g.counts, spot.index, index);
    }
  }

  lemma {:induction false} GroupedRepresents(spots: seq<Spot>, g: Groups, seen: seq<Spot>)
    requires Represents(g, seen)
    ensures Represents(Grouped(spots, g), seen + spots)
    decreases |spots|
  {
    if spots == [] {
      assert seen + spots == seen;
    } else {
      AddedRepresents(g, seen, spots[0]);
      GroupedRepresents(spots[1..], Added(g, spots[0]), seen + [spots[0]]);
      assert seen + spots == (seen + [spots[0]]) + spots[1..];
    }
  }

  /** The groups made from a scan represent it. */
  lemma GroupsOfScan(spots: seq<Spot>)
    ensures Represents(Grouped(spots, NO_GROUPS), spots)
  {
    GroupedRepresents(spots, NO_GROUPS, []);
    assert [] + spots == spots;
  }

  function Total(q: seq<Count>): nat
  {
    if q == [] then 0 else q[0].count + Total(q[1..])
  }

  lemma {:induction false} CountedTotal(q: seq<Count>, index: nat)
    ensures Total(Counted(q, index)) == Total(q) + 1
  {
    var r := Counted(q, index);
    if q == [] || q[0].index > index {
      assert r[1..] == q;
    } else if q[0].index == index {
      assert r[1..] == q[1..];
    } else {
      assert r[1..] == Counted(q[1..], index);
      CountedTotal(q[1..], index);
    }
  }

  /** Grouping conserves tiles: the counts add up to the number of cells scanned that are not empty. */
  lemma {:induction false} GroupedTotal(spots: seq<Spot>, g: Groups)
    ensures Total(Grouped(spots, g).counts) == Total(g.counts) + |spots|
    decreases |spots|
  {
    if spots != [] {
      CountedTotal(g.counts, spots[0].index);
      GroupedTotal(spots[1..], Added(g, spots[0]));
    }
  }

  // ---------- Grouping while scanning ----------

  /** The cells of one row from column c on, grouped as they are met. */
  function RowGroups(data: seq<nat>, l: Layer, r: int, c: int, stop: int, g: Groups): Groups
    requires MapFits(data, l)
    decreases stop - c
  {
    if c >= stop then g else RowGroups(data, l, r, c + 1, stop, Grouped(SpotAt(data, l, r, c), g))
  }

  /** The rows from r on, grouped as they are met. */
  function RangeGroups(data: seq<nat>, l: Layer, r: int, rowStop: int, colStart: int, colStop: int, g: Groups): Groups
    requires MapFits(data, l)
    decreases rowStop - r
  {
    if r >= rowStop then g
    else RangeGroups(data, l, r + 1, rowStop, colStart, colStop, RowGroups(data, l, r, colStart, colStop, g))
  }

  lemma {:induction false} RowGroupsAreGrouped(data: seq<nat>, l: Layer, r: int, c: int, stop: int, g: Groups)
    requires MapFits(data, l)
    ensures RowGroups(data, l, r, c, stop, g) == Grouped(RowSpots(data, l, r, c, stop), g)
    decreases stop - c
  {
    if c < stop {
      var spot := SpotAt(data, l, r, c);
      RowGroupsAreGrouped(data, l, r, c + 1, stop, Grouped(spot, g));
      GroupedJoin(spot, RowSpots(data, l, r, c + 1, stop), g);
    }
  }

  /** Grouping while scanning gives the groups of the whole scan. */
  lemma {:induction false} RangeGroupsAreGrouped(data: seq<nat>, l: Layer, r: int, rowStop: int,
                                                 colStart: int, colStop: int, g: Groups)
    requires MapFits(data, l)
    ensures RangeGroups(data, l, r, rowStop, colStart, colStop, g)
            == Grouped(Spots(data, l, r, rowStop, colStart, colStop), g)
    decreases rowStop - r
  {
    if r < rowStop {
      var row := RowSpots(data, l, r, colStart, colStop);
      RowGroupsAreGrouped(data, l, r, colStart, colStop, g);
      RangeGroupsAreGrouped(data, l, r + 1, rowStop, colStart, colStop, Grouped(row, g));
      GroupedJoin(row, Spots(data, l, r + 1, rowStop, colStart, colStop), g);
    }
  }
}
