// The tile map layer of src/game/tilemapscenelayer.cpp: its sizes and its render loops.
module TilemapSceneLayer {
  import opened TileRange
  import opened TileGroups
  import opened TileDraws

  datatype Size<T> = Size(width: T, height: T)

  /** The map's words, once there are any. */
  datatype MapData = NoData | Data(words: seq<nat>)

  class TilemapSceneLayer {
    var tilesets: seq<Entry>
    var size: Size<int>
    var tileSize: Size<int>
    var scale: Size<real>
    var translate: Point
    var data: MapData
    var visible: bool

    // Sizes on screen, derived from the others.
    var rtileSize: Size<real>
    var hrtileSize: Size<real>
    var rsize: Size<real>
    var hrsize: Size<real>

    constructor ()
      ensures Valid() && data == NoData && visible
    {
      tilesets, data, visible := [], NoData, true;
      size, tileSize, scale, translate := Size(0, 0), Size(0, 0), Size(1.0, 1.0), Point(0.0, 0.0);
      rtileSize, hrtileSize := Size(0.0, 0.0), Size(0.0, 0.0);
      rsize, hrsize := Size(0.0, 0.0), Size(0.0, 0.0);
    }

    /** The sizes on screen are those of the current map, tile size and scale. */
    ghost predicate Valid()
      reads this
    {
      && rtileSize == Size(Extent(scale.width, tileSize.width), Extent(scale.height, tileSize.height))
      && hrtileSize == Size(rtileSize.width / 2.0, rtileSize.height / 2.0)
      && rsize == Size(Extent(rtileSize.width, size.width), Extent(rtileSize.height, size.height))
      && hrsize == Size(rsize.width / 2.0, rsize.height / 2.0)
    }

    ghost function Geometry(): Layer
      reads this
    {
      Layer(size.width, size.height, rtileSize.width, rtileSize.height, translate.x, translate.y)
    }

    method Recalculate()
      modifies this`rtileSize, this`hrtileSize, this`rsize, this`hrsize
      ensures Valid()
      ensures rtileSize.width == tileSize.width as real * scale.width
      ensures rtileSize.height == tileSize.height as real * scale.height
      ensures rsize.width == size.width as real * rtileSize.width == 2.0 * hrsize.width
      ensures rsize.height == size.height as real * rtileSize.height == 2.0 * hrsize.height
      ensures rtileSize.width == 2.0 * hrtileSize.width && rtileSize.height == 2.0 * hrtileSize.height
    {
      rtileSize := Size(Extent(scale.width, tileSize.width), Extent(scale.height, tileSize.height));
      hrtileSize := Size(rtileSize.width / 2.0, rtileSize.height / 2.0);
      rsize := Size(Extent(rtileSize.width, size.width), Extent(rtileSize.height, size.height));
      hrsize := Size(rsize.width / 2.0, rsize.height / 2.0);
    }

    method SetSize(s: Size<int>)
      modifies this`size, this`rtileSize, this`hrtileSize, this`rsize, this`hrsize
      ensures Valid() && size == s
    {
      size := s;
      Recalculate();
    }

    method SetTileSize(s: Size<int>)
      modifies this`tileSize, this`rtileSize, this`hrtileSize, this`rsize, this`hrsize
      ensures Valid() && tileSize == s
    {
      tileSize := s;
      Recalculate();
    }

    method SetScale(s: Size<real>)
      modifies this`scale, this`rtileSize, this`hrtileSize, this`rsize, this`hrsize
      ensures Valid() && scale == s
    {
      scale := s;
      Recalculate();
    }

    method SetData(d: MapData)
      modifies this`data
      ensures data == d
    {
      data := d;
    }

    /** Attached tilesets are kept by ascending key. */
    method AttachTileset(key: nat, tileset: int)
      modifies this`tilesets
      ensures tilesets == Attached(old(tilesets), Entry(key, tileset))
    {
      tilesets := Attached(tilesets, Entry(key, tileset));
    }

    method Tileset(index: nat) returns (found: Entry)
      ensures found == TilesetFor(tilesets, index)
    {
      found := NONE;
      var todo := tilesets;
      while todo != []
        invariant Best(todo, index, found) == TilesetFor(tilesets, index)
      {
        var e := todo[0];
        if e.key <= index && found.key < e.key {
          found := e;
        }
        todo := todo[1..];
      }
    }

    method VisibleRange(v: View) returns (colStart: int, colStop: int, rowStart: int, rowStop: int)
      requires Valid() && Drawable(Geometry())
      ensures colStart == ColStart(v, Geometry()) && colStop == ColStop(v, Geometry())
      ensures rowStart == RowStart(v, Geometry()) && rowStop == RowStop(v, Geometry())
    {
      var x, y := v.x + translate.x, v.y + translate.y;
      var left, right, top, bottom;
      if v.rotated {
        left, right := x - v.radius, x + v.radius;
        top, bottom := y + v.radius, y - v.radius;
      } else {
        left, right := x - v.width / 2.0 - hrtileSize.width, x + v.width / 2.0 + hrtileSize.width;
        top, bottom := y + v.height / 2.0 + hrtileSize.height, y - v.height / 2.0 - hrtileSize.height;
      }
      ghost var l := Geometry();
      assert left + hrsize.width == v.x + l.x - MarginX(v, l) + HalfWidth(l);
      assert right + hrsize.width == v.x + l.x + MarginX(v, l) + HalfWidth(l);
      assert top - hrsize.height == v.y + l.y + MarginY(v, l) - HalfHeight(l);
      assert bottom - hrsize.height == v.y + l.y - MarginY(v, l) - HalfHeight(l);
      colStart := Cells(left + hrsize.width, rtileSize.width, size.width as real).Floor;
      colStop := Ceiling(Cells(right + hrsize.width, rtileSize.width, size.width as real));
      rowStart := Cells(top - hrsize.height, rtileSize.height, -(size.height as real)).Floor;
      rowStop := Ceiling(Cells(bottom - hrsize.height, rtileSize.height, -(size.height as real)));
    }

    /** The scan: every non-empty cell of the range is counted under its tile index and its origin kept. */
    method Collect(rowStart: int, rowStop: int, colStart: int, colStop: int) returns (g: Groups)
      requires Valid() && data.Data? && MapFits(data.words, Geometry())
      ensures g == RangeGroups(data.words, Geometry(), rowStart, rowStop, colStart, colStop, NO_GROUPS)
    {
      g := NO_GROUPS;
      var r := rowStart;
      ghost var l := Geometry();
      ghost var d := data.words;
      while r < rowStop
        invariant RangeGroups(d, l, r, rowStop, colStart, colStop, g)
                  == RangeGroups(d, l, rowStart, rowStop, colStart, colStop, NO_GROUPS)
      {
        g := CollectRow(r, colStart, colStop, g);
        r := r + 1;
      }
    }

    method CollectRow(r: int, colStart: int, colStop: int, before: Groups) returns (g: Groups)
      requires Valid() && data.Data? && MapFits(data.words, Geometry())
      ensures g == RowGroups(data.words, Geometry(), r, colStart, colStop, before)
    {
      g := before;
      var rowIndex := Remainder(r, size.height);
      var rowOffset := ((if rowIndex >= 0 then 0 else size.height) + rowIndex) * size.width;
      var c := colStart;
      ghost var l := Geometry();
      ghost var d := data.words;
      while c < colStop
        invariant RowGroups(d, l, r, c, colStop, g) == RowGroups(d, l, r, colStart, colStop, before)
      {
        g := CollectCell(r, c, rowOffset, g);
        c := c + 1;
      }
    }

    method CollectCell(r: int, c: int, rowOffset: int, before: Groups) returns (g: Groups)
      requires Valid() && data.Data? && MapFits(data.words, Geometry())
      requires rowOffset == Wrap(r, size.height) * size.width
      ensures g == Grouped(SpotAt(data.words, Geometry(), r, c), before)
    {
      g := before;
      ghost var address := Address(size.width, size.height, r, c);
      var colIndex := Remainder(c, size.width);
      var index := data.words[rowOffset + (if colIndex >= 0 then 0 else size.width) + colIndex];
      if index != 0 {
        var x, y := Extent(rtileSize.width, c), Extent(rtileSize.height, size.height - r);
        x, y := x - hrsize.width, y - hrsize.height;
        x, y := x - translate.x, y - translate.y;
        y := y - rtileSize.height;
        g := CountIn(index, Point(x, y), g);
      }
    }

    /** One cell goes to its group: its index is counted, and its origin inserted after the others of that index. */
    method CountIn(index: nat, at: Point, before: Groups) returns (g: Groups)
      ensures g == Grouped([Spot(index, at)], before)
    {
      var counts := Counted(before.counts, index);
      var current := CountOf(counts, index);
      var max := before.max;
      if max < current {
        max := current;
      }
      var others := if index in before.origins then before.origins[index] else [];
      g := Groups(counts, before.origins[index := others + [at]], max);
    }

    /** The origins of one tile index are copied into the shared array. */
    method CopyOrigins(points: seq<Point>, origins: array<Point>) returns (used: nat)
      requires |points| <= origins.Length
      modifies origins
      ensures used == |points| && origins[..used] == points
    {
      used := 0;
      while used < |points|
        invariant used <= |points| && origins[..used] == points[..used]
      {
        origins[used] := points[used];
        used := used + 1;
      }
    }

    /** The draw of one tile index, if a tileset answers for it; count is what the scan counted. */
    method PaintOne(index: nat, count: nat, g: Groups, origins: array<Point>, ghost spots: seq<Spot>)
      returns (draws: seq<Draw>)
      requires Tells(g, spots, index) && count == CountOf(g.counts, index) && g.max <= origins.Length
      modifies origins
      ensures draws == DrawsFor(index, spots, tilesets)
    {
      var used := CopyOrigins(if index in g.origins then g.origins[index] else [], origins);
      assert used == count;
      var e := Tileset(index);
      TilesetIsLargest(tilesets, index);
      draws := if e.key > 0 then [DrawOf(index, e, origins[..used])] else [];
    }

    /** The draws, by ascending tile index. The array shared by them has room for the largest group. */
    method Paint(g: Groups, ghost spots: seq<Spot>) returns (draws: seq<Draw>)
      requires g == Grouped(spots, NO_GROUPS)
      ensures draws == Drawn(spots, tilesets)
    {
      GroupsOfScan(spots);
      OwnCounts(g.counts);
      var origins := new Point[g.max];
      draws := [];
      var todo := g.counts;
      while todo != []
        invariant draws + DrawsOf(todo, spots, tilesets) == Drawn(spots, tilesets)
        invariant forall i :: 0 <= i < |todo| ==> CountOf(g.counts, todo[i].index) == todo[i].count
      {
        assert Tells(g, spots, todo[0].index);
        var more := PaintOne(todo[0].index, todo[0].count, g, origins, spots);
        PaintStep(draws, todo, spots, tilesets);
        draws := draws + more;
        todo := todo[1..];
      }
    }

    method Render(v: View) returns (draws: seq<Draw>)
      requires Valid() && (data.Data? && visible ==> MapFits(data.words, Geometry()))
      ensures data == NoData || !visible ==> draws == []
      ensures data.Data? && visible ==>
        var tile := Size(tileSize.width as real * scale.width, tileSize.height as real * scale.height);
        var layer := Layer(size.width, size.height, tile.width, tile.height, translate.x, translate.y);
        layer == Geometry() && draws == Drawn(Scan(data.words, layer, v), tilesets)
    {
      if data == NoData || !visible { return []; }
      var colStart, colStop, rowStart, rowStop := VisibleRange(v);
      var g := Collect(rowStart, rowStop, colStart, colStop);
      RangeGroupsAreGrouped(data.words, Geometry(), rowStart, rowStop, colStart, colStop, NO_GROUPS);
      draws := Paint(g, Scan(data.words, Geometry(), v));
    }
  }

  lemma PaintStep(done: seq<Draw>, todo: seq<Count>, spots: seq<Spot>, tilesets: seq<Entry>)
    requires todo != []
    ensures done + DrawsOf(todo, spots, tilesets)
            == (done + DrawsFor(todo[0].index, spots, tilesets)) + DrawsOf(todo[1..], spots, tilesets)
  {
  }

  lemma {:induction false} OwnCounts(q: seq<Count>)
    requires Ascending(q)
    ensures forall i :: 0 <= i < |q| ==> CountOf(q, q[i].index) == q[i].count
  {
    if q != [] {
      OwnCounts(q[1..]);
      forall i | 0 < i < |q|
        ensures CountOf(q, q[i].index) == q[i].count
      {
        assert q[1..][i - 1] == q[i];
      }
    }
  }

  function Attached(q: seq<Entry>, e: Entry): seq<Entry>
  {
    if q == [] || q[0].key > e.key then [e] + q
    else if q[0].key == e.key then [e] + q[1..]
    else [q[0]] + Attached(q[1..], e)
  }

  predicate KeysAscend(q: seq<Entry>)
  {
    forall i, j :: 0 <= i < j < |q| ==> q[i].key < q[j].key
  }

  /** Attaching a tileset replaces the one under its key and leaves every other. */
  lemma {:induction false} AttachedMembers(q: seq<Entry>, e: Entry, f: Entry)
    requires KeysAscend(q)
    ensures f in Attached(q, e) <==> f == e || (f in q && f.key != e.key)
  {
    if q != [] {
      assert q == [q[0]] + q[1..];
      assert forall g :: g in q[1..] ==> q[0].key < g.key;
      if q[0].key < e.key { AttachedMembers(q[1..], e, f); }
    }
  }

  /** The tilesets stay in the order of their keys. */
  lemma {:induction false} AttachedKeepsOrder(q: seq<Entry>, e: Entry)
    requires KeysAscend(q)
    ensures KeysAscend(Attached(q, e))
  {
    if q != [] && q[0].key < e.key {
      var r := Attached(q[1..], e);
      AttachedKeepsOrder(q[1..], e);
      forall i | 0 <= i < |r|
        ensures q[0].key < r[i].key
      {
        AttachedMembers(q[1..], e, r[i]);
      }
    }
  }
}
