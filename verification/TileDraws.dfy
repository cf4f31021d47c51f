// Which tileset a tile index belongs to, and the draws made from the grouped cells
// (src/game/tilemapscenelayer.cpp).
module TileDraws {
  import opened TileGroups
  import opened TileRange

  /** A tileset attached under a key: the first tile index it answers for. */
  datatype Entry = Entry(key: nat, tileset: int)

  const NONE := Entry(0, 0)

  /** The walk over the attached tilesets, keeping the best so far. */
  function Best(tilesets: seq<Entry>, index: nat, best: Entry): Entry
  {
    if tilesets == [] then best
    else
      var e := tilesets[0];
      Best(tilesets[1..], index, if e.key <= index && best.key < e.key then e else best)
  }

  function TilesetFor(tilesets: seq<Entry>, index: nat): Entry
  {
    Best(tilesets, index, NONE)
  }

  lemma {:induction false} BestIsLargest(tilesets: seq<Entry>, index: nat, best: Entry)
    requires best.key <= index
    ensures
      var r := Best(tilesets, index, best);
      && best.key <= r.key <= index
      && (r == best || r in tilesets)
      && (forall e :: e in tilesets && e.key <= index ==> e.key <= r.key)
    decreases |tilesets|
  {
    if tilesets != [] {
      var e := tilesets[0];
      BestIsLargest(tilesets[1..], index, if e.key <= index && best.key < e.key then e else best);
      assert tilesets == [e] + tilesets[1..];
    }
  }

  /** The tileset found is the one with the largest key up to the index; a tileset under key 0 is never found. */
  lemma TilesetIsLargest(tilesets: seq<Entry>, index: nat)
    ensures
      var r := TilesetFor(tilesets, index);
      && (r.key > 0 <==> exists e :: e in tilesets && 0 < e.key <= index)
      && (r.key > 0 ==> r in tilesets && r.key <= index)
      && (forall e :: e in tilesets && e.key <= index ==> e.key <= r.key)
  {
    BestIsLargest(tilesets, index, NONE);
  }

  /** One draw call: the tileset and the tile within it (a 16-bit number), at each of the origins. */
  datatype Draw = Draw(index: nat, tileset: Entry, tile: nat, origins: seq<Point>)

  function DrawOf(index: nat, tileset: Entry, origins: seq<Point>): Draw
    requires tileset.key <= index
  {
    Draw(index, tileset, (index - tileset.key) % 0x10000, origins)
  }

  function DrawsFor(index: nat, spots: seq<Spot>, tilesets: seq<Entry>): seq<Draw>
  {
    var e := TilesetFor(tilesets, index);
    TilesetIsLargest(tilesets, index);
    if e.key > 0 then [DrawOf(index, e, OriginsOf(spots, index))] else []
  }

  /** The draws, by ascending tile index; an index without a tileset is skipped. */
  function DrawsOf(counts: seq<Count>, spots: seq<Spot>, tilesets: seq<Entry>): seq<Draw>
  {
    if counts == [] then [] else DrawsFor(counts[0].index, spots, tilesets) + DrawsOf(counts[1..], spots, tilesets)
  }

  function Drawn(spots: seq<Spot>, tilesets: seq<Entry>): seq<Draw>
  {
    DrawsOf(Grouped(spots, NO_GROUPS).counts, spots, tilesets)
  }

  lemma {:induction false} DrawsCome(counts: seq<Count>, spots: seq<Spot>, tilesets: seq<Entry>, i: nat)
    returns (k: nat)
    requires i < |DrawsOf(counts, spots, tilesets)|
    ensures
      var d := DrawsOf(counts, spots, tilesets)[i];
      k < |counts| && counts[k].index == d.index && [d] == DrawsFor(d.index, spots, tilesets)
  {
    var first := DrawsFor(counts[0].index, spots, tilesets);
    if i < |first| {
      k := 0;
    } else {
      k := DrawsCome(counts[1..], spots, tilesets, i - |first|);
      k := k + 1;
    }
  }

  lemma {:induction false} DrawsAscend(counts: seq<Count>, spots: seq<Spot>, tilesets: seq<Entry>)
    requires Ascending(counts)
    ensures DrawsInOrder(DrawsOf(counts, spots, tilesets))
  {
    if counts != [] {
      var first, rest := DrawsFor(counts[0].index, spots, tilesets), DrawsOf(counts[1..], spots, tilesets);
      DrawsAscend(counts[1..], spots, tilesets);
      forall j | 0 <= j < |rest|
        ensures rest[j].index > counts[0].index
      {
        var k := DrawsCome(counts[1..], spots, tilesets, j);
        assert counts[1..][k] == counts[k + 1];
      }
      JoinAscends(first, rest, counts[0].index);
    }
  }

  predicate DrawsInOrder(q: seq<Draw>)
  {
    forall i, j :: 0 <= i < j < |q| ==> q[i].index < q[j].index
  }

  lemma JoinAscends(first: seq<Draw>, rest: seq<Draw>, index: nat)
    requires |first| <= 1 && DrawsInOrder(rest) && (forall j :: 0 <= j < |rest| ==> rest[j].index > index)
    requires first != [] ==> first[0].index == index
    ensures DrawsInOrder(first + rest)
  {
  }

  lemma {:induction false} CountedIsDrawn(counts: seq<Count>, spots: seq<Spot>, tilesets: seq<Entry>, index: nat)
    returns (i: nat)
    requires CountOf(counts, index) > 0 && TilesetFor(tilesets, index).key > 0
    ensures i < |DrawsOf(counts, spots, tilesets)| && DrawsOf(counts, spots, tilesets)[i].index == index
  {
    var first := DrawsFor(counts[0].index, spots, tilesets);
    if counts[0].index == index {
      i := 0;
    } else {
      i := CountedIsDrawn(counts[1..], spots, tilesets, index);
      i := |first| + i;
    }
  }

  lemma {:induction false} SpotCounts(spots: seq<Spot>, i: nat)
    requires i < |spots|
    ensures OriginsOf(spots, spots[i].index) != []
  {
    if i > 0 { SpotCounts(spots[1..], i - 1); }
  }

  /** The draw shows the tile of its index: of the attached tilesets it takes the one with the largest key up to the
      index, and the tile that stands as far behind the key as the index does, as a 16-bit number. */
  predicate ShowsItsTile(d: Draw, tilesets: seq<Entry>)
  {
    && d.tileset in tilesets && 0 < d.tileset.key <= d.index
    && (forall e :: e in tilesets && e.key <= d.index ==> e.key <= d.tileset.key)
    && d.tile < 0x10000 && (d.tileset.key + d.tile) % 0x10000 == d.index % 0x10000
    && (d.index - d.tileset.key < 0x10000 ==> d.tileset.key + d.tile == d.index)
  }

  lemma DrawShowsItsTile(d: Draw, spots: seq<Spot>, tilesets: seq<Entry>)
    requires [d] == DrawsFor(d.index, spots, tilesets)
    ensures ShowsItsTile(d, tilesets) && d.origins == OriginsOf(spots, d.index)
  {
    TilesetIsLargest(tilesets, d.index);
    assert d == [d][0] == DrawOf(d.index, TilesetFor(tilesets, d.index), OriginsOf(spots, d.index));
    Modulo(d.index, d.tileset.key);
  }

  lemma Modulo(index: nat, key: nat)
    requires key <= index
    ensures (key + (index - key) % 0x10000) % 0x10000 == index % 0x10000
  {
  }

  /** Every tile index is drawn at most once; a draw shows the tile of its index at exactly the cells with that index,
      in scan order; and every cell whose index has a tileset is in a draw. */
  lemma EachCellDrawnOnce(spots: seq<Spot>, tilesets: seq<Entry>)
    ensures
      var q := Drawn(spots, tilesets);
      && DrawsInOrder(q)
      && (forall i :: 0 <= i < |q| ==> ShowsItsTile(q[i], tilesets) && q[i].origins == OriginsOf(spots, q[i].index))
      && (forall x :: 0 <= x < |spots| && TilesetFor(tilesets, spots[x].index).key > 0 ==>
            exists i :: 0 <= i < |q| && q[i].index == spots[x].index)
  {
    var g := Grouped(spots, NO_GROUPS);
    var q := Drawn(spots, tilesets);
    GroupsOfScan(spots);
    DrawsAscend(g.counts, spots, tilesets);
    forall i | 0 <= i < |q|
      ensures ShowsItsTile(q[i], tilesets) && q[i].origins == OriginsOf(spots, q[i].index)
    {
      var k := DrawsCome(g.counts, spots, tilesets, i);
      DrawShowsItsTile(q[i], spots, tilesets);
    }
    forall x | 0 <= x < |spots| && TilesetFor(tilesets, spots[x].index).key > 0
      ensures exists i :: 0 <= i < |q| && q[i].index == spots[x].index
    {
      SpotCounts(spots, x);
      assert Tells(g, spots, spots[x].index);
      var i := CountedIsDrawn(g.counts, spots, tilesets, spots[x].index);
    }
  }

  // ---------- Visible cells ----------

  /** The non-empty cells of the range that a layer draws for a view. */
  function Scan(data: seq<nat>, l: Layer, v: View): seq<Spot>
    requires MapFits(data, l)
  {
    Spots(data, l, RowStart(v, l), RowStop(v, l), ColStart(v, l), ColStop(v, l))
  }

  lemma {:induction false} RowHasSpot(data: seq<nat>, l: Layer, r: int, from: int, stop: int, c: int)
    requires MapFits(data, l) && from <= c < stop && TileAt(data, l, r, c) != 0
    ensures Spot(TileAt(data, l, r, c), Point(OriginX(l, c), OriginY(l, r))) in RowSpots(data, l, r, from, stop)
    decreases c - from
  {
    if from < c { RowHasSpot(data, l, r, from + 1, stop, c); }
  }

  lemma {:induction false} ScanHasSpot(data: seq<nat>, l: Layer, from: int, rowStop: int, colStart: int, colStop: int,
                                       r: int, c: int)
    requires MapFits(data, l) && from <= r < rowStop && colStart <= c < colStop && TileAt(data, l, r, c) != 0
    ensures Spot(TileAt(data, l, r, c), Point(OriginX(l, c), OriginY(l, r)))
            in Spots(data, l, from, rowStop, colStart, colStop)
    decreases r - from
  {
    var spot := Spot(TileAt(data, l, r, c), Point(OriginX(l, c), OriginY(l, r)));
    var row, rest := RowSpots(data, l, from, colStart, colStop), Spots(data, l, from + 1, rowStop, colStart, colStop);
    if from < r {
      ScanHasSpot(data, l, from + 1, rowStop, colStart, colStop, r, c);
      assert spot in row + rest;
    } else {
      RowHasSpot(data, l, r, colStart, colStop, c);
      assert spot in row + rest;
    }
  }

  lemma {:induction false} OriginIsKept(spots: seq<Spot>, spot: Spot)
    requires spot in spots
    ensures spot.at in OriginsOf(spots, spot.index)
  {
    if spots[0] != spot {
      assert spots == [spots[0]] + spots[1..];
      OriginIsKept(spots[1..], spot);
    }
  }

  /** Every non-empty cell the camera sees a point of, and whose tile index has a tileset, is drawn at its place, with
      the tile of its index. */
  lemma VisibleCellIsDrawn(data: seq<nat>, l: Layer, v: View, tilesets: seq<Entry>, r: int, c: int,
                           cosine: real, sine: real, a: real, b: real, x: real, y: real)
    requires MapFits(data, l) && Sighted(v) && Sees(v, cosine, sine, a, b, x, y)
    requires OriginX(l, c) < x < OriginX(l, c) + l.tileWidth
    requires OriginY(l, r) < y < OriginY(l, r) + l.tileHeight
    requires TileAt(data, l, r, c) != 0 && TilesetFor(tilesets, TileAt(data, l, r, c)).key > 0
    ensures
      var q := Drawn(Scan(data, l, v), tilesets);
      exists i :: 0 <= i < |q| && q[i].index == TileAt(data, l, r, c)
                  && ShowsItsTile(q[i], tilesets) && Point(OriginX(l, c), OriginY(l, r)) in q[i].origins
  {
    var spots := Scan(data, l, v);
    var spot := Spot(TileAt(data, l, r, c), Point(OriginX(l, c), OriginY(l, r)));
    NothingVisibleCulled(v, l, r, c, cosine, sine, a, b, x, y);
    ScanHasSpot(data, l, RowStart(v, l), RowStop(v, l), ColStart(v, l), ColStop(v, l), r, c);
    SpotIsDrawn(spots, tilesets, spot);
  }

  lemma SpotIsDrawn(spots: seq<Spot>, tilesets: seq<Entry>, spot: Spot)
    requires spot in spots && TilesetFor(tilesets, spot.index).key > 0
    ensures
      var q := Drawn(spots, tilesets);
      exists i :: 0 <= i < |q| && q[i].index == spot.index && ShowsItsTile(q[i], tilesets)
                  && spot.at in q[i].origins
  {
    EachCellDrawnOnce(spots, tilesets);
    OriginIsKept(spots, spot);
    var x :| 0 <= x < |spots| && spots[x] == spot;
    var q := Drawn(spots, tilesets);
    var i :| 0 <= i < |q| && q[i].index == spots[x].index;
    assert q[i].origins == OriginsOf(spots, spot.index);
  }
}
