// The tileset of src/graphics/tileset.cpp: settings, offset tables, and the cache of texture coordinates.
module Tileset {
  import opened Atlas
  import opened Sequences

  /** A texture: the object it is, and its size in pixels when it was handed over. */
  datatype Texture = Texture(id: int, width: int, height: int)

  /** Whether two textures are one object, or both missing; it may have been reloaded at another size meanwhile. */
  predicate SameObject(t: Option<Texture>, u: Option<Texture>)
  {
    (t == None && u == None) || (t.Some? && u.Some? && t.value.id == u.value.id)
  }

  /** Textures are one object exactly when their identities are equal, whatever their sizes; a missing one is none. */
  lemma SameObjectById(t: Texture, u: Texture)
    ensures SameObject(Some(t), Some(u)) <==> t.id == u.id
    ensures SameObject(None, None) && !SameObject(Some(t), None) && !SameObject(None, Some(t))
  {
  }

  class Tileset {
    var width: int
    var height: int
    var tileWidth: int
    var tileHeight: int
    var margin: int
    var spacing: int
    var texture: Option<Texture>
    var cache: array?<Option<Coords>>
    var offsetCol: array?<real>
    var offsetRow: array?<real>
    var proportion: (real, real)

    constructor ()
      ensures Valid() && texture == None
    {
      width, height, tileWidth, tileHeight := 16, 16, 16, 16;
      margin, spacing, texture := 0, 0, None;
      cache, offsetCol, offsetRow := null, null, null;
      proportion := (0.0, 0.0);
    }

    function Settings(): Sheet
      reads `margin, `spacing, `tileWidth, `tileHeight, `texture
    {
      match texture
      case None => Sheet(margin, spacing, tileWidth, tileHeight, 0, 0)
      case Some(t) => Sheet(margin, spacing, tileWidth, tileHeight, t.width, t.height)
    }

    /** Without a texture there are no tables. With one, the tables are those of the current settings, the cache has a
        place for every tile, and what it holds are the current coordinates. */
    ghost predicate Valid()
      reads this, cache, offsetCol, offsetRow
    {
      if texture == None then cache == null && offsetCol == null && offsetRow == null
      else
        && Measurable(Settings())
        && Measured()
        && cache != null && offsetCol != null && offsetRow != null && cache.Length == width * height
        && OffsetsOf(offsetCol[..], Columns(Settings()), margin, tileWidth + spacing, Settings().width)
        && OffsetsOf(offsetRow[..], Rows(Settings()), margin, tileHeight + spacing, Settings().height)
        && Fresh(cache[..], Settings())
    }

    ghost predicate Measured()
      reads this
      requires Measurable(Settings())
    {
      var s := Settings();
      && width == Columns(s) && height == Rows(s)
      && proportion == (s.tileWidth as real / s.width as real, s.tileHeight as real / s.height as real)
    }

    method SetTileSize(w: int, h: int)
      requires texture == None || Measurable(Settings().(tileWidth := w, tileHeight := h))
      modifies this
      ensures Valid() && Settings() == old(Settings()).(tileWidth := w, tileHeight := h)
      ensures texture == old(texture)
    {
      tileWidth, tileHeight := w, h;
      Reset();
    }

    method SetMargin(m: int)
      requires texture == None || Measurable(Settings().(margin := m))
      modifies this
      ensures Valid() && Settings() == old(Settings()).(margin := m)
      ensures texture == old(texture)
    {
      margin := m;
      Reset();
    }

    method SetSpacing(n: int)
      requires texture == None || Measurable(Settings().(spacing := n))
      modifies this
      ensures Valid() && Settings() == old(Settings()).(spacing := n)
      ensures texture == old(texture)
    {
      spacing := n;
      Reset();
    }

    /** Another object is measured. The same one is not measured again: the tables are then those of the size it had,
        and right exactly when it still has that size. */
    method SetTexture(t: Option<Texture>)
      requires Valid()
      requires t.Some? && !SameObject(t, texture) ==>
        Measurable(Settings().(width := t.value.width, height := t.value.height))
      modifies this
      ensures Valid() && texture == if SameObject(t, old(texture)) then old(texture) else t
      ensures texture == t <==> !(SameObject(t, old(texture)) && t != old(texture))
      ensures SameObject(t, old(texture)) ==> cache == old(cache)
      ensures margin == old(margin) && spacing == old(spacing)
      ensures tileWidth == old(tileWidth) && tileHeight == old(tileHeight)
    {
      if SameObject(t, texture) { return; }
      texture := t;
      Reset();
    }

    /** Forgets every cached coordinate and measures the texture again. */
    method Reset()
      requires texture == None || Measurable(Settings())
      modifies this`width, this`height, this`cache, this`offsetCol, this`offsetRow, this`proportion
      ensures Valid()
    {
      cache, offsetCol, offsetRow := null, null, null;
      proportion := (0.0, 0.0);
      width, height := 0, 0;
      if texture == None { return; }

      var s := Settings();
      width := Quotient(s.width - margin + spacing, tileWidth + spacing);
      height := Quotient(s.height - margin + spacing, tileHeight + spacing);
      proportion := (tileWidth as real / s.width as real, tileHeight as real / s.height as real);
      offsetCol := Offsets(width, margin, tileWidth + spacing, s.width);
      offsetRow := Offsets(height, margin, tileHeight + spacing, s.height);
      Area(width, height);
      cache := Empty(width * height);
    }

    /** The coordinates of tile i: from the cache, or computed and kept there. A texture that is missing or not loaded
        has none. */
    method Lookup(i: int, loaded: bool) returns (r: Option<Coords>)
      requires Valid() && (texture != None && loaded ==> Holds(Settings(), i))
      modifies cache
      ensures Valid()
      ensures texture == None || !loaded ==> r == None
      ensures texture.Some? && loaded ==>
        var t := texture.value;
        var sheet := Sheet(margin, spacing, tileWidth, tileHeight, t.width, t.height);
        sheet == Settings() && r == Some(CoordsOf(sheet, i))
    {
      if texture == None || !loaded { return None; }
      r := cache[i];
      if r == None {
        CellInSheet(Settings(), i);
        var left := offsetCol[i % width];
        var top := offsetRow[i / width];
        var right := left + proportion.0;
        var bottom := top + proportion.1;
        r := Some(Coords(left, top, right, bottom));
        Keep(i, r.value);
      }
    }

    method Keep(i: int, c: Coords)
      requires Valid() && texture != None && Holds(Settings(), i) && c == CoordsOf(Settings(), i)
      modifies cache
      ensures Valid()
    {
      cache[i] := Some(c);
    }
  }

  /** The table q of where n tiles begin, as proportions of the texture's extent. */
  predicate OffsetsOf(q: seq<real>, n: int, margin: int, step: int, extent: int)
    requires extent > 0
  {
    |q| == n && forall k :: 0 <= k < |q| ==> q[k] == Offset(margin, step, k, extent)
  }

  /** Every entry of the cache is empty or holds the coordinates computed from the settings. */
  predicate Fresh(q: seq<Option<Coords>>, s: Sheet)
    requires Measurable(s)
  {
    |q| == Columns(s) * Rows(s) && forall i :: 0 <= i < |q| ==> q[i] == None || q[i] == Some(CoordsOf(s, i))
  }

  lemma Area(w: int, h: int)
    requires w >= 0 && h >= 0
    ensures w * h >= 0
  {
  }

  method Offsets(n: int, margin: int, step: int, extent: int) returns (offsets: array<real>)
    requires n >= 0 && extent > 0
    ensures fresh(offsets) && OffsetsOf(offsets[..], n, margin, step, extent)
  {
    offsets := new real[n];
    var k := 0;
    while k < n
      invariant 0 <= k <= n
      invariant forall j :: 0 <= j < k ==> offsets[j] == Offset(margin, step, j, extent)
    {
      offsets[k] := (margin + k * step) as real / extent as real;
      k := k + 1;
    }
  }

  method Empty(n: int) returns (cache: array<Option<Coords>>)
    requires n >= 0
    ensures fresh(cache) && cache.Length == n && forall i :: 0 <= i < n ==> cache[i] == None
  {
    cache := new Option<Coords>[n];
    var i := 0;
    while i < n
      invariant 0 <= i <= n && forall j :: 0 <= j < i ==> cache[j] == None
    {
      cache[i] := None;
      i := i + 1;
    }
  }
}
