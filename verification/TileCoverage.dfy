/** Which tiles have objects: a bitmap for each zoom, filled from the index of small
    objects and from the boxes of large ones, and asked for the tiles to write. */
module TileCoverage {
  import opened Arithmetic
  import opened TileOrder
  import opened TileIndex
  import opened TileDataSource

  datatype Tile = Tile(x: nat, y: nat)

  /** A large object's box, in tiles of the index zoom, corners included. It may reach
      past the last column and row. */
  datatype Box = Box(minX: nat, maxX: nat, minY: nat, maxY: nat, minZoom: nat)

  type LargeBox = b: Box | b.minX <= b.maxX && b.minY <= b.maxY witness Box(0, 0, 0, 0, 0)

  // ----- Bitmaps -----

  type Bitmaps = seq<seq<bool>>

  ghost predicate BitmapsOk(bs: Bitmaps) {
    forall z :: 0 <= z < |bs| ==> |bs[z]| == Pow2(z) * Pow2(z)
  }

  /** Coordinates beyond the bitmap are not in it; within it, a row may be the next
      column's. */
  predicate Test(bs: Bitmaps, z: nat, x: nat, y: nat)
    requires z < |bs|
  {
    var loc := x * Pow2(z) + y;
    loc < |bs[z]| && bs[z][loc]
  }

  predicate OnMap(z: nat, x: nat, y: nat) {
    x < Pow2(z) && y < Pow2(z)
  }

  /** Tiles that share a bit: a row past the last is a row of the next column. */
  predicate SameBit(z: nat, s: Tile, t: Tile) {
    s.x * Pow2(z) + s.y == t.x * Pow2(z) + t.y
  }

  lemma SameBitSameTile(z: nat, s: Tile, t: Tile)
    requires SameBit(z, s, t) && s.y < Pow2(z) && t.y < Pow2(z)
    ensures s == t
  {
    var n := Pow2(z);
    DivModUnique(s.x * n + s.y, n, s.x, s.y);
    DivModUnique(t.x * n + t.y, n, t.x, t.y);
  }

  lemma BitOnMap(z: nat, x: nat, y: nat)
    requires OnMap(z, x, y)
    ensures x * Pow2(z) + y < Pow2(z) * Pow2(z)
  {
    var n := Pow2(z);
    MulMonotone(n, x + 1, n);
    NextMultiple(n, x);
  }

  function Up(t: Tile, zooms: nat): Tile {
    Tile(Ancestor(t.x, zooms), Ancestor(t.y, zooms))
  }

  /** The bitmaps show what they showed before, and the bits of these tiles of the highest
      zoom and of all tiles that contain them. */
  ghost predicate Shows(before: Bitmaps, now: Bitmaps, seen: set<Tile>) {
    && |before| == |now| && BitmapsOk(now)
    && forall z, x, y :: 0 <= z < |now| && OnMap(z, x, y) ==>
         (Test(now, z, x, y) <==> Test(before, z, x, y) || Covers(seen, |now| - 1, z, Tile(x, y)))
  }

  ghost predicate Covers(seen: set<Tile>, maxZoom: nat, z: nat, t: Tile)
    requires z <= maxZoom
  {
    exists s :: s in seen && SameBit(z, Up(s, maxZoom - z), t)
  }

  class ZoomResults {
    var bitmaps: Bitmaps

    ghost predicate Valid()
      reads this
    {
      |bitmaps| > 0 && BitmapsOk(bitmaps)
    }

    constructor (maxZoom: nat)
      ensures Valid() && |bitmaps| == maxZoom + 1
      ensures forall z, x, y :: 0 <= z < |bitmaps| ==> !Test(bitmaps, z, x, y)
    {
      bitmaps := seq(maxZoom + 1, z requires 0 <= z <= maxZoom => seq(Pow2(z) * Pow2(z), _ => false));
    }

    method Set(z: nat, x: nat, y: nat)
      requires Valid() && z < |bitmaps|
      modifies this
      ensures Valid() && |bitmaps| == old(|bitmaps|)
      ensures forall w, a, b :: 0 <= w < |bitmaps| && OnMap(w, a, b) ==>
        (Test(bitmaps, w, a, b) <==> Test(old(bitmaps), w, a, b) || (w == z && SameBit(z, Tile(x, y), Tile(a, b))))
    {
      hide Pow2;
      var loc := x * Pow2(z) + y;
      if loc < |bitmaps[z]| {
        bitmaps := bitmaps[z := bitmaps[z][loc := true]];
      }
      forall w, a, b | 0 <= w < |bitmaps| && OnMap(w, a, b)
        ensures Test(bitmaps, w, a, b) <==> Test(old(bitmaps), w, a, b) || (w == z && SameBit(z, Tile(x, y), Tile(a, b)))
      {
        BitOnMap(w, a, b);
      }
    }

    /** A tile of the highest zoom and those that contain it. */
    method Mark(t: Tile, ghost before: Bitmaps, ghost seen: set<Tile>)
      requires Valid() && Shows(before, bitmaps, seen)
      modifies this
      ensures Valid() && |bitmaps| == old(|bitmaps|) && Shows(before, bitmaps, seen + {t})
    {
      hide Test;
      hide OnMap;
      hide SameBit;
      hide Up;
      hide BitmapsOk;
      var zx, zy := t.x, t.y;
      var maxZoom := |bitmaps| - 1;
      var zoom := maxZoom;
      ghost var was := bitmaps;
      AtTop(t);
      while zoom >= 0
        invariant -1 <= zoom <= maxZoom == |bitmaps| - 1 && Valid()
        invariant zoom >= 0 ==> Tile(zx, zy) == Up(t, maxZoom - zoom)
        invariant forall z, x, y :: 0 <= z <= maxZoom && OnMap(z, x, y) ==>
          (Test(bitmaps, z, x, y) <==> Test(was, z, x, y) || (z > zoom && SameBit(z, Up(t, maxZoom - z), Tile(x, y))))
      {
        Set(zoom, zx, zy);
        if zoom > 0 {
          NextUp(t, maxZoom - zoom);
        }
        zx := zx / 2;
        zy := zy / 2;
        zoom := zoom - 1;
      }
      ShowsMore(before, was, bitmaps, seen, t);
    }

    lemma HasBitmaps()
      requires Valid()
      ensures |bitmaps| > 0
    {
    }

    /** Every object's tile, unless it is the tile of the object before. */
    method CollectTilesWithObjects<T>(indexZoom: zoomLevel, objects: seq<seq<Stored<T>>>, ghost before: Bitmaps, ghost seen: set<Tile>)
      returns (ghost all: set<Tile>)
      requires Valid() && Shows(before, bitmaps, seen) && |bitmaps| - 1 <= indexZoom
      requires |objects| == 4096
      modifies this
      ensures Valid() && |bitmaps| == old(|bitmaps|) && Shows(before, bitmaps, all)
      ensures forall t :: t in all <==> t in seen || HasObject(indexZoom, |bitmaps| - 1, objects, t, 4096, 0)
    {
      HasBitmaps();
      hide *;
      var maxZoom: nat := |bitmaps| - 1;
      var lastX: int, lastY: int := -1, -1;
      all := seen;
      var i := 0;
      NoObjects(indexZoom, maxZoom, objects, seen);
      while i < 4096
        invariant 0 <= i <= 4096 && Valid() && maxZoom == |bitmaps| - 1 && Shows(before, bitmaps, all)
        invariant ObjectsSeen(all, seen, indexZoom, maxZoom, objects, i, 0)
        invariant lastX >= 0 && lastY >= 0 ==> Tile(lastX, lastY) in all
      {
        for j := 0 to |objects[i]|
          invariant Valid() && maxZoom == |bitmaps| - 1 && Shows(before, bitmaps, all)
          invariant ObjectsSeen(all, seen, indexZoom, maxZoom, objects, i, j)
          invariant lastX >= 0 && lastY >= 0 ==> Tile(lastX, lastY) in all
        {
          var tile := TileOf(indexZoom, maxZoom, i, objects[i][j]);
          var x, y := tile.x, tile.y;
          OneMoreObject(all, seen, indexZoom, maxZoom, objects, i, j);
          if lastX != x || lastY != y {
            lastX, lastY := x, y;
            Mark(Tile(x, y), before, all);
            all := all + {Tile(x, y)};
          } else {
            assert all + {Tile(x, y)} == all;
          }
        }
        NextCell(all, seen, indexZoom, maxZoom, objects, i);
        i := i + 1;
      }
      AllObjects(all, seen, indexZoom, maxZoom, objects);
    }

    /** All tiles of the highest zoom that a large object's box meets. */
    method AddCoveredTilesToOutput(indexZoom: zoomLevel, box: LargeBox, ghost before: Bitmaps, ghost seen: set<Tile>)
      returns (ghost all: set<Tile>)
      requires Valid() && Shows(before, bitmaps, seen) && |bitmaps| - 1 <= indexZoom
      modifies this
      ensures Valid() && |bitmaps| == old(|bitmaps|) && Shows(before, bitmaps, all)
      ensures forall t :: t in all <==> t in seen || InBox(indexZoom, |bitmaps| - 1, box, t)
    {
      HasBitmaps();
      hide *;
      var maxZoom: nat := |bitmaps| - 1;
      AncestorMonotone(box.minX, box.maxX, indexZoom - maxZoom);
      AncestorMonotone(box.minY, box.maxY, indexZoom - maxZoom);
      var minx, maxx := Ancestor(box.minX, indexZoom - maxZoom), Ancestor(box.maxX, indexZoom - maxZoom);
      var miny, maxy := Ancestor(box.minY, indexZoom - maxZoom), Ancestor(box.maxY, indexZoom - maxZoom);
      all := seen;
      var x := minx;
      while x <= maxx
        invariant minx <= x <= maxx + 1 && Valid() && maxZoom == |bitmaps| - 1 && Shows(before, bitmaps, all)
        invariant forall t :: t in all <==> t in seen || (minx <= t.x < x && miny <= t.y <= maxy)
      {
        var y := miny;
        while y <= maxy
          invariant miny <= y <= maxy + 1 && Valid() && maxZoom == |bitmaps| - 1 && Shows(before, bitmaps, all)
          invariant forall t :: t in all <==> t in seen || (minx <= t.x < x && miny <= t.y <= maxy) || (t.x == x && miny <= t.y < y)
        {
          Mark(Tile(x, y), before, all);
          all := all + {Tile(x, y)};
          y := y + 1;
        }
        x := x + 1;
      }
      InBoxIs(indexZoom, maxZoom, box);
    }

    /** A source's small and large objects. */
    method MarkSource<T>(source: TileDataSource<T>, boxes: seq<LargeBox>)
      requires Valid() && source.Ready() && |bitmaps| - 1 <= source.indexZoom
      modifies this
      ensures Valid() && |bitmaps| == old(|bitmaps|)
      ensures forall z, x, y :: 0 <= z < |bitmaps| && OnMap(z, x, y) ==>
        (Test(bitmaps, z, x, y) <==>
           Test(old(bitmaps), z, x, y) || SomethingAt(source.indexZoom, source.indexed, boxes, z, x, y))
    {
      HasBitmaps();
      ghost var before := bitmaps;
      NothingSeen(before);
      hide *;
      ghost var all: set<Tile> := {};
      var indexZoom := source.indexZoom;
      ghost var maxZoom: nat := |bitmaps| - 1;
      ReadyCells(source);
      all := CollectTilesWithObjects(indexZoom, source.objects, before, {});
      ObjectsAreIndexed(source, maxZoom);
      var k := 0;
      NoBoxes(indexZoom, maxZoom, boxes);
      while k < |boxes|
        invariant 0 <= k <= |boxes| && Valid() && |bitmaps| == maxZoom + 1 && Shows(before, bitmaps, all)
        invariant forall t: Tile :: t in all <==>
          SmallAt(indexZoom, source.indexed, maxZoom, t.x, t.y) || InSomeBox(indexZoom, maxZoom, boxes[..k], t)
      {
        all := AddCoveredTilesToOutput(indexZoom, boxes[k], before, all);
        OneMoreBox(indexZoom, maxZoom, boxes, k);
        k := k + 1;
      }
      assert boxes[..|boxes|] == boxes;
      AllShown(indexZoom, source.indexed, boxes, before, bitmaps, all);
    }

    /** All sources, in turn. */
    method PopulateTilesAtZoom<T>(sources: seq<TileDataSource<T>>, boxes: seq<seq<LargeBox>>) returns (ok: bool)
      requires Valid() && |boxes| == |sources|
      requires forall i :: 0 <= i < |sources| ==> sources[i].Ready() && |bitmaps| - 1 <= sources[i].indexZoom
      modifies this
      ensures Valid() && |bitmaps| == old(|bitmaps|) && (ok <==> |bitmaps| <= 15)
      ensures !ok ==> bitmaps == old(bitmaps)
      ensures ok ==> forall z, x, y :: 0 <= z < |bitmaps| && OnMap(z, x, y) ==>
        (Test(bitmaps, z, x, y) <==> Test(old(bitmaps), z, x, y) || InSomeSource(sources, boxes, |sources|, z, x, y))
    {
      HasBitmaps();
      hide *;
      if |bitmaps| > 15 {
        return false;
      }
      NoSources(sources, boxes);
      for i := 0 to |sources|
        invariant Valid() && |bitmaps| == old(|bitmaps|)
        invariant forall z, x, y :: 0 <= z < |bitmaps| && OnMap(z, x, y) ==>
          (Test(bitmaps, z, x, y) <==> Test(old(bitmaps), z, x, y) || InSomeSource(sources, boxes, i, z, x, y))
      {
        MarkSource(sources[i], boxes[i]);
        OneMoreSource(sources, boxes, i);
      }
      ok := true;
    }
  }

  /** One of the first n sources has an object for the tile's bit. */
  ghost predicate InSomeSource<T>(sources: seq<TileDataSource<T>>, boxes: seq<seq<LargeBox>>, n: nat, z: nat, x: nat, y: nat)
    requires n <= |sources| == |boxes|
    reads sources
  {
    exists i :: 0 <= i < n && SomethingAt(sources[i].indexZoom, sources[i].indexed, boxes[i], z, x, y)
  }

  lemma NoSources<T>(sources: seq<TileDataSource<T>>, boxes: seq<seq<LargeBox>>)
    requires |sources| == |boxes|
    ensures forall z, x, y :: !InSomeSource(sources, boxes, 0, z, x, y)
  {
  }

  lemma OneMoreSource<T>(sources: seq<TileDataSource<T>>, boxes: seq<seq<LargeBox>>, i: nat)
    requires i < |sources| == |boxes|
    ensures forall z, x, y :: InSomeSource(sources, boxes, i + 1, z, x, y) <==>
      InSomeSource(sources, boxes, i, z, x, y) || SomethingAt(sources[i].indexZoom, sources[i].indexed, boxes[i], z, x, y)
  {
    hide SomethingAt;
    forall z, x, y
      ensures InSomeSource(sources, boxes, i + 1, z, x, y) <==>
        InSomeSource(sources, boxes, i, z, x, y) || SomethingAt(sources[i].indexZoom, sources[i].indexed, boxes[i], z, x, y)
    {
    }
  }

  ghost predicate InBox(indexZoom: zoomLevel, maxZoom: nat, box: LargeBox, t: Tile)
    requires maxZoom <= indexZoom
  {
    && Ancestor(box.minX, indexZoom - maxZoom) <= t.x <= Ancestor(box.maxX, indexZoom - maxZoom)
    && Ancestor(box.minY, indexZoom - maxZoom) <= t.y <= Ancestor(box.maxY, indexZoom - maxZoom)
  }

  lemma InBoxIs(indexZoom: zoomLevel, maxZoom: nat, box: LargeBox)
    requires maxZoom <= indexZoom
    ensures forall t :: InBox(indexZoom, maxZoom, box, t) <==>
      (Ancestor(box.minX, indexZoom - maxZoom) <= t.x <= Ancestor(box.maxX, indexZoom - maxZoom) &&
       Ancestor(box.minY, indexZoom - maxZoom) <= t.y <= Ancestor(box.maxY, indexZoom - maxZoom))
  {
    hide Ancestor;
  }

  lemma AncestorOnMap(from: nat, to: nat, x: nat)
    requires to <= from && x < Pow2(from)
    ensures Ancestor(x, from - to) < Pow2(to)
  {
    hide *;
    Pow2Sum(to, from - to);
    AncestorIs(x, from - to);
    QuotientBelow(x, Pow2(from - to), Pow2(to));
  }

  lemma QuotientBelow(x: nat, s: nat, n: nat)
    requires 0 < s && x < n * s
    ensures x / s < n
  {
    DivModFacts(x, s);
    var q := x / s;
    if q >= n {
      MulMonotone(s, n, q);
      assert false;
    }
  }

  /** The tile of an object at the highest zoom. */
  function TileOf<T>(indexZoom: zoomLevel, maxZoom: nat, c: nat, e: Stored<T>): Tile
    requires maxZoom <= indexZoom
  {
    var z6x, z6y := c / 64, c % 64;
    var baseX, baseY := z6x * Divisor(indexZoom) + e.at.x, z6y * Divisor(indexZoom) + e.at.y;
    Tile(Ancestor(baseX, indexZoom - maxZoom), Ancestor(baseY, indexZoom - maxZoom))
  }

  /** One of the objects of the first i cells, and of the first j of cell i, is in t. */
  ghost predicate HasObject<T>(indexZoom: zoomLevel, maxZoom: nat, objects: seq<seq<Stored<T>>>, t: Tile, i: nat, j: nat)
    requires maxZoom <= indexZoom
  {
    exists c, k :: 0 <= c < |objects| && 0 <= k < |objects[c]| && (c < i || (c == i && k < j)) &&
      TileOf(indexZoom, maxZoom, c, objects[c][k]) == t
  }

  /** The tiles so far: those of before, and those of the objects met. */
  ghost predicate ObjectsSeen<T>(all: set<Tile>, seen: set<Tile>, indexZoom: zoomLevel, maxZoom: nat,
                             objects: seq<seq<Stored<T>>>, i: nat, j: nat)
    requires maxZoom <= indexZoom
  {
    forall t :: t in all <==> t in seen || HasObject(indexZoom, maxZoom, objects, t, i, j)
  }

  lemma NoObjects<T>(indexZoom: zoomLevel, maxZoom: nat, objects: seq<seq<Stored<T>>>, seen: set<Tile>)
    requires maxZoom <= indexZoom
    ensures ObjectsSeen(seen, seen, indexZoom, maxZoom, objects, 0, 0)
  {
  }

  lemma AllObjects<T>(all: set<Tile>, seen: set<Tile>, indexZoom: zoomLevel, maxZoom: nat, objects: seq<seq<Stored<T>>>)
    requires maxZoom <= indexZoom && ObjectsSeen(all, seen, indexZoom, maxZoom, objects, 4096, 0)
    ensures forall t :: t in all <==> t in seen || HasObject(indexZoom, maxZoom, objects, t, 4096, 0)
  {
    hide HasObject;
  }

  lemma OneMoreObject<T>(all: set<Tile>, seen: set<Tile>, indexZoom: zoomLevel, maxZoom: nat,
                         objects: seq<seq<Stored<T>>>, i: nat, j: nat)
    requires maxZoom <= indexZoom && i < |objects| && j < |objects[i]|
    requires ObjectsSeen(all, seen, indexZoom, maxZoom, objects, i, j)
    ensures ObjectsSeen(all + {TileOf(indexZoom, maxZoom, i, objects[i][j])}, seen, indexZoom, maxZoom, objects, i, j + 1)
  {
    hide TileOf;
    var tile := TileOf(indexZoom, maxZoom, i, objects[i][j]);
    forall t ensures HasObject(indexZoom, maxZoom, objects, t, i, j + 1) <==> HasObject(indexZoom, maxZoom, objects, t, i, j) || t == tile {
      if HasObject(indexZoom, maxZoom, objects, t, i, j + 1) {
        var c, k :| 0 <= c < |objects| && 0 <= k < |objects[c]| && (c < i || (c == i && k < j + 1)) &&
          TileOf(indexZoom, maxZoom, c, objects[c][k]) == t;
        assert (c == i && k == j) || c < i || (c == i && k < j);
      }
      if t == tile {
        assert TileOf(indexZoom, maxZoom, i, objects[i][j]) == t;
      }
    }
  }

  lemma NextCell<T>(all: set<Tile>, seen: set<Tile>, indexZoom: zoomLevel, maxZoom: nat,
                    objects: seq<seq<Stored<T>>>, i: nat)
    requires maxZoom <= indexZoom && i < |objects|
    requires ObjectsSeen(all, seen, indexZoom, maxZoom, objects, i, |objects[i]|)
    ensures ObjectsSeen(all, seen, indexZoom, maxZoom, objects, i + 1, 0)
  {
    hide TileOf;
    forall t ensures HasObject(indexZoom, maxZoom, objects, t, i, |objects[i]|) <==> HasObject(indexZoom, maxZoom, objects, t, i + 1, 0) {
    }
  }

  /** An object's row. From zoom 6 on, the index takes no object beyond the last. */
  ghost predicate InRows<T>(indexZoom: zoomLevel, p: Placed<T>) {
    6 <= indexZoom || p.y < Pow2(indexZoom)
  }

  lemma PlacedInRows<T>(indexZoom: zoomLevel, p: Placed<T>)
    requires InWorld(indexZoom, p) && InRows(indexZoom, p)
    ensures p.y < Pow2(indexZoom)
  {
    if 6 <= indexZoom {
      SixtyFour(indexZoom);
      OffsetsFit(indexZoom, p);
      WorldIsValid(indexZoom, p);
      hide Pow2, Divisor, InCell, CellX, CellY, InWorld, Ancestor;
      InRow(64, Divisor(indexZoom), CellY(indexZoom, p), InCell(indexZoom, p).at.y);
    }
  }

  lemma SixtyFour(indexZoom: zoomLevel)
    requires 6 <= indexZoom
    ensures Pow2(indexZoom) == 64 * Divisor(indexZoom)
  {
    var d: nat := indexZoom - 6;
    Pow2Sum(6, d);
    assert Pow2(6) == 64;
  }

  lemma InRow(n: nat, d: nat, cell: nat, at: nat)
    requires cell < n && at < d
    ensures cell * d + at < n * d
  {
    MulMonotone(d, cell + 1, n);
    NextMultiple(d, cell);
  }

  lemma NextMultiple(d: nat, c: nat)
    ensures d * (c + 1) == c * d + d
  {
  }

  lemma AtTop(t: Tile)
    ensures Up(t, 0) == t
  {
    assert Pow2(0) == 1;
  }

  lemma NextUp(t: Tile, k: nat)
    ensures Up(t, k + 1) == Tile(Up(t, k).x / 2, Up(t, k).y / 2)
  {
    OneAbove(t.x, k);
    OneAbove(t.y, k);
  }

  lemma ShowsMore(before: Bitmaps, was: Bitmaps, now: Bitmaps, seen: set<Tile>, t: Tile)
    requires Shows(before, was, seen) && |now| == |was| && BitmapsOk(now)
    requires forall z, x, y :: 0 <= z < |now| && OnMap(z, x, y) ==>
      (Test(now, z, x, y) <==> Test(was, z, x, y) || SameBit(z, Up(t, |now| - 1 - z), Tile(x, y)))
    ensures Shows(before, now, seen + {t})
  {
    hide Test;
    hide OnMap;
    hide Up;
    hide BitmapsOk;
    forall z, x, y | 0 <= z < |now| && OnMap(z, x, y)
      ensures Test(now, z, x, y) <==> Test(before, z, x, y) || Covers(seen + {t}, |now| - 1, z, Tile(x, y))
    {
      CoversMore(seen, t, |now| - 1, z, Tile(x, y));
    }
  }

  lemma CoversMore(seen: set<Tile>, t: Tile, maxZoom: nat, z: nat, a: Tile)
    requires z <= maxZoom
    ensures Covers(seen + {t}, maxZoom, z, a) <==> Covers(seen, maxZoom, z, a) || SameBit(z, Up(t, maxZoom - z), a)
  {
    hide Up, SameBit;
    if Covers(seen, maxZoom, z, a) {
      var s :| s in seen && SameBit(z, Up(s, maxZoom - z), a);
      assert s in seen + {t};
    }
    if SameBit(z, Up(t, maxZoom - z), a) {
      assert t in seen + {t};
    }
  }

  // ----- What is marked -----

  /** Some object is in this tile, or in the index tile that contains it. */
  ghost predicate SmallAt<T>(indexZoom: zoomLevel, ps: seq<Placed<T>>, zoom: nat, x: nat, y: nat) {
    exists k :: 0 <= k < |ps| && InTile(indexZoom, ps[k], zoom, x, y)
  }

  ghost predicate InTile<T>(indexZoom: zoomLevel, p: Placed<T>, zoom: nat, x: nat, y: nat) {
    var c := Clamp(indexZoom, zoom);
    InWorld(indexZoom, p) && Ancestor(p.x, indexZoom - c) == Ancestor(x, zoom - c) && Ancestor(p.y, indexZoom - c) == Ancestor(y, zoom - c)
  }

  /** The query's box meets the object's: closed rectangles in tiles of the index zoom. */
  ghost predicate Meets(indexZoom: zoomLevel, box: LargeBox, zoom: nat, x: nat, y: nat) {
    var c := Clamp(indexZoom, zoom);
    && Overlaps(box.minX, box.maxX, indexZoom - c, Ancestor(x, zoom - c))
    && Overlaps(box.minY, box.maxY, indexZoom - c, Ancestor(y, zoom - c))
  }

  /** Index tiles lo to hi and those of tile a, d zooms above. */
  ghost predicate Overlaps(lo: nat, hi: nat, d: nat, a: nat) {
    var scale := Pow2(d);
    lo <= (a + 1) * scale - 1 && a * scale <= hi
  }

  ghost predicate LargeAt(indexZoom: zoomLevel, boxes: seq<LargeBox>, zoom: nat, x: nat, y: nat) {
    exists k :: 0 <= k < |boxes| && Meets(indexZoom, boxes[k], zoom, x, y)
  }

  /** Something reaches past the last row of this zoom, and this tile has the bit of the
      tile that it reaches there. */
  ghost predicate Wrapped<T>(indexZoom: zoomLevel, ps: seq<Placed<T>>, boxes: seq<LargeBox>, zoom: nat, x: nat, y: nat) {
    exists u: Tile :: SameBit(zoom, u, Tile(x, y)) && Pow2(zoom) <= u.y && ReachesTile(indexZoom, ps, boxes, zoom, u)
  }

  ghost predicate ReachesTile<T>(indexZoom: zoomLevel, ps: seq<Placed<T>>, boxes: seq<LargeBox>, zoom: nat, u: Tile) {
    SmallAt(indexZoom, ps, zoom, u.x, u.y) || LargeAt(indexZoom, boxes, zoom, u.x, u.y)
  }

  /** What marks a tile. */
  ghost predicate SomethingAt<T>(indexZoom: zoomLevel, ps: seq<Placed<T>>, boxes: seq<LargeBox>, zoom: nat, x: nat, y: nat) {
    ReachesTile(indexZoom, ps, boxes, zoom, Tile(x, y)) || Wrapped(indexZoom, ps, boxes, zoom, x, y)
  }

  /** Nothing reaches the row behind the last. */
  ghost predicate AllInRows<T>(indexZoom: zoomLevel, ps: seq<Placed<T>>, boxes: seq<LargeBox>) {
    && (forall k :: 0 <= k < |boxes| ==> boxes[k].maxY < Pow2(indexZoom))
    && (forall k :: 0 <= k < |ps| ==> InRows(indexZoom, ps[k]))
  }

  /** Then nothing wraps. */
  lemma NothingWraps<T>(indexZoom: zoomLevel, ps: seq<Placed<T>>, boxes: seq<LargeBox>, zoom: nat, x: nat, y: nat)
    requires zoom <= indexZoom && AllInRows(indexZoom, ps, boxes)
    ensures !Wrapped(indexZoom, ps, boxes, zoom, x, y)
  {
    hide SameBit, Meets, InTile, InRows, Pow2;
    forall u: Tile | ReachesTile(indexZoom, ps, boxes, zoom, u) ensures u.y < Pow2(zoom) {
      if SmallAt(indexZoom, ps, zoom, u.x, u.y) {
        var k :| 0 <= k < |ps| && InTile(indexZoom, ps[k], zoom, u.x, u.y);
        SmallInside(indexZoom, ps[k], zoom, u);
      } else {
        var k :| 0 <= k < |boxes| && Meets(indexZoom, boxes[k], zoom, u.x, u.y);
        InsideMap(indexZoom, boxes[k], zoom, u);
      }
    }
  }

  lemma SmallInside<T>(indexZoom: zoomLevel, p: Placed<T>, zoom: nat, u: Tile)
    requires zoom <= indexZoom && InRows(indexZoom, p) && InTile(indexZoom, p, zoom, u.x, u.y)
    ensures u.y < Pow2(zoom)
  {
    hide *;
    SmallInWorld(indexZoom, p, zoom, u);
    PlacedInRows(indexZoom, p);
    AtZoom(indexZoom, p, zoom, u);
    AncestorOnMap(indexZoom, zoom, p.y);
  }

  lemma InsideMap(indexZoom: zoomLevel, box: LargeBox, zoom: nat, u: Tile)
    requires zoom <= indexZoom && box.maxY < Pow2(indexZoom) && Meets(indexZoom, box, zoom, u.x, u.y)
    ensures u.y < Pow2(zoom)
  {
    NotClamped(u.y);
    OverlapsIs(box.minY, box.maxY, indexZoom - zoom, u.y);
    AncestorOnMap(indexZoom, zoom, box.maxY);
    hide Ancestor, Overlaps, Pow2;
  }

  /** A box that reaches the row behind the last sets the bit of the next column's first
      tile, whether or not anything is there. */
  lemma EdgeRowWraps<T>(indexZoom: zoomLevel, ps: seq<Placed<T>>, boxes: seq<LargeBox>, k: nat, column: nat)
    requires k < |boxes| && boxes[k].minX <= column <= boxes[k].maxX && boxes[k].minY <= Pow2(indexZoom) <= boxes[k].maxY
    ensures Wrapped(indexZoom, ps, boxes, indexZoom, column + 1, 0)
  {
    var n := Pow2(indexZoom);
    NextMultiple(n, column);
    MeetsAtIndexZoom(indexZoom, boxes[k], column, n);
    hide Meets, Pow2;
    assert LargeAt(indexZoom, boxes, indexZoom, Tile(column, n).x, Tile(column, n).y);
    assert SameBit(indexZoom, Tile(column, n), Tile(column + 1, 0));
  }

  /** At the index zoom itself, a box meets the tiles it contains. */
  lemma MeetsAtIndexZoom(indexZoom: zoomLevel, box: LargeBox, x: nat, y: nat)
    requires box.minX <= x <= box.maxX && box.minY <= y <= box.maxY
    ensures Meets(indexZoom, box, indexZoom, Tile(x, y).x, Tile(x, y).y)
  {
    OverlapsIs(box.minX, box.maxX, 0, x);
    OverlapsIs(box.minY, box.maxY, 0, y);
    NotClamped(x);
    NotClamped(y);
    NotClamped(box.minX);
    NotClamped(box.maxX);
    NotClamped(box.minY);
    NotClamped(box.maxY);
    hide Ancestor, Overlaps, Pow2;
  }

  /** At zoom 6, a box in the row behind the last marks a tile it does not meet. */
  lemma WrongTileMarked()
    ensures Wrapped<int>(6, [], [Box(5, 5, 64, 64, 0)], 6, 6, 0) && !LargeAt(6, [Box(5, 5, 64, 64, 0)], 6, 6, 0)
  {
    assert Pow2(6) == 64 && Pow2(0) == 1;
    EdgeRowWraps<int>(6, [], [Box(5, 5, 64, 64, 0)], 0, 5);
  }

  /** Below zoom 6 the index takes objects of that row too, which then do the same. */
  lemma WrongTileOfObject()
    ensures var p := Placed(3, 32, 0, 0);
            Wrapped<int>(5, [p], [], 5, 4, 0) && !SmallAt<int>(5, [p], 5, 4, 0)
  {
    var p: Placed<int> := Placed(3, 32, 0, 0);
    assert Pow2(5) == 32 && Pow2(0) == 1;
    hide Pow2;
    assert InTile(5, p, 5, 3, 32);
    assert [p][0] == p;
    assert ReachesTile(5, [p], [], 5, Tile(3, 32));
    assert SameBit(5, Tile(3, 32), Tile(4, 0));
  }

  ghost predicate SomeBelow(lo: nat, hi: nat, k: nat, a: nat) {
    exists t: nat :: lo <= t <= hi && Ancestor(t, k) == a
  }

  /** In one dimension: the ancestors of an interval are an interval, the one that the
      query's rectangle meets. */
  lemma MeetsIsAncestor(lo: nat, hi: nat, d: nat, k: nat, a: nat)
    requires lo <= hi
    ensures Overlaps(lo, hi, d + k, a) <==> SomeBelow(Ancestor(lo, d), Ancestor(hi, d), k, a)
  {
    OverlapsIs(lo, hi, d + k, a);
    Twice(lo, d, k);
    Twice(hi, d, k);
    AncestorMonotone(lo, hi, d);
    hide Overlaps;
    hide Ancestor;
    if Overlaps(lo, hi, d + k, a) {
      var t := Witness(Ancestor(lo, d), Ancestor(hi, d), k, a);
    }
    if SomeBelow(Ancestor(lo, d), Ancestor(hi, d), k, a) {
      var t: nat :| Ancestor(lo, d) <= t <= Ancestor(hi, d) && Ancestor(t, k) == a;
      AncestorMonotone(Ancestor(lo, d), t, k);
      AncestorMonotone(t, Ancestor(hi, d), k);
    }
  }

  lemma OverlapsIs(lo: nat, hi: nat, d: nat, a: nat)
    ensures Overlaps(lo, hi, d, a) <==> Ancestor(lo, d) <= a <= Ancestor(hi, d)
  {
    hide Pow2;
    InInterval(lo, d, a);
    InInterval(hi, d, a);
  }

  lemma InInterval(x: nat, d: nat, a: nat)
    ensures x <= (a + 1) * Pow2(d) - 1 <==> Ancestor(x, d) <= a
    ensures a * Pow2(d) <= x <==> a <= Ancestor(x, d)
  {
    var s, q := Pow2(d), Ancestor(x, d);
    DivModFacts(x, s);
    Multiples(s, q, a);
    Multiples(s, q, a + 1);
  }

  lemma Multiples(s: nat, q: nat, a: nat)
    requires 0 < s
    ensures a <= q ==> a * s <= s * q
    ensures q < a ==> s * q + s <= a * s
  {
    if a <= q {
      MulMonotone(s, a, q);
    } else {
      MulMonotone(s, q + 1, a);
      NextMultiple(s, q);
    }
  }

  lemma Twice(x: nat, d: nat, k: nat)
    ensures Ancestor(Ancestor(x, d), k) == Ancestor(x, d + k)
  {
    DivideMore(x, d, d + k);
  }

  lemma AncestorMonotone(x: nat, y: nat, k: nat)
    requires x <= y
    ensures Ancestor(x, k) <= Ancestor(y, k)
  {
    DivideMonotone(x, y, k);
  }

  lemma Witness(lo: nat, hi: nat, k: nat, a: nat) returns (t: nat)
    requires lo <= hi && Ancestor(lo, k) <= a <= Ancestor(hi, k)
    ensures lo <= t <= hi && Ancestor(t, k) == a
  {
    var s := Pow2(k);
    MulNonNegative(a, s);
    InInterval(hi, k, a);
    InInterval(lo, k, a);
    if lo >= a * s {
      t := lo;
    } else {
      t := a * s;
      DivModUnique(t, s, a, 0);
    }
  }

  // ----- Marked exactly where there is something -----

  /** The highest zoom's tiles that were marked are those of the objects and boxes. */
  ghost predicate SeenAre<T>(indexZoom: zoomLevel, maxZoom: nat, ps: seq<Placed<T>>, boxes: seq<LargeBox>, seen: set<Tile>)
    requires maxZoom <= indexZoom
  {
    forall t: Tile :: t in seen <==> SmallAt(indexZoom, ps, maxZoom, t.x, t.y) || InSomeBox(indexZoom, maxZoom, boxes, t)
  }

  ghost predicate InSomeBox(indexZoom: zoomLevel, maxZoom: nat, boxes: seq<LargeBox>, t: Tile)
    requires maxZoom <= indexZoom
  {
    exists k :: 0 <= k < |boxes| && InBox(indexZoom, maxZoom, boxes[k], t)
  }

  lemma BoxCovers(indexZoom: zoomLevel, maxZoom: nat, box: LargeBox, z: nat, x: nat, y: nat)
    requires z <= maxZoom <= indexZoom
    ensures Meets(indexZoom, box, z, x, y) <==> exists t :: InBox(indexZoom, maxZoom, box, t) && Up(t, maxZoom - z) == Tile(x, y)
  {
    var d, k := indexZoom - maxZoom, maxZoom - z;
    NotClamped(x);
    NotClamped(y);
    MeetsIsAncestor(box.minX, box.maxX, d, k, x);
    MeetsIsAncestor(box.minY, box.maxY, d, k, y);
    hide Ancestor;
    hide Overlaps;
    if Meets(indexZoom, box, z, x, y) {
      var tx: nat :| Ancestor(box.minX, d) <= tx <= Ancestor(box.maxX, d) && Ancestor(tx, k) == x;
      var ty: nat :| Ancestor(box.minY, d) <= ty <= Ancestor(box.maxY, d) && Ancestor(ty, k) == y;
      assert InBox(indexZoom, maxZoom, box, Tile(tx, ty)) && Up(Tile(tx, ty), k) == Tile(x, y);
    }
    if t :| InBox(indexZoom, maxZoom, box, t) && Up(t, k) == Tile(x, y) {
      assert SomeBelow(Ancestor(box.minX, d), Ancestor(box.maxX, d), k, x);
      assert SomeBelow(Ancestor(box.minY, d), Ancestor(box.maxY, d), k, y);
    }
  }

  lemma SmallCovers<T>(indexZoom: zoomLevel, maxZoom: nat, p: Placed<T>, z: nat, x: nat, y: nat)
    requires z <= maxZoom <= indexZoom
    ensures InTile(indexZoom, p, z, x, y) <==>
      InWorld(indexZoom, p) && Up(Tile(Ancestor(p.x, indexZoom - maxZoom), Ancestor(p.y, indexZoom - maxZoom)), maxZoom - z) == Tile(x, y)
    ensures forall t: Tile :: InTile(indexZoom, p, maxZoom, t.x, t.y) <==>
      InWorld(indexZoom, p) && t == Tile(Ancestor(p.x, indexZoom - maxZoom), Ancestor(p.y, indexZoom - maxZoom))
  {
    hide InWorld;
    var d, k := indexZoom - maxZoom, maxZoom - z;
    NotClamped(x);
    NotClamped(y);
    Twice(p.x, d, k);
    Twice(p.y, d, k);
    forall t: Tile ensures Ancestor(t.x, 0) == t.x && Ancestor(t.y, 0) == t.y {
      NotClamped(t.x);
      NotClamped(t.y);
    }
    hide Ancestor;
  }

  /** The bit of an object's tile is the tile's, or that of the tile to which it wraps. */
  lemma SmallBit<T>(indexZoom: zoomLevel, maxZoom: nat, ps: seq<Placed<T>>, boxes: seq<LargeBox>, s: Tile, z: nat, x: nat, y: nat)
    requires z <= maxZoom <= indexZoom && OnMap(z, x, y) && SmallAt(indexZoom, ps, maxZoom, s.x, s.y)
    requires SameBit(z, Up(s, maxZoom - z), Tile(x, y))
    ensures SomethingAt(indexZoom, ps, boxes, z, x, y)
  {
    hide Up, InTile, Ancestor, InWorld, LargeAt, Pow2, SameBit;
    var k :| 0 <= k < |ps| && InTile(indexZoom, ps[k], maxZoom, s.x, s.y);
    var u := Up(s, maxZoom - z);
    TileIsUp(indexZoom, maxZoom, ps[k], s, z);
    assert ReachesTile(indexZoom, ps, boxes, z, u);
    if u.y < Pow2(z) {
      SameBitSameTile(z, u, Tile(x, y));
    }
  }

  lemma TileIsUp<T>(indexZoom: zoomLevel, maxZoom: nat, p: Placed<T>, s: Tile, z: nat)
    requires z <= maxZoom <= indexZoom && InTile(indexZoom, p, maxZoom, s.x, s.y)
    ensures InTile(indexZoom, p, z, Up(s, maxZoom - z).x, Up(s, maxZoom - z).y)
  {
    hide *;
    SmallInWorld(indexZoom, p, maxZoom, s);
    AtZoom(indexZoom, p, maxZoom, s);
    SmallCovers(indexZoom, maxZoom, p, z, Up(s, maxZoom - z).x, Up(s, maxZoom - z).y);
  }

  lemma SmallInWorld<T>(indexZoom: zoomLevel, p: Placed<T>, zoom: nat, t: Tile)
    requires InTile(indexZoom, p, zoom, t.x, t.y)
    ensures InWorld(indexZoom, p)
  {
  }

  lemma AtZoom<T>(indexZoom: zoomLevel, p: Placed<T>, z: nat, t: Tile)
    requires z <= indexZoom && InTile(indexZoom, p, z, t.x, t.y)
    ensures t == Tile(Ancestor(p.x, indexZoom - z), Ancestor(p.y, indexZoom - z))
  {
    NotClamped(t.x);
    NotClamped(t.y);
    hide Ancestor, InWorld;
  }

  lemma CoversIs<T>(indexZoom: zoomLevel, maxZoom: nat, ps: seq<Placed<T>>, boxes: seq<LargeBox>, seen: set<Tile>, z: nat, x: nat, y: nat)
    requires z <= maxZoom <= indexZoom && SeenAre(indexZoom, maxZoom, ps, boxes, seen) && OnMap(z, x, y)
    ensures Covers(seen, maxZoom, z, Tile(x, y)) <==> SomethingAt(indexZoom, ps, boxes, z, x, y)
  {
    hide Up, InTile, InBox, Meets, SameBit, OnMap, Pow2;
    if Covers(seen, maxZoom, z, Tile(x, y)) {
      var t :| t in seen && SameBit(z, Up(t, maxZoom - z), Tile(x, y));
      if SmallAt(indexZoom, ps, maxZoom, t.x, t.y) {
        SmallBit(indexZoom, maxZoom, ps, boxes, t, z, x, y);
      } else {
        var k :| 0 <= k < |boxes| && InBox(indexZoom, maxZoom, boxes[k], t);
        BoxBit(indexZoom, maxZoom, ps, boxes, k, t, z, x, y);
      }
    }
    if SomethingAt(indexZoom, ps, boxes, z, x, y) {
      var u := ReachedTile(indexZoom, ps, boxes, z, x, y);
      var t := ReachedIsSeen(indexZoom, maxZoom, ps, boxes, seen, z, u);
    }
  }

  lemma SameAsItself(z: nat, t: Tile)
    ensures SameBit(z, t, t)
  {
  }

  /** The tile with something in it that has this tile's bit. */
  lemma ReachedTile<T>(indexZoom: zoomLevel, ps: seq<Placed<T>>, boxes: seq<LargeBox>, z: nat, x: nat, y: nat) returns (u: Tile)
    requires SomethingAt(indexZoom, ps, boxes, z, x, y)
    ensures ReachesTile(indexZoom, ps, boxes, z, u) && SameBit(z, u, Tile(x, y))
  {
    hide ReachesTile, SameBit;
    if ReachesTile(indexZoom, ps, boxes, z, Tile(x, y)) {
      u := Tile(x, y);
      SameAsItself(z, u);
    } else {
      u :| SameBit(z, u, Tile(x, y)) && Pow2(z) <= u.y && ReachesTile(indexZoom, ps, boxes, z, u);
    }
  }

  /** It lies above a tile of the highest zoom that was marked. */
  lemma ReachedIsSeen<T>(indexZoom: zoomLevel, maxZoom: nat, ps: seq<Placed<T>>, boxes: seq<LargeBox>, seen: set<Tile>, z: nat, u: Tile)
    returns (t: Tile)
    requires z <= maxZoom <= indexZoom && SeenAre(indexZoom, maxZoom, ps, boxes, seen) && ReachesTile(indexZoom, ps, boxes, z, u)
    ensures t in seen && Up(t, maxZoom - z) == u
  {
    hide Up, InTile, InBox, Meets;
    if SmallAt(indexZoom, ps, z, u.x, u.y) {
      var k :| 0 <= k < |ps| && InTile(indexZoom, ps[k], z, u.x, u.y);
      SmallCovers(indexZoom, maxZoom, ps[k], z, u.x, u.y);
      t := Tile(Ancestor(ps[k].x, indexZoom - maxZoom), Ancestor(ps[k].y, indexZoom - maxZoom));
      assert InTile(indexZoom, ps[k], maxZoom, t.x, t.y);
    } else {
      var k :| 0 <= k < |boxes| && Meets(indexZoom, boxes[k], z, u.x, u.y);
      BoxCovers(indexZoom, maxZoom, boxes[k], z, u.x, u.y);
      t :| InBox(indexZoom, maxZoom, boxes[k], t) && Up(t, maxZoom - z) == Tile(u.x, u.y);
    }
  }

  lemma BoxBit<T>(indexZoom: zoomLevel, maxZoom: nat, ps: seq<Placed<T>>, boxes: seq<LargeBox>, k: nat, t: Tile, z: nat, x: nat, y: nat)
    requires z <= maxZoom <= indexZoom && OnMap(z, x, y) && k < |boxes| && InBox(indexZoom, maxZoom, boxes[k], t)
    requires SameBit(z, Up(t, maxZoom - z), Tile(x, y))
    ensures SomethingAt(indexZoom, ps, boxes, z, x, y)
  {
    hide Up, InBox, Meets, SameBit, Pow2, SmallAt;
    var u := Up(t, maxZoom - z);
    BoxCovers(indexZoom, maxZoom, boxes[k], z, u.x, u.y);
    assert ReachesTile(indexZoom, ps, boxes, z, u);
    if u.y < Pow2(z) {
      SameBitSameTile(z, u, Tile(x, y));
    }
  }

  // ----- Filling -----

  lemma NothingSeen(bs: Bitmaps)
    requires BitmapsOk(bs)
    ensures Shows(bs, bs, {})
  {
    hide Test;
  }

  lemma ReadyCells<T>(source: TileDataSource<T>)
    requires source.Ready()
    ensures |source.objects| == 4096
  {
  }

  lemma NoBoxes(indexZoom: zoomLevel, maxZoom: nat, boxes: seq<LargeBox>)
    requires maxZoom <= indexZoom
    ensures forall t :: !InSomeBox(indexZoom, maxZoom, boxes[..0], t)
  {
  }

  lemma OneMoreBox(indexZoom: zoomLevel, maxZoom: nat, boxes: seq<LargeBox>, k: nat)
    requires maxZoom <= indexZoom && k < |boxes|
    ensures forall t :: InSomeBox(indexZoom, maxZoom, boxes[..k + 1], t) <==>
      InSomeBox(indexZoom, maxZoom, boxes[..k], t) || InBox(indexZoom, maxZoom, boxes[k], t)
  {
    hide InBox;
    var now, before := boxes[..k + 1], boxes[..k];
    forall t ensures InSomeBox(indexZoom, maxZoom, now, t) <==> InSomeBox(indexZoom, maxZoom, before, t) || InBox(indexZoom, maxZoom, boxes[k], t) {
      if j :| 0 <= j < |before| && InBox(indexZoom, maxZoom, before[j], t) {
        assert InBox(indexZoom, maxZoom, now[j], t);
      }
      if j :| 0 <= j < |now| && InBox(indexZoom, maxZoom, now[j], t) {
        assert j < k ==> InBox(indexZoom, maxZoom, before[j], t);
      }
      if InBox(indexZoom, maxZoom, boxes[k], t) {
        assert InBox(indexZoom, maxZoom, now[k], t);
      }
    }
  }

  lemma AllShown<T>(indexZoom: zoomLevel, ps: seq<Placed<T>>, boxes: seq<LargeBox>, before: Bitmaps, now: Bitmaps, seen: set<Tile>)
    requires 0 < |now| && |now| - 1 <= indexZoom && Shows(before, now, seen)
    requires forall t: Tile :: t in seen <==> SmallAt(indexZoom, ps, |now| - 1, t.x, t.y) || InSomeBox(indexZoom, |now| - 1, boxes, t)
    ensures |before| == |now|
    ensures forall z, x, y :: 0 <= z < |now| && OnMap(z, x, y) ==>
      (Test(now, z, x, y) <==> Test(before, z, x, y) || SomethingAt(indexZoom, ps, boxes, z, x, y))
  {
    hide Test, OnMap, Covers, SmallAt, SomethingAt, InSomeBox, BitmapsOk;
    assert SeenAre(indexZoom, |now| - 1, ps, boxes, seen);
    forall z, x, y | 0 <= z < |now| && OnMap(z, x, y)
      ensures Test(now, z, x, y) <==> Test(before, z, x, y) || SomethingAt(indexZoom, ps, boxes, z, x, y)
    {
      CoversIs(indexZoom, |now| - 1, ps, boxes, seen, z, x, y);
    }
  }

  lemma {:induction false} ContentOrigin<T>(indexZoom: zoomLevel, ps: seq<Placed<T>>, c: nat, e: Stored<T>) returns (k: nat)
    requires c < 4096 && e in Content(indexZoom, ps, c)
    ensures k < |ps| && CellNumber(indexZoom, ps[k]) == c && InCell(indexZoom, ps[k]) == e
  {
    ContentUnfold(indexZoom, ps, c);
    hide *;
    var n := |ps| - 1;
    if CellNumber(indexZoom, ps[n]) == c && InCell(indexZoom, ps[n]) == e {
      k := n;
    } else {
      k := ContentOrigin(indexZoom, ps[..n], c, e);
    }
  }

  lemma {:induction false} InContent<T>(indexZoom: zoomLevel, ps: seq<Placed<T>>, k: nat)
    requires k < |ps| && CellNumber(indexZoom, ps[k]) < 4096
    ensures InCell(indexZoom, ps[k]) in Content(indexZoom, ps, CellNumber(indexZoom, ps[k]))
  {
    var c := CellNumber(indexZoom, ps[k]);
    ContentUnfold(indexZoom, ps, c);
    hide *;
    var n := |ps| - 1;
    if k < n {
      InContent(indexZoom, ps[..n], k);
    }
  }

  lemma TileOfPlaced<T>(indexZoom: zoomLevel, maxZoom: nat, p: Placed<T>)
    requires maxZoom <= indexZoom && CellNumber(indexZoom, p) < 4096
    ensures InWorld(indexZoom, p)
    ensures TileOf(indexZoom, maxZoom, CellNumber(indexZoom, p), InCell(indexZoom, p)) ==
      Tile(Ancestor(p.x, indexZoom - maxZoom), Ancestor(p.y, indexZoom - maxZoom))
  {
    OffsetsFit(indexZoom, p);
    CellIsOne(CellX(indexZoom, p), CellY(indexZoom, p), 0, 0);
    hide Pow2;
  }

  lemma WorldCell<T>(indexZoom: zoomLevel, p: Placed<T>)
    ensures InWorld(indexZoom, p) <==> CellNumber(indexZoom, p) < 4096
  {
  }

  lemma ObjectsAreIndexed<T>(source: TileDataSource<T>, maxZoom: nat)
    requires source.Ready() && maxZoom <= source.indexZoom
    ensures forall t: Tile :: HasObject(source.indexZoom, maxZoom, source.objects, t, 4096, 0) <==>
      SmallAt(source.indexZoom, source.indexed, maxZoom, t.x, t.y)
  {
    hide *;
    var iz, objects, ps := source.indexZoom, source.objects, source.indexed;
    forall t: Tile ensures HasObject(iz, maxZoom, objects, t, 4096, 0) <==> SmallAt(iz, ps, maxZoom, t.x, t.y) {
      if HasObject(iz, maxZoom, objects, t, 4096, 0) {
        ObjectIsIndexed(source, maxZoom, t);
      }
      if SmallAt(iz, ps, maxZoom, t.x, t.y) {
        IndexedIsObject(source, maxZoom, t);
      }
    }
  }

  lemma ObjectIsIndexed<T>(source: TileDataSource<T>, maxZoom: nat, t: Tile)
    requires source.Ready() && maxZoom <= source.indexZoom
    requires HasObject(source.indexZoom, maxZoom, source.objects, t, 4096, 0)
    ensures SmallAt(source.indexZoom, source.indexed, maxZoom, t.x, t.y)
  {
    hide TileOf;
    hide CellReady;
    hide InTile;
    hide InWorld;
    hide Content;
    hide LowOnly;
    var iz, objects, ps := source.indexZoom, source.objects, source.indexed;
    var c, k :| 0 <= c < |objects| && 0 <= k < |objects[c]| && c < 4096 && TileOf(iz, maxZoom, c, objects[c][k]) == t;
    source.ReadyAt(c);
    assert objects[c][k] in multiset(objects[c]);
    var j := ContentOrigin(iz, ps, c, objects[c][k]);
    TileOfPlaced(iz, maxZoom, ps[j]);
    SmallCovers(iz, maxZoom, ps[j], maxZoom, t.x, t.y);
  }

  lemma IndexedIsObject<T>(source: TileDataSource<T>, maxZoom: nat, t: Tile)
    requires source.Ready() && maxZoom <= source.indexZoom
    requires SmallAt(source.indexZoom, source.indexed, maxZoom, t.x, t.y)
    ensures HasObject(source.indexZoom, maxZoom, source.objects, t, 4096, 0)
  {
    hide TileOf;
    hide CellReady;
    hide InTile;
    hide InWorld;
    hide Content;
    hide LowOnly;
    var iz, objects, ps := source.indexZoom, source.objects, source.indexed;
    var j :| 0 <= j < |ps| && InTile(iz, ps[j], maxZoom, t.x, t.y);
    SmallCovers(iz, maxZoom, ps[j], maxZoom, t.x, t.y);
    WorldCell(iz, ps[j]);
    TileOfPlaced(iz, maxZoom, ps[j]);
    InContent(iz, ps, j);
    var c := CellNumber(iz, ps[j]);
    source.ReadyAt(c);
    assert InCell(iz, ps[j]) in multiset(objects[c]);
    var k :| 0 <= k < |objects[c]| && objects[c][k] == InCell(iz, ps[j]);
    assert TileOf(iz, maxZoom, c, objects[c][k]) == t;
  }

  // ----- Asking -----

  /** Above the highest bitmap, the tile of that zoom stands for those inside it. */
  predicate IsMarked(bs: Bitmaps, zoom: nat, x: nat, y: nat)
    requires 0 < |bs|
  {
    var maxZoom := |bs| - 1;
    if zoom <= maxZoom then Test(bs, zoom, x, y)
    else Test(bs, maxZoom, Ancestor(x, zoom - maxZoom), Ancestor(y, zoom - maxZoom))
  }

  /** A tile for which a query for small objects, or one for large ones, would return
      something is marked: at the zooms of the bitmaps, and above them where these go up
      to the index zoom. */
  lemma NeededIsMarked<T>(indexZoom: zoomLevel, ps: seq<Placed<T>>, boxes: seq<LargeBox>, bs: Bitmaps, zoom: nat, x: nat, y: nat)
    requires 0 < |bs| && |bs| - 1 <= indexZoom && OnMap(zoom, x, y) && (zoom < |bs| || |bs| - 1 == indexZoom)
    requires forall z, x, y :: 0 <= z < |bs| && OnMap(z, x, y) && SomethingAt(indexZoom, ps, boxes, z, x, y) ==> Test(bs, z, x, y)
    ensures SmallAt(indexZoom, ps, zoom, x, y) || LargeAt(indexZoom, boxes, zoom, x, y) ==> IsMarked(bs, zoom, x, y)
    ensures Wanted(indexZoom, zoom, x, y, ps) != [] ==> IsMarked(bs, zoom, x, y)
    ensures (exists k :: 0 <= k < |boxes| && Meets(indexZoom, boxes[k], zoom, x, y) && boxes[k].minZoom <= zoom) ==> IsMarked(bs, zoom, x, y)
  {
    hide *;
    if SmallAt(indexZoom, ps, zoom, x, y) || LargeAt(indexZoom, boxes, zoom, x, y) {
      if zoom < |bs| {
        MarkedBelow(bs, zoom, x, y);
        IsSomething(indexZoom, ps, boxes, zoom, x, y);
      } else {
        MarkedAbove(bs, zoom, x, y);
        AboveIndex(indexZoom, ps, boxes, zoom, x, y);
        IsSomething(indexZoom, ps, boxes, |bs| - 1, Ancestor(x, zoom - (|bs| - 1)), Ancestor(y, zoom - (|bs| - 1)));
      }
    }
    if Wanted(indexZoom, zoom, x, y, ps) != [] {
      WantedIsThere(indexZoom, zoom, x, y, ps);
    }
    LargeIsThere(indexZoom, boxes, zoom, x, y);
  }

  lemma IsSomething<T>(indexZoom: zoomLevel, ps: seq<Placed<T>>, boxes: seq<LargeBox>, zoom: nat, x: nat, y: nat)
    ensures SomethingAt(indexZoom, ps, boxes, zoom, x, y) <==>
      SmallAt(indexZoom, ps, zoom, x, y) || LargeAt(indexZoom, boxes, zoom, x, y) || Wrapped(indexZoom, ps, boxes, zoom, x, y)
  {
    hide SmallAt, LargeAt, Wrapped;
  }

  /** Nothing more is marked, unless something reaches past the last row. */
  lemma MarkedIsNeeded<T>(indexZoom: zoomLevel, ps: seq<Placed<T>>, boxes: seq<LargeBox>, bs: Bitmaps, zoom: nat, x: nat, y: nat)
    requires 0 < |bs| && |bs| - 1 <= indexZoom && OnMap(zoom, x, y) && (zoom < |bs| || |bs| - 1 == indexZoom)
    requires forall z, x, y :: 0 <= z < |bs| && OnMap(z, x, y) && Test(bs, z, x, y) ==> SomethingAt(indexZoom, ps, boxes, z, x, y)
    requires AllInRows(indexZoom, ps, boxes)
    ensures IsMarked(bs, zoom, x, y) ==> SmallAt(indexZoom, ps, zoom, x, y) || LargeAt(indexZoom, boxes, zoom, x, y)
  {
    hide *;
    if IsMarked(bs, zoom, x, y) {
      if zoom < |bs| {
        MarkedBelow(bs, zoom, x, y);
        IsSomething(indexZoom, ps, boxes, zoom, x, y);
        NothingWraps(indexZoom, ps, boxes, zoom, x, y);
      } else {
        MarkedAbove(bs, zoom, x, y);
        AboveIndex(indexZoom, ps, boxes, zoom, x, y);
        var a, b := Ancestor(x, zoom - (|bs| - 1)), Ancestor(y, zoom - (|bs| - 1));
        IsSomething(indexZoom, ps, boxes, |bs| - 1, a, b);
        NothingWraps(indexZoom, ps, boxes, |bs| - 1, a, b);
      }
    }
  }

  lemma MarkedBelow(bs: Bitmaps, zoom: nat, x: nat, y: nat)
    requires zoom < |bs|
    ensures IsMarked(bs, zoom, x, y) == Test(bs, zoom, x, y)
  {
    hide Test;
  }

  lemma MarkedAbove(bs: Bitmaps, zoom: nat, x: nat, y: nat)
    requires 0 < |bs| <= zoom && OnMap(zoom, x, y)
    ensures var m := |bs| - 1;
            IsMarked(bs, zoom, x, y) == Test(bs, m, Ancestor(x, zoom - m), Ancestor(y, zoom - m)) &&
            OnMap(m, Ancestor(x, zoom - m), Ancestor(y, zoom - m))
  {
    AncestorOnMap(zoom, |bs| - 1, x);
    AncestorOnMap(zoom, |bs| - 1, y);
    hide Test;
  }

  lemma AboveIndex<T>(indexZoom: zoomLevel, ps: seq<Placed<T>>, boxes: seq<LargeBox>, zoom: nat, x: nat, y: nat)
    requires zoom > indexZoom
    ensures var a, b := Ancestor(x, zoom - indexZoom), Ancestor(y, zoom - indexZoom);
            (SmallAt(indexZoom, ps, zoom, x, y) <==> SmallAt(indexZoom, ps, indexZoom, a, b)) &&
            (LargeAt(indexZoom, boxes, zoom, x, y) <==> LargeAt(indexZoom, boxes, indexZoom, a, b))
  {
    var a, b := Ancestor(x, zoom - indexZoom), Ancestor(y, zoom - indexZoom);
    NotClamped(a);
    NotClamped(b);
    hide Ancestor;
    hide Overlaps;
    hide InWorld;
    assert forall k :: 0 <= k < |ps| ==> InTile(indexZoom, ps[k], zoom, x, y) == InTile(indexZoom, ps[k], indexZoom, a, b);
    assert forall k :: 0 <= k < |boxes| ==> Meets(indexZoom, boxes[k], zoom, x, y) == Meets(indexZoom, boxes[k], indexZoom, a, b);
  }

  lemma {:induction false} WantedIsThere<T>(indexZoom: zoomLevel, zoom: nat, x: nat, y: nat, ps: seq<Placed<T>>)
    requires Wanted(indexZoom, zoom, x, y, ps) != []
    ensures SmallAt(indexZoom, ps, zoom, x, y)
  {
    var n := |ps| - 1;
    if Wants(indexZoom, zoom, x, y, ps[n]) {
      hide Pow2;
      hide InWorld;
      assert InTile(indexZoom, ps[n], zoom, x, y);
    } else {
      hide *;
      WantedUnfold(indexZoom, zoom, x, y, ps);
      WantedIsThere(indexZoom, zoom, x, y, ps[..n]);
      ThereLonger(indexZoom, zoom, x, y, ps, n);
    }
  }

  lemma ThereLonger<T>(indexZoom: zoomLevel, zoom: nat, x: nat, y: nat, ps: seq<Placed<T>>, n: nat)
    requires n <= |ps| && SmallAt(indexZoom, ps[..n], zoom, x, y)
    ensures SmallAt(indexZoom, ps, zoom, x, y)
  {
    hide InTile;
    var k :| 0 <= k < n && InTile(indexZoom, ps[..n][k], zoom, x, y);
    assert InTile(indexZoom, ps[k], zoom, x, y);
  }

  lemma LargeIsThere(indexZoom: zoomLevel, boxes: seq<LargeBox>, zoom: nat, x: nat, y: nat)
    ensures (exists k :: 0 <= k < |boxes| && Meets(indexZoom, boxes[k], zoom, x, y) && boxes[k].minZoom <= zoom) ==>
      LargeAt(indexZoom, boxes, zoom, x, y)
  {
    hide Meets;
  }
}
