/** A source of tile data: objects are added to the index by several threads, the index
    is finalized, and each tile's objects are collected from it. */
module TileDataSource {
  import opened Arithmetic
  import opened TileOrder
  import opened TileIndex

  function Offsets<T>(s: seq<Stored<T>>): (r: seq<Offset>)
    ensures |r| == |s|
  {
    seq(|s|, k requires 0 <= k < |s| => s[k].at)
  }

  // ----- Sorting -----

  function Insertion<T>(w: nat, e: Stored<T>, s: seq<Stored<T>>): seq<Stored<T>> {
    if s == [] || Before(w, e.at, s[0].at) then [e] + s else [s[0]] + Insertion(w, e, s[1..])
  }

  /** The library's sort, by the comparison of the index. */
  function Sorted<T>(w: nat, s: seq<Stored<T>>): seq<Stored<T>> {
    if s == [] then [] else Insertion(w, s[0], Sorted(w, s[1..]))
  }

  ghost predicate InTileOrder<T>(w: nat, s: seq<Stored<T>>) {
    forall j, k :: 0 <= j < k < |s| ==> !Before(w, s[k].at, s[j].at)
  }

  lemma {:induction false} InsertionKeeps<T>(w: nat, e: Stored<T>, s: seq<Stored<T>>)
    requires InTileOrder(w, s)
    ensures InTileOrder(w, Insertion(w, e, s)) && multiset(Insertion(w, e, s)) == multiset(s) + multiset{e}
  {
    hide Before;
    if s == [] {
    } else if Before(w, e.at, s[0].at) {
      forall k | 0 <= k < |s| ensures !Before(w, s[k].at, e.at) {
        if Before(w, s[k].at, e.at) {
          NotItself(w, e.at, s[0].at);
          if k == 0 {
            assert false;
          } else {
            Between(w, s[k].at, s[0].at, e.at);
            assert false;
          }
        }
      }
    } else {
      var rest := Insertion(w, e, s[1..]);
      InsertionKeeps(w, e, s[1..]);
      assert s == [s[0]] + s[1..];
      forall k | 0 <= k < |rest| ensures !Before(w, rest[k].at, s[0].at) {
        assert rest[k] in multiset(rest);
        assert rest[k] == e || rest[k] in s[1..];
      }
    }
  }

  lemma {:induction false} SortedIsInOrder<T>(w: nat, s: seq<Stored<T>>)
    ensures InTileOrder(w, Sorted(w, s)) && multiset(Sorted(w, s)) == multiset(s)
  {
    hide Before;
    if s != [] {
      SortedIsInOrder(w, s[1..]);
      InsertionKeeps(w, s[0], Sorted(w, s[1..]));
      assert s == [s[0]] + s[1..];
    }
  }

  // ----- Looking up -----

  /** std::lower_bound: the first object that is not before the corner. */
  method LowerBound<T>(w: nat, s: seq<Stored<T>>, corner: Offset) returns (lo: nat)
    requires InTileOrder(w, s)
    ensures lo <= |s|
    ensures forall k :: 0 <= k < lo ==> Before(w, s[k].at, corner)
    ensures forall k :: lo <= k < |s| ==> !Before(w, s[k].at, corner)
  {
    hide Before;
    var hi := |s|;
    lo := 0;
    while lo < hi
      invariant 0 <= lo <= hi <= |s|
      invariant forall k :: 0 <= k < lo ==> Before(w, s[k].at, corner)
      invariant forall k :: hi <= k < |s| ==> !Before(w, s[k].at, corner)
    {
      var mid := (lo + hi) / 2;
      var before := Compare(w, s[mid].at, corner);
      Splits(w, s, corner, mid);
      if before {
        lo := mid + 1;
      } else {
        hi := mid;
      }
    }
  }

  lemma Splits<T>(w: nat, s: seq<Stored<T>>, corner: Offset, m: nat)
    requires InTileOrder(w, s) && m < |s|
    ensures Before(w, s[m].at, corner) ==> forall k :: 0 <= k < m ==> Before(w, s[k].at, corner)
    ensures !Before(w, s[m].at, corner) ==> forall k :: m <= k < |s| ==> !Before(w, s[k].at, corner)
  {
    hide Before;
    var os := Offsets(s);
    assert InOrder(w, os);
    if Before(w, s[m].at, corner) {
      forall k | 0 <= k < m ensures Before(w, s[k].at, corner) {
        if !Before(w, os[k], corner) {
          CornerSplits(w, os, corner, k, m);
        }
      }
    } else {
      forall k | m <= k < |s| ensures !Before(w, s[k].at, corner) {
        CornerSplits(w, os, corner, m, k);
        assert os[k] == s[k].at;
      }
    }
  }

  /** What matches lies between the lower bound and the first mismatch after it. */
  lemma RunIsAll<T>(w: nat, d: nat, tx: nat, ty: nat, s: seq<Stored<T>>, lo: nat, hi: nat, f: Stored<T> -> bool)
    requires d <= w && InTileOrder(w, s) && lo <= hi <= |s|
    requires forall k :: 0 <= k < lo ==> Before(w, s[k].at, Corner(d, tx, ty))
    requires forall k :: lo <= k < |s| ==> !Before(w, s[k].at, Corner(d, tx, ty))
    requires hi < |s| ==> !Same(d, s[hi].at, Corner(d, tx, ty))
    requires forall k :: 0 <= k < |s| && f(s[k]) ==> Same(d, s[k].at, Corner(d, tx, ty))
    ensures Picked(s, f) == Picked(s[lo..hi], f)
  {
    hide Before;
    hide Same;
    var os := Offsets(s);
    assert InOrder(w, os);
    forall k | 0 <= k < lo ensures !f(s[k]) {
      TileIsARun(w, d, tx, ty, os, k);
      assert os[k] == s[k].at;
    }
    if hi < |s| {
      TileIsARun(w, d, tx, ty, os, hi);
      assert os[hi] == s[hi].at;
    }
    forall k | hi <= k < |s| ensures !f(s[k]) {
      assert os[k] == s[k].at;
    }
    PickedBetween(s, lo, hi, f);
  }

  lemma PickedBetween<T>(s: seq<Stored<T>>, lo: nat, hi: nat, f: Stored<T> -> bool)
    requires lo <= hi <= |s|
    requires (forall k :: 0 <= k < lo ==> !f(s[k])) && (forall k :: hi <= k < |s| ==> !f(s[k]))
    ensures Picked(s, f) == Picked(s[lo..hi], f)
  {
    hide *;
    PickedNone(s[..lo], f);
    PickedNone(s[hi..], f);
    assert s == s[..lo] + s[lo..hi] + s[hi..];
    PickedConcat(s[..lo] + s[lo..hi], s[hi..], f);
    PickedConcat(s[..lo], s[lo..hi], f);
  }

  /** The scan's test names the tile by its corner in the cell. */
  lemma MatchesTile<T>(indexZoom: zoomLevel, c: nat, x: nat, y: nat, zoom: nat, e: Stored<T>)
    requires 6 <= c <= indexZoom && e.at.x < Divisor(indexZoom) && e.at.y < Divisor(indexZoom)
    ensures var tx, ty := Remainder(x, c - 6), Remainder(y, c - 6);
            var f: Stored<T> -> bool := Matches(indexZoom, Ancestor(x, c - 6), Ancestor(y, c - 6), indexZoom - c, x, y, zoom);
            f(e) <==> Same(indexZoom - c, e.at, Corner(indexZoom - c, tx, ty)) && e.minZoom <= zoom
  {
    hide Pow2;
    var w, d := indexZoom - 6, indexZoom - c;
    assert w - d == c - 6;
    ScanSum(w, d, Ancestor(x, c - 6), e.at.x, x);
    ScanSum(w, d, Ancestor(y, c - 6), e.at.y, y);
    CornerIn(d, Remainder(x, c - 6), Remainder(y, c - 6));
  }

  /** Position of a tile inside its ancestor some zooms above. */
  function Remainder(t: nat, zooms: nat): nat {
    DivModFacts(t, Pow2(zooms));
    t % Pow2(zooms)
  }

  /** The needle of the binary search is that corner. */
  lemma NeedleIs(indexZoom: zoomLevel, c: nat, x: nat)
    requires 6 <= c <= indexZoom
    ensures x * Pow2(indexZoom - c) - Ancestor(x, c - 6) * Divisor(indexZoom) == Remainder(x, c - 6) * Pow2(indexZoom - c)
    ensures 0 <= Remainder(x, c - 6) * Pow2(indexZoom - c) < 256
  {
    NeedleIsCorner(indexZoom - 6, indexZoom - c, x);
    assert (indexZoom - 6) - (indexZoom - c) == c - 6;
    Pow2Monotone(indexZoom - 6, 8);
    assert Pow2(8) == 256;
    MulNonNegative(Remainder(x, c - 6), Pow2(indexZoom - c));
  }

  ghost predicate AllInCell<T>(indexZoom: zoomLevel, s: seq<Stored<T>>) {
    forall k :: 0 <= k < |s| ==> s[k].at.x < Divisor(indexZoom) && s[k].at.y < Divisor(indexZoom)
  }

  /** The objects of a cell that are in the tile and shown at the zoom: a binary search
      and a run up to the first mismatch, instead of a scan of the cell. */
  method CollectFromCell<T>(indexZoom: zoomLevel, objects: seq<Stored<T>>, zoom: nat, dstX: nat, dstY: nat,
                            ghost f: Stored<T> -> bool) returns (output: seq<T>)
    requires 6 <= zoom && 6 <= indexZoom && InTileOrder(Depth(indexZoom), objects) && AllInCell(indexZoom, objects)
    requires var c := Clamp(indexZoom, zoom);
             f == Matches(indexZoom, Ancestor(dstX, zoom - 6), Ancestor(dstY, zoom - 6), indexZoom - c,
                          Ancestor(dstX, zoom - c), Ancestor(dstY, zoom - c), zoom)
    ensures output == Picked(objects, f)
  {
    hide *;
    var clampedZoom, x, y := zoom, dstX, dstY;
    NotClamped(dstX);
    NotClamped(dstY);
    while clampedZoom > indexZoom
      invariant 6 <= clampedZoom <= zoom && (clampedZoom >= indexZoom || clampedZoom == zoom)
      invariant x == Ancestor(dstX, zoom - clampedZoom) && y == Ancestor(dstY, zoom - clampedZoom)
    {
      OneAbove(dstX, zoom - clampedZoom);
      OneAbove(dstY, zoom - clampedZoom);
      clampedZoom := clampedZoom - 1;
      x := x / 2;
      y := y / 2;
    }
    Clamped(indexZoom, zoom, clampedZoom);
    ghost var w, d := Depth(indexZoom), indexZoom - clampedZoom;
    SameCell(dstX, zoom, clampedZoom);
    SameCell(dstY, zoom, clampedZoom);
    var z6x, z6y := Ancestor(x, clampedZoom - 6), Ancestor(y, clampedZoom - 6);
    var divisor := Divisor(indexZoom);
    var baseX, baseY := x * Pow2(indexZoom - clampedZoom), y * Pow2(indexZoom - clampedZoom);
    NeedleIs(indexZoom, clampedZoom, x);
    NeedleIs(indexZoom, clampedZoom, y);
    var needle := Offset(baseX - z6x * divisor, baseY - z6y * divisor);
    ghost var tx: nat, ty: nat := Remainder(x, clampedZoom - 6), Remainder(y, clampedZoom - 6);
    CornerIs(indexZoom - clampedZoom, tx, ty);
    var lo := LowerBound(Depth(indexZoom), objects, needle);
    var i := lo;
    output := [];
    PickedNone(objects[lo..lo], f);
    while i < |objects|
      invariant lo <= i <= |objects| && output == Picked(objects[lo..i], f)
    {
      var e := objects[i];
      InCellAt(indexZoom, objects, i);
      MatchesTile(indexZoom, clampedZoom, x, y, zoom, e);
      ScanTest(indexZoom, z6x, z6y, clampedZoom, x, y, zoom, e);
      PickedMore(objects, lo, i, f);
      if (z6x * divisor + e.at.x) / Pow2(indexZoom - clampedZoom) == x &&
         (z6y * divisor + e.at.y) / Pow2(indexZoom - clampedZoom) == y
      {
        if e.minZoom <= zoom {
          output := output + [e.oo];
        }
      } else {
        NotSame(indexZoom, clampedZoom, x, y, e);
        break;
      }
      i := i + 1;
    }
    forall k | 0 <= k < |objects| && f(objects[k]) ensures Same(d, objects[k].at, Corner(d, tx, ty)) {
      InCellAt(indexZoom, objects, k);
      MatchesTile(indexZoom, clampedZoom, x, y, zoom, objects[k]);
    }
    RunIsAll(w, d, tx, ty, objects, lo, i, f);
  }

  lemma NotClamped(x: nat)
    ensures Ancestor(x, 0) == x
  {
    assert Pow2(0) == 1;
  }

  lemma OneAbove(x: nat, k: nat)
    ensures Ancestor(x, k + 1) == Ancestor(x, k) / 2
  {
    DivideMore(x, k, k + 1);
    assert Pow2(1) == 2;
  }

  lemma Clamped(indexZoom: zoomLevel, zoom: nat, c: nat)
    requires 6 <= c <= zoom && 6 <= indexZoom && c <= indexZoom && (c >= indexZoom || c == zoom)
    ensures c == Clamp(indexZoom, zoom) && Depth(indexZoom) == indexZoom - 6
  {
  }

  /** Clamping does not change the cell. */
  lemma SameCell(x: nat, zoom: nat, c: nat)
    requires 6 <= c <= zoom
    ensures Ancestor(Ancestor(x, zoom - c), c - 6) == Ancestor(x, zoom - 6)
  {
    DivideMore(x, zoom - c, zoom - 6);
  }

  lemma CornerIs(d: nat, tx: nat, ty: nat)
    ensures Corner(d, tx, ty) == Offset(tx * Pow2(d), ty * Pow2(d))
  {
  }

  lemma InCellAt<T>(indexZoom: zoomLevel, s: seq<Stored<T>>, k: nat)
    requires AllInCell(indexZoom, s) && k < |s|
    ensures s[k].at.x < Divisor(indexZoom) && s[k].at.y < Divisor(indexZoom)
  {
  }

  lemma ScanTest<T>(indexZoom: zoomLevel, cx: nat, cy: nat, c: nat, x: nat, y: nat, zoom: nat, e: Stored<T>)
    requires c <= indexZoom
    ensures var f: Stored<T> -> bool := Matches(indexZoom, cx, cy, indexZoom - c, x, y, zoom);
            f(e) <==> (cx * Divisor(indexZoom) + e.at.x) / Pow2(indexZoom - c) == x &&
                      (cy * Divisor(indexZoom) + e.at.y) / Pow2(indexZoom - c) == y && e.minZoom <= zoom
  {
    hide Pow2;
  }

  lemma NotSame<T>(indexZoom: zoomLevel, c: nat, x: nat, y: nat, e: Stored<T>)
    requires 6 <= c <= indexZoom && e.at.x < Divisor(indexZoom) && e.at.y < Divisor(indexZoom)
    requires !((Ancestor(x, c - 6) * Divisor(indexZoom) + e.at.x) / Pow2(indexZoom - c) == x &&
               (Ancestor(y, c - 6) * Divisor(indexZoom) + e.at.y) / Pow2(indexZoom - c) == y)
    ensures !Same(indexZoom - c, e.at, Corner(indexZoom - c, Remainder(x, c - 6), Remainder(y, c - 6)))
  {
    hide Pow2;
    MatchesTile(indexZoom, c, x, y, e.minZoom, e);
  }

  lemma PickedMore<T>(s: seq<Stored<T>>, lo: nat, i: nat, f: Stored<T> -> bool)
    requires lo <= i < |s|
    ensures Picked(s[lo..i + 1], f) == if f(s[i]) then Picked(s[lo..i], f) + [s[i].oo] else Picked(s[lo..i], f)
  {
    assert s[lo..i + 1] == s[lo..i] + [s[i]];
    assert s[lo..i + 1][..i - lo] == s[lo..i];
  }

  class TileDataSource<T(==)> {
    const indexZoom: zoomLevel
    var objects: seq<seq<Stored<T>>>
    var lowZoomObjects: seq<seq<Stored<T>>>
    // Objects that met a locked cell, to be added at the end.
    var pending: seq<Placed<T>>
    ghost var indexed: seq<Placed<T>>

    /** While objects are added. */
    ghost predicate Filling()
      reads this
    {
      && objects == Contents(indexZoom, indexed)
      && lowZoomObjects == seq(CLUSTER_ZOOM_AREA, _ => [])
      && forall k :: 0 <= k < |pending| ==> InWorld(indexZoom, pending[k])
    }

    /** After finalize. */
    ghost predicate Ready()
      reads this
    {
      && |objects| == |lowZoomObjects| == CLUSTER_ZOOM_AREA && pending == []
      && forall c :: 0 <= c < CLUSTER_ZOOM_AREA ==> CellReady(indexZoom, indexed, c, objects[c], lowZoomObjects[c])
    }

    constructor (indexZoom: zoomLevel)
      ensures Filling() && this.indexZoom == indexZoom && indexed == [] && pending == []
    {
      this.indexZoom := indexZoom;
      objects := seq(CLUSTER_ZOOM_AREA, _ => []);
      lowZoomObjects := seq(CLUSTER_ZOOM_AREA, _ => []);
      pending, indexed := [], [];
    }

    method AddObjectToSmallIndexUnsafe(p: Placed<T>)
      requires Filling() && InWorld(indexZoom, p)
      modifies this`objects, this`indexed
      ensures Filling() && indexed == old(indexed) + [p]
    {
      hide Content;
      hide InCell;
      OffsetsFit(indexZoom, p);
      var z6index := Cell(CellX(indexZoom, p), CellY(indexZoom, p));
      ContentsGrow(indexZoom, indexed, p);
      objects := objects[z6index := objects[z6index] + [InCell(indexZoom, p)]];
      indexed := indexed + [p];
    }

    /** What lies outside of the world is ignored. */
    method AddObjectToSmallIndex(p: Placed<T>, lockWon: bool)
      requires Filling()
      modifies this`objects, this`indexed, this`pending
      ensures Filling()
      ensures multiset(indexed) + multiset(pending)
              == old(multiset(indexed) + multiset(pending)) + if InWorld(indexZoom, p) then multiset{p} else multiset{}
    {
      hide Contents;
      hide InWorld;
      hide CellX;
      hide CellY;
      WorldIsValid(indexZoom, p);
      if CellX(indexZoom, p) >= 64 || CellY(indexZoom, p) >= 64 {
        return;
      }
      if lockWon {
        AddObjectToSmallIndexUnsafe(p);
      } else {
        pending := pending + [p];
      }
    }

    method Finalize()
      requires Filling()
      modifies this
      ensures Ready() && multiset(indexed) == old(multiset(indexed) + multiset(pending))
    {
      hide Content;
      hide InWorld;
      hide CellReady;
      var i := 0;
      while i < |pending|
        invariant 0 <= i <= |pending| && pending == old(pending) && Filling()
        invariant multiset(indexed) == old(multiset(indexed)) + multiset(pending[..i])
      {
        assert pending[..i + 1] == pending[..i] + [pending[i]];
        AddObjectToSmallIndexUnsafe(pending[i]);
        i := i + 1;
      }
      assert pending[..|pending|] == pending;
      pending := [];
      var c := 0;
      while c < CLUSTER_ZOOM_AREA
        invariant 0 <= c <= CLUSTER_ZOOM_AREA == |objects| == |lowZoomObjects| && pending == []
        invariant multiset(indexed) == old(multiset(indexed) + multiset(pending))
        invariant forall k :: 0 <= k < c ==> CellReady(indexZoom, indexed, k, objects[k], lowZoomObjects[k])
        invariant forall k :: c <= k < CLUSTER_ZOOM_AREA ==> objects[k] == Content(indexZoom, indexed, k) && lowZoomObjects[k] == []
      {
        CellFinalized(indexZoom, indexed, c);
        if |objects[c]| > 0 {
          CopyLowZoom(c);
          objects := objects[c := Sorted(Depth(indexZoom), objects[c])];
        }
        c := c + 1;
      }
    }

    /** A separate copy of the objects shown below zoom 6. */
    method CopyLowZoom(c: nat)
      requires c < |objects| == |lowZoomObjects| && lowZoomObjects[c] == []
      modifies this`lowZoomObjects
      ensures lowZoomObjects == old(lowZoomObjects)[c := LowOnly(objects[c])]
    {
      var cell := objects[c];
      for k := 0 to |cell|
        invariant lowZoomObjects == old(lowZoomObjects)[c := LowOnly(cell[..k])]
      {
        assert cell[..k + 1][..k] == cell[..k];
        assert LowOnly(cell[..k]) + [] == LowOnly(cell[..k]);
        if cell[k].minZoom < CLUSTER_ZOOM {
          lowZoomObjects := lowZoomObjects[c := lowZoomObjects[c] + [cell[k]]];
        }
      }
      assert cell[..|cell|] == cell;
    }

    /** The objects of a tile at any zoom: as many of each as a full scan finds. An index
        below zoom 6 cannot be asked above its own zoom: its cells are not tiles of zoom 6,
        and the scan would shift by a negative number. */
    method CollectObjectsForTile(zoom: nat, x: nat, y: nat) returns (output: seq<T>)
      requires Ready() && (6 <= indexZoom || zoom <= indexZoom)
      ensures multiset(output) == multiset(Wanted(indexZoom, zoom, x, y, indexed))
    {
      hide *;
      if zoom < 6 {
        output := CollectLowZoomObjectsForTile(zoom, x, y);
        return;
      }
      var z6x, z6y := Ancestor(x, zoom - 6), Ancestor(y, zoom - 6);
      AncestorIs(x, zoom - 6);
      AncestorIs(y, zoom - 6);
      if z6x >= 64 || z6y >= 64 {
        NothingOutside(indexZoom, zoom, x, y, indexed);
        return [];
      }
      InCells(z6x, z6y);
      var iStart := Cell(z6x, z6y);
      ReadyAt(iStart);
      ghost var c := Clamp(indexZoom, zoom);
      ghost var f: Stored<T> -> bool := Matches(indexZoom, z6x, z6y, indexZoom - c, Ancestor(x, zoom - c), Ancestor(y, zoom - c), zoom);
      output := CollectFromCell(indexZoom, objects[iStart], zoom, x, y, f);
      PickedPermutes(objects[iStart], Content(indexZoom, indexed, iStart), f);
      CellScan(indexZoom, zoom, x, y, indexed, z6x, z6y, f);
    }

    method CollectLowZoomObjectsForTile(zoom: nat, dstX: nat, dstY: nat) returns (output: seq<T>)
      requires Ready() && zoom < 6 && zoom <= indexZoom
      ensures multiset(output) == multiset(Wanted(indexZoom, zoom, dstX, dstY, indexed))
    {
      hide *;
      output := [];
      Area();
      ghost var contents := Contents(indexZoom, indexed);
      ScanStart(indexZoom, contents, zoom, dstX, dstY);
      var i := 0;
      while i < 4096
        invariant 0 <= i <= 4096
        invariant multiset(output) == multiset(ScanAll(indexZoom, contents, zoom, dstX, dstY, i))
      {
        ReadyAt(i);
        var z6x, z6y := i / 64, i % 64;
        var cell := lowZoomObjects[i];
        ghost var before := output;
        ghost var f: Stored<T> -> bool := Matches(indexZoom, z6x, z6y, indexZoom - zoom, dstX, dstY, zoom);
        PickedNone(cell[0..0], f);
        for j := 0 to |cell|
          invariant output == before + Picked(cell[0..j], f)
        {
          PickedMore(cell, 0, j, f);
          ScanTest(indexZoom, z6x, z6y, zoom, dstX, dstY, zoom, cell[j]);
          var baseX := z6x * Divisor(indexZoom) + cell[j].at.x;
          var baseY := z6y * Divisor(indexZoom) + cell[j].at.y;
          if baseX / Pow2(indexZoom - zoom) == dstX && baseY / Pow2(indexZoom - zoom) == dstY {
            if cell[j].minZoom <= zoom {
              output := output + [cell[j].oo];
            }
          }
        }
        assert cell[0..|cell|] == cell;
        LowScan(indexZoom, indexed, i, cell, zoom, dstX, dstY, f);
        i := i + 1;
      }
      AllCells(indexZoom, zoom, dstX, dstY, indexed, 4096);
      AllBelow(indexZoom, zoom, dstX, dstY, indexed);
    }

    lemma ReadyAt(c: nat)
      requires Ready() && c < 4096
      ensures |objects| == |lowZoomObjects| == 4096
      ensures multiset(objects[c]) == multiset(Content(indexZoom, indexed, c))
      ensures InTileOrder(Depth(indexZoom), objects[c]) && AllInCell(indexZoom, objects[c])
      ensures multiset(lowZoomObjects[c]) == multiset(LowOnly(Content(indexZoom, indexed, c)))
    {
      assert CellReady(indexZoom, indexed, c, objects[c], lowZoomObjects[c]);
      hide Content;
      hide LowOnly;
      hide InTileOrder;
      hide AllInCell;
    }
  }

  lemma Area()
    ensures CLUSTER_ZOOM_AREA == 4096
  {
  }

  lemma InCells(x: nat, y: nat)
    requires x < 64 && y < 64
    ensures Valid6(x, y) && Cell(x, y) < 4096
  {
  }

  ghost predicate CellReady<T>(indexZoom: zoomLevel, indexed: seq<Placed<T>>, c: nat, objects: seq<Stored<T>>, low: seq<Stored<T>>) {
    && multiset(objects) == multiset(Content(indexZoom, indexed, c))
    && InTileOrder(Depth(indexZoom), objects) && AllInCell(indexZoom, objects)
    && multiset(low) == multiset(LowOnly(Content(indexZoom, indexed, c)))
  }

  lemma CellFinalized<T>(indexZoom: zoomLevel, indexed: seq<Placed<T>>, c: nat)
    requires c < CLUSTER_ZOOM_AREA
    ensures var s := Content(indexZoom, indexed, c);
            CellReady(indexZoom, indexed, c, Sorted(Depth(indexZoom), s), LowOnly(s)) &&
            (s == [] ==> CellReady(indexZoom, indexed, c, s, []))
  {
    hide Content;
    var s := Content(indexZoom, indexed, c);
    SortedIsInOrder(Depth(indexZoom), s);
    ContentInCell(indexZoom, indexed, c);
    var t := Sorted(Depth(indexZoom), s);
    forall k | 0 <= k < |t| ensures t[k].at.x < Divisor(indexZoom) && t[k].at.y < Divisor(indexZoom) {
      assert t[k] in multiset(t);
      assert t[k] in s;
    }
  }

  lemma {:induction false} ContentInCell<T>(indexZoom: zoomLevel, ps: seq<Placed<T>>, c: nat)
    ensures AllInCell(indexZoom, Content(indexZoom, ps, c))
  {
    hide InWorld;
    hide InCell;
    if ps != [] {
      ContentInCell(indexZoom, ps[..|ps| - 1], c);
      OffsetsFit(indexZoom, ps[|ps| - 1]);
    }
  }

  lemma ContentsGrow<T>(indexZoom: zoomLevel, ps: seq<Placed<T>>, p: Placed<T>)
    requires InWorld(indexZoom, p)
    ensures var c := Cell(CellX(indexZoom, p), CellY(indexZoom, p));
            Contents(indexZoom, ps + [p]) == Contents(indexZoom, ps)[c := Contents(indexZoom, ps)[c] + [InCell(indexZoom, p)]]
  {
    var qs := ps + [p];
    assert qs[..|ps|] == ps;
    var c := Cell(CellX(indexZoom, p), CellY(indexZoom, p));
    forall n | 0 <= n < CLUSTER_ZOOM_AREA
      ensures Content(indexZoom, qs, n) == if n == c then Content(indexZoom, ps, n) + [InCell(indexZoom, p)] else Content(indexZoom, ps, n)
    {
      ContentUnfold(indexZoom, qs, n);
      NumberIs(indexZoom, p, n);
    }
    hide Content;
    hide InCell;
  }

  lemma ScanStart<T>(indexZoom: zoomLevel, lists: seq<seq<Stored<T>>>, zoom: nat, x: nat, y: nat)
    requires zoom <= indexZoom
    ensures ScanAll(indexZoom, lists, zoom, x, y, 0) == []
  {
  }

  /** One cell's copies answer as its list would. */
  lemma LowScan<T>(indexZoom: zoomLevel, ps: seq<Placed<T>>, i: nat, low: seq<Stored<T>>, zoom: nat, x: nat, y: nat, f: Stored<T> -> bool)
    requires i < 4096 && zoom < 6 && zoom <= indexZoom && f == Matches(indexZoom, i / 64, i % 64, indexZoom - zoom, x, y, zoom)
    requires multiset(low) == multiset(LowOnly(Content(indexZoom, ps, i)))
    ensures multiset(ScanAll(indexZoom, Contents(indexZoom, ps), zoom, x, y, i + 1)) ==
      multiset(ScanAll(indexZoom, Contents(indexZoom, ps), zoom, x, y, i)) + multiset(Picked(low, f))
  {
    hide Content;
    hide LowOnly;
    hide Pow2;
    var s := Content(indexZoom, ps, i);
    PickedPermutes(low, LowOnly(s), f);
    LowPicked(s, f);
  }
}
