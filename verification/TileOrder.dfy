/** The order of the objects of one z6 tile: by the column and row of their tile at each
    zoom in turn, from zoom 6 down to the index zoom. */
module TileOrder {
  import opened Arithmetic

  /** Offset of an index-zoom tile inside its z6 tile. */
  datatype Offset = Offset(x: nat, y: nat)

  /** The coordinates are those of the same tile, d zooms above the index zoom. */
  predicate Same(d: nat, a: Offset, b: Offset) {
    a.x / Pow2(d) == b.x / Pow2(d) && a.y / Pow2(d) == b.y / Pow2(d)
  }

  /** The comparison of the sort, started d zooms above the index zoom. */
  predicate Before(d: nat, a: Offset, b: Offset) {
    if a.x / Pow2(d) != b.x / Pow2(d) then a.x / Pow2(d) < b.x / Pow2(d)
    else if a.y / Pow2(d) != b.y / Pow2(d) then a.y / Pow2(d) < b.y / Pow2(d)
    else d > 0 && Before(d - 1, a, b)
  }

  /** The comparison as the sort makes it, zoom by zoom. */
  method Compare(d: nat, a: Offset, b: Offset) returns (before: bool)
    ensures before == Before(d, a, b)
  {
    hide Pow2;
    var z := 0;
    while z <= d
      invariant z <= d + 1
      invariant Before(d, a, b) == (z <= d && Before(d - z, a, b))
    {
      var aXz, bXz := a.x / Pow2(d - z), b.x / Pow2(d - z);
      if aXz != bXz {
        return aXz < bXz;
      }
      var aYz, bYz := a.y / Pow2(d - z), b.y / Pow2(d - z);
      if aYz != bYz {
        return aYz < bYz;
      }
      z := z + 1;
    }
    return false;
  }

  lemma DivideMore(x: nat, d: nat, e: nat)
    requires d <= e
    ensures x / Pow2(e) == x / Pow2(d) / Pow2(e - d)
  {
    Pow2Sum(d, e - d);
    DivDiv(x, Pow2(d), Pow2(e - d));
  }

  lemma SameAbove(d: nat, e: nat, a: Offset, b: Offset)
    requires d <= e && Same(d, a, b)
    ensures Same(e, a, b)
  {
    DivideMore(a.x, d, e);
    DivideMore(b.x, d, e);
    DivideMore(a.y, d, e);
    DivideMore(b.y, d, e);
  }

  /** Between different tiles, the comparison does not look inside them. */
  lemma {:induction false} TilesDecide(w: nat, d: nat, a: Offset, b: Offset, a': Offset, b': Offset)
    requires d <= w && Same(d, a, a') && Same(d, b, b') && !Same(d, a, b)
    ensures Before(w, a, b) <==> Before(w, a', b')
    decreases w
  {
    hide Pow2;
    SameAbove(d, w, a, a');
    SameAbove(d, w, b, b');
    if w > d {
      TilesDecide(w - 1, d, a, b, a', b');
    }
  }

  /** Of two different tiles one comes first. */
  lemma {:induction false} OneIsFirst(w: nat, d: nat, a: Offset, b: Offset)
    requires d <= w && !Same(d, a, b)
    ensures Before(w, a, b) || Before(w, b, a)
    decreases w
  {
    hide Pow2;
    if w > d {
      OneIsFirst(w - 1, d, a, b);
    }
  }

  /** Nothing further down and to the right comes first. */
  lemma {:induction false} CornerIsFirst(w: nat, a: Offset, b: Offset)
    requires a.x <= b.x && a.y <= b.y
    ensures !Before(w, b, a)
  {
    DivideMonotone(a.x, b.x, w);
    DivideMonotone(a.y, b.y, w);
    if w > 0 {
      CornerIsFirst(w - 1, a, b);
    }
  }

  lemma DivideMonotone(a: nat, b: nat, d: nat)
    requires a <= b
    ensures a / Pow2(d) <= b / Pow2(d)
  {
    var s := Pow2(d);
    DivModFacts(a, s);
    DivModFacts(b, s);
    var p, q := a / s, b / s;
    assert s * (q + 1) == s * q + s;
    if p > q {
      MulMonotone(s, q + 1, p);
      assert false;
    }
  }

  /** What comes between two that are in order is after the one or before the other. */
  lemma {:induction false} Between(w: nat, a: Offset, b: Offset, c: Offset)
    requires Before(w, a, c)
    ensures Before(w, a, b) || Before(w, b, c)
  {
    hide Pow2;
    if w > 0 && Same(w, a, c) && Same(w, a, b) {
      Between(w - 1, a, b, c);
    }
  }

  lemma {:induction false} NotItself(w: nat, a: Offset, b: Offset)
    requires Before(w, a, b)
    ensures !Before(w, b, a)
  {
    hide Pow2;
    if w > 0 && Same(w, a, b) {
      NotItself(w - 1, a, b);
    }
  }

  // ----- Runs -----

  ghost predicate InOrder(w: nat, s: seq<Offset>) {
    forall j, k :: 0 <= j < k < |s| ==> !Before(w, s[k], s[j])
  }

  /** The first offset of a tile d zooms above. */
  function Corner(d: nat, tx: nat, ty: nat): Offset {
    Offset(tx * Pow2(d), ty * Pow2(d))
  }

  lemma CornerIn(d: nat, tx: nat, ty: nat)
    ensures Corner(d, tx, ty).x / Pow2(d) == tx && Corner(d, tx, ty).y / Pow2(d) == ty
  {
    DivModUnique(tx * Pow2(d), Pow2(d), tx, 0);
    DivModUnique(ty * Pow2(d), Pow2(d), ty, 0);
  }

  /** In an ordered list a tile's objects stand together: none is before the tile's
      corner, and after one that is not before the corner and of another tile there is
      none. */
  lemma TileIsARun(w: nat, d: nat, tx: nat, ty: nat, s: seq<Offset>, j: nat)
    requires d <= w && InOrder(w, s) && j < |s|
    ensures Same(d, s[j], Corner(d, tx, ty)) ==> !Before(w, s[j], Corner(d, tx, ty))
    ensures !Before(w, s[j], Corner(d, tx, ty)) && !Same(d, s[j], Corner(d, tx, ty)) ==>
      forall k :: j <= k < |s| ==> !Same(d, s[k], Corner(d, tx, ty))
  {
    var corner := Corner(d, tx, ty);
    CornerIn(d, tx, ty);
    if Same(d, s[j], corner) {
      InsideTile(d, s[j].x, tx);
      InsideTile(d, s[j].y, ty);
      CornerIsFirst(w, corner, s[j]);
    } else if !Before(w, s[j], corner) {
      OneIsFirst(w, d, s[j], corner);
      forall k | j < k < |s| ensures !Same(d, s[k], corner) {
        if Same(d, s[k], corner) {
          TilesDecide(w, d, corner, s[j], s[k], s[j]);
          assert false;
        }
      }
    }
  }

  lemma InsideTile(d: nat, x: nat, t: nat)
    requires x / Pow2(d) == t
    ensures t * Pow2(d) <= x
  {
    DivModFacts(x, Pow2(d));
  }

  /** What stands after something not before the corner is not before it either. */
  lemma CornerSplits(w: nat, s: seq<Offset>, corner: Offset, j: nat, k: nat)
    requires InOrder(w, s) && j <= k < |s| && !Before(w, s[j], corner)
    ensures !Before(w, s[k], corner)
  {
    if Before(w, s[k], corner) {
      Between(w, s[k], s[j], corner);
    }
  }
}
