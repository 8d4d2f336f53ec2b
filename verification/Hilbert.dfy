/** Tile ids of a PMTiles archive: the zoom levels in order, and inside a level
    the tiles along a Hilbert curve. */
module Hilbert {
  import opened Coordinates
  import opened Arithmetic

  datatype ZXY = ZXY(z: nat, x: int, y: int)

  datatype TileIdResult = Id(id: nat) | ZoomTooHigh | OutsideZoomBounds

  datatype ZXYResult = Decoded(tile: ZXY) | IdTooHigh

  const MAX_ZOOM: nat := 31

  predicate OnLevel(z: nat, t: Tile) {
    0 <= t.x < Pow2(z) && 0 <= t.y < Pow2(z)
  }

  // ----- The curve -----

  /** The quadrant reflection of the curve. The coordinates are any integers: the
      encoder feeds it values whose high bits are still set. */
  function Rotated(n: int, t: Tile, rx: int, ry: int): Tile {
    if ry == 0 then
      if rx == 1 then Tile(n - 1 - t.y, n - 1 - t.x) else Tile(t.y, t.x)
    else t
  }

  /** 3*rx XOR ry, for two bits. */
  function Quadrant(rx: int, ry: int): int {
    if rx == 1 then 3 - ry else ry
  }

  /** The two bits of a quadrant number. */
  function QuadrantX(q: int): int {
    if q == 2 || q == 3 then 1 else 0
  }

  function QuadrantY(q: int): int {
    if q == 1 || q == 2 then 1 else 0
  }

  /** f, added up q times, for the four quadrant numbers and the two bits. */
  function Copies(q: int, f: int): int {
    if q == 1 then f else if q == 2 then 2 * f else if q == 3 then 3 * f else 0
  }

  /** Number of the quarter, of length f each, that p lies in. */
  function Quarter(p: int, f: int): int {
    if p < f then 0 else if p < 2 * f then 1 else if p < 3 * f then 2 else 3
  }

  /** The quadrant, of side s, that a tile lies in. */
  function QuadrantOf(s: int, t: Tile): int {
    Quadrant(if t.x >= s then 1 else 0, if t.y >= s then 1 else 0)
  }

  /** The tile inside that quadrant, in the quadrant's own orientation. */
  function Inside(s: int, t: Tile): Tile {
    var rx := if t.x >= s then 1 else 0;
    var ry := if t.y >= s then 1 else 0;
    Rotated(s, Tile(t.x - Copies(rx, s), t.y - Copies(ry, s)), rx, ry)
  }

  /** Puts a tile of the smaller curve into quadrant q. */
  function Placed(s: int, sub: Tile, q: int): Tile {
    var r := Rotated(s, sub, QuadrantX(q), QuadrantY(q));
    Tile(r.x + Copies(QuadrantX(q), s), r.y + Copies(QuadrantY(q), s))
  }

  predicate InSquare(s: int, t: Tile) {
    0 <= t.x < s && 0 <= t.y < s
  }

  lemma PlacedInverse(s: int, sub: Tile, q: int)
    requires InSquare(s, sub) && 0 <= q < 4
    ensures InSquare(2 * s, Placed(s, sub, q))
    ensures QuadrantOf(s, Placed(s, sub, q)) == q
    ensures Inside(s, Placed(s, sub, q)) == sub
  {
  }

  lemma InsideInverse(s: int, t: Tile)
    requires InSquare(2 * s, t)
    ensures InSquare(s, Inside(s, t)) && 0 <= QuadrantOf(s, t) < 4
    ensures Placed(s, Inside(s, t), QuadrantOf(s, t)) == t
  {
  }

  /** Position of a tile on the curve of order k, largest quadrant first. */
  ghost function Position(k: nat, t: Tile): (p: int)
    requires OnLevel(k, t)
    ensures 0 <= p < Pow4(k)
  {
    if k == 0 then 0
    else
      var s := Pow2(k - 1);
      InsideInverse(s, t);
      Copies(QuadrantOf(s, t), Pow4(k - 1)) + Position(k - 1, Inside(s, t))
  }

  /** The tile at a position of the curve of order k. */
  ghost function TileAt(k: nat, p: int): (t: Tile)
    requires 0 <= p < Pow4(k)
    ensures OnLevel(k, t)
  {
    if k == 0 then Tile(0, 0)
    else
      var f := Pow4(k - 1);
      var q := Quarter(p, f);
      var sub := TileAt(k - 1, p - Copies(q, f));
      PlacedInverse(Pow2(k - 1), sub, q);
      Placed(Pow2(k - 1), sub, q)
  }

  /** One turn of the definition. */
  lemma TileAtUnfold(k: nat, q: int, r: int)
    requires 0 < k && 0 <= q < 4 && 0 <= r < Pow4(k - 1)
    ensures 0 <= Copies(q, Pow4(k - 1)) + r < Pow4(k)
    ensures TileAt(k, Copies(q, Pow4(k - 1)) + r) == Placed(Pow2(k - 1), TileAt(k - 1, r), q)
  {
    QuarterUnique(q, Pow4(k - 1), r);
  }

  lemma QuarterOfDivision(p: int, f: int)
    requires 0 < f && 0 <= p < 4 * f
    ensures p / f == Quarter(p, f)
    ensures p % f == p - Copies(Quarter(p, f), f)
  {
    var q := Quarter(p, f);
    DivModUnique(p, f, q, p - Copies(q, f));
  }

  lemma CopiesIsProduct(q: int, f: int)
    requires 0 <= q < 4
    ensures Copies(q, f) == q * f == f * q
  {
  }

  lemma PositionUnfold(k: nat, sub: Tile, q: int)
    requires 0 < k && 0 <= q < 4 && OnLevel(k - 1, sub)
    ensures OnLevel(k, Placed(Pow2(k - 1), sub, q))
    ensures Position(k, Placed(Pow2(k - 1), sub, q)) == Copies(q, Pow4(k - 1)) + Position(k - 1, sub)
  {
    PlacedInverse(Pow2(k - 1), sub, q);
  }

  lemma InQuadrant(k: nat, t: Tile)
    requires 0 < k && OnLevel(k, t)
    ensures var sub, q := Inside(Pow2(k - 1), t), QuadrantOf(Pow2(k - 1), t);
            OnLevel(k - 1, sub) && 0 <= q < 4 && Placed(Pow2(k - 1), sub, q) == t
  {
    InsideInverse(Pow2(k - 1), t);
  }

  lemma OrderZero()
    ensures forall t :: OnLevel(0, t) ==> TileAt(0, Position(0, t)) == t
    ensures Pow4(0) == 1 && TileAt(0, 0) == Tile(0, 0) && Position(0, TileAt(0, 0)) == 0
  {
  }

  /** The two directions are inverse to each other. */
  lemma {:induction false} TileAtPosition(k: nat, t: Tile)
    requires OnLevel(k, t)
    ensures TileAt(k, Position(k, t)) == t
  {
    hide *;
    if k == 0 {
      OrderZero();
    } else {
      var sub, q := Inside(Pow2(k - 1), t), QuadrantOf(Pow2(k - 1), t);
      InQuadrant(k, t);
      TileAtPosition(k - 1, sub);
      PositionUnfold(k, sub, q);
      TileAtUnfold(k, q, Position(k - 1, sub));
    }
  }

  lemma {:induction false} PositionOfTileAt(k: nat, p: int)
    requires 0 <= p < Pow4(k)
    ensures Position(k, TileAt(k, p)) == p
  {
    hide *;
    OrderZero();
    if k > 0 {
      var q := Quarter(p, Pow4(k - 1));
      var r := p - Copies(q, Pow4(k - 1));
      QuarterIs(k, p);
      PositionOfTileAt(k - 1, r);
      TileAtUnfold(k, q, r);
      PositionUnfold(k, TileAt(k - 1, r), q);
    }
  }

  lemma QuarterIs(k: nat, p: int)
    requires 0 < k && 0 <= p < Pow4(k)
    ensures var q := Quarter(p, Pow4(k - 1));
            0 <= q < 4 && 0 <= p - Copies(q, Pow4(k - 1)) < Pow4(k - 1)
  {
  }

  lemma QuarterUnique(q: int, f: int, r: int)
    requires 0 <= q < 4 && 0 <= r < f
    ensures Quarter(Copies(q, f) + r, f) == q
    ensures 0 <= Copies(q, f) + r < 4 * f
  {
  }

  // ----- The curve is continuous and self-similar -----

  predicate EdgeAdjacent(a: Tile, b: Tile) {
    (a.x == b.x && (a.y == b.y + 1 || b.y == a.y + 1)) ||
    (a.y == b.y && (a.x == b.x + 1 || b.x == a.x + 1))
  }

  lemma {:induction false} CurveEnds(k: nat)
    ensures TileAt(k, 0) == Tile(0, 0)
    ensures TileAt(k, Pow4(k) - 1) == Tile(Pow2(k) - 1, 0)
  {
    hide *;
    OrderZero();
    Powers(0);
    if k > 0 {
      CurveEnds(k - 1);
      LastPosition(k);
      TileAtUnfold(k, 0, 0);
      TileAtUnfold(k, 3, Pow4(k - 1) - 1);
      CornersPlaced(Pow2(k - 1));
      Powers(k - 1);
    }
  }

  lemma LastPosition(k: nat)
    requires 0 < k
    ensures Copies(0, Pow4(k - 1)) == 0 && Copies(3, Pow4(k - 1)) + (Pow4(k - 1) - 1) == Pow4(k) - 1
    ensures 0 <= Pow4(k - 1) - 1
  {
  }

  lemma CornersPlaced(s: int)
    ensures Placed(s, Tile(0, 0), 0) == Tile(0, 0) && Placed(s, Tile(s - 1, 0), 3) == Tile(s * 2 - 1, 0)
  {
  }

  /** Consecutive positions are edge-adjacent tiles. */
  lemma {:induction false} ConsecutiveAreAdjacent(k: nat, p: int)
    requires 0 <= p && p + 1 < Pow4(k)
    ensures EdgeAdjacent(TileAt(k, p), TileAt(k, p + 1))
  {
    hide TileAt; hide Placed; hide EdgeAdjacent;
    var f, s := Pow4(k - 1), Pow2(k - 1);
    var q := Quarter(p, f);
    var r := p - Copies(q, f);
    TileAtUnfold(k, q, r);
    if r + 1 < f {
      TileAtUnfold(k, q, r + 1);
      ConsecutiveAreAdjacent(k - 1, r);
      PlacedAdjacent(s, TileAt(k - 1, r), TileAt(k - 1, r + 1), q);
    } else {
      TileAtUnfold(k, q + 1, 0);
      CurveEnds(k - 1);
      QuadrantsMeet(s, q);
    }
  }

  /** The curve leaves a quadrant next to where it enters the following one. */
  lemma QuadrantsMeet(s: int, q: int)
    requires 0 <= q < 3
    ensures EdgeAdjacent(Placed(s, Tile(s - 1, 0), q), Placed(s, Tile(0, 0), q + 1))
  {
  }

  lemma PlacedAdjacent(s: int, a: Tile, b: Tile, q: int)
    requires EdgeAdjacent(a, b) && 0 <= q < 4
    ensures EdgeAdjacent(Placed(s, a, q), Placed(s, b, q))
  {
  }

  /** The parent of the tile at position p is at position p/4 one level up. */
  lemma {:induction false} ParentAtQuarter(k: nat, p: int)
    requires 0 <= p < Pow4(k + 1)
    ensures 0 <= p / 4 < Pow4(k)
    ensures TileAt(k, p / 4) == Parent(TileAt(k + 1, p))
  {
    hide TileAt;
    if k == 0 {
      ParentOfOrderOne(p);
    } else {
      var q := Quarter(p, Pow4(k));
      var r := p - Copies(q, Pow4(k));
      ParentAtQuarter(k - 1, r);
      ParentStep(k, q, r);
    }
  }

  lemma ParentOfOrderOne(p: int)
    requires 0 <= p < Pow4(1)
    ensures 0 <= p / 4 < Pow4(0)
    ensures TileAt(0, p / 4) == Parent(TileAt(1, p))
  {
    assert OnLevel(1, TileAt(1, p));
  }

  lemma ParentStep(k: nat, q: int, r: int)
    requires 0 < k && 0 <= q < 4 && 0 <= r < Pow4(k) && 0 <= r / 4 < Pow4(k - 1)
    requires TileAt(k - 1, r / 4) == Parent(TileAt(k, r))
    ensures var p := Copies(q, Pow4(k)) + r;
            0 <= p < Pow4(k + 1) && 0 <= p / 4 < Pow4(k) &&
            TileAt(k, p / 4) == Parent(TileAt(k + 1, p))
  {
    hide TileAt;
    hide Placed;
    TileAtUnfold(k + 1, q, r);
    TileAtUnfold(k, q, r / 4);
    QuarterOfSum(q, Pow4(k - 1), r);
    ParentOfPlaced(Pow2(k - 1), TileAt(k, r), q);
  }

  lemma QuarterOfSum(q: int, f: int, r: int)
    ensures (Copies(q, 4 * f) + r) / 4 == Copies(q, f) + r / 4
  {
  }

  function Parent(t: Tile): Tile {
    Tile(t.x / 2, t.y / 2)
  }

  lemma ParentOfPlaced(s: int, t: Tile, q: int)
    requires 0 <= q < 4
    ensures Parent(Placed(2 * s, t, q)) == Placed(s, Parent(t), q)
  {
    HalfOfMirror(s, t.x);
    HalfOfMirror(s, t.y);
  }

  lemma HalfOfMirror(s: int, x: int)
    ensures (2 * s - 1 - x) / 2 == s - 1 - x / 2
    ensures (x + 2 * s) / 2 == x / 2 + s
    ensures (2 * s - 1 - x + 2 * s) / 2 == s - 1 - x / 2 + s
  {
  }

  // ----- The imperative encoder and decoder -----

  /** rotate updates its two reference arguments. */
  method Rotate(n: int, x0: int, y0: int, rx: int, ry: int) returns (x: int, y: int)
    ensures Tile(x, y) == Rotated(n, Tile(x0, y0), rx, ry)
  {
    x, y := x0, y0;
    if ry == 0 {
      if rx == 1 {
        x := n - 1 - x;
        y := n - 1 - y;
      }
      var t := x;
      x := y;
      y := t;
    }
  }

  method TOnLevel(z: nat, pos: nat) returns (tile: ZXY)
    requires z <= 31 && pos < Pow4(z)
    ensures tile.z == z && Tile(tile.x, tile.y) == TileAt(z, pos)
  {
    hide Quarter, Copies, Rotated, OnLevel, TileAt, Pow2, Pow4;
    Powers(0);
    TileAtZero();
    var n := Pow2(z);
    var t: int := pos;
    var tx, ty := 0, 0;
    var s := 1;
    ghost var k: nat := 0;
    while s < n
      invariant k <= z && s == Pow2(k)
      invariant t == pos / Pow4(k)
      invariant 0 <= pos % Pow4(k) < Pow4(k)
      invariant Tile(tx, ty) == TileAt(k, pos % Pow4(k))
      decreases z - k
    {
      assert k < z by {
        if k >= z { Pow2Monotone(z, k); }
      }
      var rx := (t / 2) % 2;
      var ry := (t + rx) % 2;
      DecodeStep(k, pos);
      PlacedByBits(s, Tile(tx, ty), Quarter(pos % Pow4(k + 1), Pow4(k)));
      Powers(k);
      tx, ty := Rotate(s, tx, ty, rx, ry);
      tx := tx + s * rx;
      ty := ty + s * ry;
      t := t / 4;
      s := s * 2;
      k := k + 1;
    }
    assert k == z by {
      if k < z {
        Pow2Monotone(k + 1, z);
        Powers(k);
      }
    }
    DivModUnique(pos, Pow4(z), 0, pos);
    tile := ZXY(z, tx, ty);
  }

  lemma Powers(k: nat)
    ensures Pow2(0) == 1 && Pow4(0) == 1 && Pow2(k + 1) == Pow2(k) * 2
  {
  }

  lemma TileAtZero()
    ensures TileAt(0, 0) == Tile(0, 0)
  {
  }

  /** The decoder turns the quadrant and moves it by its bits. */
  lemma PlacedByBits(s: int, sub: Tile, q: int)
    ensures var rx, ry := QuadrantX(q), QuadrantY(q);
            var r := Rotated(s, sub, rx, ry);
            Placed(s, sub, q) == Tile(r.x + s * rx, r.y + s * ry)
  {
    CopiesIsProduct(QuadrantX(q), s);
    CopiesIsProduct(QuadrantY(q), s);
  }

  /** The quadrant of level k + 1 that the decoder has reached, and the tile in it. */
  lemma DecodeStep(k: nat, pos: nat)
    ensures (pos / Pow4(k)) / 4 == pos / Pow4(k + 1)
    ensures 0 <= pos % Pow4(k + 1) < Pow4(k + 1)
    ensures var q, t := Quarter(pos % Pow4(k + 1), Pow4(k)), pos / Pow4(k);
            (t / 2) % 2 == QuadrantX(q) && (t + QuadrantX(q)) % 2 == QuadrantY(q) &&
            0 <= pos % Pow4(k) < Pow4(k) &&
            TileAt(k + 1, pos % Pow4(k + 1)) == Placed(Pow2(k), TileAt(k, pos % Pow4(k)), q)
  {
    hide Placed, TileAt;
    var q := Quarter(pos % Pow4(k + 1), Pow4(k));
    DivDiv(pos, Pow4(k), 4);
    QuarterOfDivision(pos % Pow4(k + 1), Pow4(k));
    LowBits(pos / Pow4(k));
    assert pos % Pow4(k + 1) == Copies(q, Pow4(k)) + pos % Pow4(k);
    TileAtUnfold(k + 1, q, pos % Pow4(k));
  }

  /** t/2 AND 1, and (t XOR rx) AND 1, only look at t mod 4. */
  lemma LowBits(t: int)
    ensures (t / 2) % 2 == QuadrantX(t % 4)
    ensures (t + QuadrantX(t % 4)) % 2 == QuadrantY(t % 4)
  {
    var q, r := t / 4, t % 4;
    assert t == 4 * q + r;
    assert t / 2 == 2 * q + r / 2;
  }

  method ZxyToTileId(z: nat, x: nat, y: nat) returns (r: TileIdResult)
    ensures r == TileIdOf(z, x, y)
    ensures r.ZoomTooHigh? <==> z >= 32
    ensures r.Id? <==> z <= 31 && x < Pow2(z) && y < Pow2(z)
  {
    hide Rotated;
    hide Position;
    hide Quadrant;
    hide Low;
    if z > MAX_ZOOM {
      return ZoomTooHigh;
    }
    if x > Pow2(z) - 1 || y > Pow2(z) - 1 {
      return OutsideZoomBounds;
    }
    var acc := 0;
    for tz := 0 to z
      invariant acc == LevelStart(tz)
    {
      Pow4IsSquare(tz);
      acc := acc + Pow2(tz) * Pow2(tz);
    }
    var n := Pow2(z);
    var d: int := 0;
    HalfStep(z);
    var tx: int, ty: int := x, y;
    var s := n / 2;
    ghost var k: nat := z;
    WithinIsItself(z, Tile(x, y));
    while s > 0
      invariant k <= z && s == Half(k)
      invariant d + Position(k, Low(k, Tile(tx, ty))) == Position(z, Tile(x, y))
      decreases k
    {
      HalfStep(k);
      EncodeStep(k, Tile(tx, ty));
      var rx := (tx / s) % 2;
      var ry := (ty / s) % 2;
      d := d + s * s * Quadrant(rx, ry);
      tx, ty := Rotate(s, tx, ty, rx, ry);
      s := s / 2;
      k := k - 1;
    }
    assert k == 0;
    r := Id(acc + d);
  }

  /** Half of 2^k, rounded down. */
  function Half(k: nat): nat {
    if k == 0 then 0 else Pow2(k - 1)
  }

  lemma HalfStep(k: nat)
    ensures Half(k) == Pow2(k) / 2
    ensures 0 < k ==> Half(k) == Pow2(k - 1) && Half(k) / 2 == Half(k - 1)
  {
  }

  /** The low k bits of both coordinates. */
  function Low(k: nat, t: Tile): (r: Tile)
    ensures OnLevel(k, r)
  {
    Tile(t.x % Pow2(k), t.y % Pow2(k))
  }

  lemma WithinIsItself(k: nat, t: Tile)
    requires OnLevel(k, t)
    ensures Low(k, t) == t
  {
    DivModUnique(t.x, Pow2(k), 0, t.x);
    DivModUnique(t.y, Pow2(k), 0, t.y);
  }

  /** One turn of the encoder, on coordinates of which only the low k bits are
      meaningful. */
  lemma EncodeStep(k: nat, t: Tile)
    requires 0 < k
    ensures var s := Pow2(k - 1);
            var rx, ry := (t.x / s) % 2, (t.y / s) % 2;
            Position(k, Low(k, t)) == s * s * Quadrant(rx, ry) + Position(k - 1, Low(k - 1, Rotated(s, t, rx, ry)))
  {
    hide Pow2;
    hide Pow4;
    PowUnfold(k);
    var s := Pow2(k - 1);
    var rx, ry := (t.x / s) % 2, (t.y / s) % 2;
    LowSplit(s, t.x);
    LowSplit(s, t.y);
    MirrorLow(s, t.x);
    MirrorLow(s, t.y);
    var low := Low(k, t);
    assert Low(k - 1, Rotated(s, t, rx, ry)) == Inside(s, low);
    Pow4IsSquare(k - 1);
    CopiesIsProduct(Quadrant(rx, ry), Pow4(k - 1));
  }

  lemma PowUnfold(k: nat)
    requires 0 < k
    ensures Pow2(k) == 2 * Pow2(k - 1) && Pow4(k) == 4 * Pow4(k - 1)
  {
  }

  /** The bit at s, and what lies below it. */
  lemma LowSplit(s: int, x: int)
    requires 0 < s
    ensures var b := (x / s) % 2;
            (b == 0 || b == 1) && 0 <= x % s < s && x % (2 * s) == Copies(b, s) + x % s
  {
    DivDiv(x, s, 2);
    assert s * 2 == 2 * s;
    var low := x % (2 * s);
    DivModFacts(low, s);
    CopiesIsProduct((x / s) % 2, s);
  }

  lemma MirrorLow(s: int, x: int)
    requires 0 < s
    ensures (s - 1 - x) % s == s - 1 - x % s
  {
    DivModFacts(x, s);
    assert s * (-(x / s)) == -(s * (x / s));
    DivModUnique(s - 1 - x, s, -(x / s), s - 1 - x % s);
  }

  // ----- Tile ids -----

  /** Number of tiles on the levels below z. */
  ghost function LevelStart(z: nat): nat {
    if z == 0 then 0 else LevelStart(z - 1) + Pow4(z - 1)
  }

  lemma {:induction false} LevelStartClosedForm(z: nat)
    ensures 3 * LevelStart(z) == Pow4(z) - 1
  {
    if z > 0 {
      LevelStartClosedForm(z - 1);
    }
  }

  ghost function TileIdOf(z: nat, x: nat, y: nat): TileIdResult {
    if z > MAX_ZOOM then ZoomTooHigh
    else if x >= Pow2(z) || y >= Pow2(z) then OutsideZoomBounds
    else Id(LevelStart(z) + Position(z, Tile(x, y)))
  }

  method TileIdToZxy(id: nat) returns (r: ZXYResult)
    ensures r.IdTooHigh? <==> id >= 0x5555_5555_5555_5555
    ensures r.Decoded? ==>
      var t := r.tile;
      t.z <= 31 && LevelStart(t.z) <= id < LevelStart(t.z + 1) &&
      Tile(t.x, t.y) == TileAt(t.z, id - LevelStart(t.z))
  {
    hide TileAt, Pow2, Pow4, OnLevel, LevelStart;
    var acc := 0;
    var tz := 0;
    LevelStep(0);
    EndOfLevels();
    while tz < 32
      invariant tz <= 32 && acc == LevelStart(tz) && acc <= id
    {
      LevelStep(tz);
      var numTiles := Pow2(tz) * Pow2(tz);
      if acc + numTiles > id {
        var t := TOnLevel(tz, id - acc);
        LevelStartMonotone(tz + 1, 32);
        return Decoded(t);
      }
      acc := acc + numTiles;
      tz := tz + 1;
    }
    r := IdTooHigh;
  }

  /** The levels up to 31 have (4^32 - 1) / 3 ids. */
  lemma EndOfLevels()
    ensures LevelStart(32) == 0x5555_5555_5555_5555 && 3 * 0x5555_5555_5555_5555 == Pow4(32) - 1
  {
    Pow4Of31();
    LevelStartClosedForm(32);
  }

  lemma LevelSix()
    ensures LevelStart(6) == 1365
  {
    assert Pow4(6) == 4096;
    LevelStartClosedForm(6);
  }

  /** Which tiles have ids, and what happens to the others. */
  lemma TilesWithIds(z: nat, x: nat, y: nat)
    ensures TileIdOf(z, x, y).Id? <==> z <= 31 && x < Pow2(z) && y < Pow2(z)
    ensures TileIdOf(z, x, y).ZoomTooHigh? <==> z >= 32
    ensures TileIdOf(z, x, y).OutsideZoomBounds? <==> z <= 31 && (x >= Pow2(z) || y >= Pow2(z))
    ensures TileIdOf(z, x, y).Id? ==> TileIdOf(z, x, y).id < 0x5555_5555_5555_5555
  {
    hide Pow2, Position, LevelStart;
    if TileIdOf(z, x, y).Id? {
      IdOnLevel(z, x, y);
      LevelStartMonotone(z + 1, 32);
      EndOfLevels();
    }
  }

  lemma LevelStep(z: nat)
    ensures LevelStart(0) == 0 && LevelStart(z + 1) == LevelStart(z) + Pow4(z)
    ensures Pow4(z) == Pow2(z) * Pow2(z)
  {
    Pow4IsSquare(z);
  }

  lemma {:induction false} LevelStartMonotone(a: nat, b: nat)
    requires a <= b
    ensures LevelStart(a) <= LevelStart(b)
  {
    if a < b {
      LevelStartMonotone(a, b - 1);
    }
  }

  /** The ids of a level fill one interval of length 4^z starting at (4^z-1)/3, and
      every id below the top of zoom 31 fits in 63 bits. */
  lemma LevelInterval(z: nat, x: nat, y: nat)
    requires z <= 31 && OnLevel(z, Tile(x, y))
    ensures TileIdOf(z, x, y).Id?
    ensures (Pow4(z) - 1) / 3 <= TileIdOf(z, x, y).id < (Pow4(z) - 1) / 3 + Pow4(z)
    ensures TileIdOf(z, x, y).id < 0x8000_0000_0000_0000
  {
    LevelStartClosedForm(z);
    Pow4Monotone(z, 31);
    Pow4Of31();
  }

  lemma Pow4Of31()
    ensures Pow4(31) == 0x4000_0000_0000_0000
  {
    assert Pow4(8) == 0x1_0000;
    assert Pow4(16) == 0x1_0000_0000;
    assert Pow4(24) == 0x1_0000_0000_0000;
  }

  /** Decoding an encoded tile gives the tile back: any level whose interval holds
      the id is the tile's own. */
  lemma DecodeOfEncode(z: nat, x: nat, y: nat, z': nat)
    requires z <= 31 && OnLevel(z, Tile(x, y))
    requires LevelStart(z') <= TileIdOf(z, x, y).id < LevelStart(z' + 1)
    ensures z' == z && TileAt(z', TileIdOf(z, x, y).id - LevelStart(z')) == Tile(x, y)
  {
    hide Position;
    hide TileAt;
    hide Pow2;
    hide Pow4;
    if z' < z {
      LevelStartMonotone(z' + 1, z);
    } else if z < z' {
      LevelStartMonotone(z + 1, z');
    }
    TileAtPosition(z, Tile(x, y));
  }

  /** Encoding a decoded id gives the id back. */
  lemma EncodeOfDecode(id: nat, z: nat)
    requires z <= 31 && LevelStart(z) <= id < LevelStart(z + 1)
    ensures var t := TileAt(z, id - LevelStart(z));
            TileIdOf(z, t.x, t.y) == Id(id)
  {
    PositionOfTileAt(z, id - LevelStart(z));
  }

  /** The two methods undo each other, in both orders. */
  method RoundTripTile(z: nat, x: nat, y: nat) returns (r: ZXYResult)
    requires z <= 31 && OnLevel(z, Tile(x, y))
    ensures r == Decoded(ZXY(z, x, y))
  {
    hide *;
    var e := ZxyToTileId(z, x, y);
    IdOnLevel(z, x, y);
    LevelStartMonotone(z + 1, 32);
    TilesWithIds(z, x, y);
    r := TileIdToZxy(e.id);
    DecodeOfEncode(z, x, y, r.tile.z);
  }

  method RoundTripId(id: nat) returns (r: TileIdResult)
    requires id < 0x5555_5555_5555_5555
    ensures r == Id(id)
  {
    hide *;
    var t := TileIdToZxy(id);
    EncodeOfDecode(id, t.tile.z);
    DecodedIsOnLevel(id, t.tile.z);
    r := ZxyToTileId(t.tile.z, t.tile.x, t.tile.y);
  }

  lemma DecodedIsOnLevel(id: nat, z: nat)
    requires LevelStart(z) <= id < LevelStart(z + 1)
    ensures OnLevel(z, TileAt(z, id - LevelStart(z)))
    ensures 0 <= TileAt(z, id - LevelStart(z)).x && 0 <= TileAt(z, id - LevelStart(z)).y
  {
  }

  /** Different tiles have different ids. */
  lemma TileIdsAreDistinct(z: nat, x: nat, y: nat, z': nat, x': nat, y': nat)
    requires z <= 31 && OnLevel(z, Tile(x, y))
    requires z' <= 31 && OnLevel(z', Tile(x', y'))
    requires TileIdOf(z, x, y) == TileIdOf(z', x', y')
    ensures z == z' && x == x' && y == y'
  {
    hide *;
    IdOnLevel(z', x', y');
    DecodeOfEncode(z, x, y, z');
    DecodeOfEncode(z', x', y', z');
  }

  lemma IdOnLevel(z: nat, x: nat, y: nat)
    requires z <= 31 && OnLevel(z, Tile(x, y))
    ensures TileIdOf(z, x, y).Id? && LevelStart(z) <= TileIdOf(z, x, y).id < LevelStart(z + 1)
  {
  }
}
