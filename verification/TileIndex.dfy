/** The index of small objects by tile: one list for each of the 4,096 tiles of zoom 6,
    sorted so that the objects of any tile below stand together. */
module TileIndex {
  import opened Arithmetic
  import opened TileOrder

  const CLUSTER_ZOOM: nat := 6
  const CLUSTER_ZOOM_WIDTH: nat := 64
  const CLUSTER_ZOOM_AREA: nat := 4096

  /** An object as it is kept in a cell's list. */
  datatype Stored<T> = Stored(oo: T, minZoom: nat, at: Offset)

  /** An object and its tile at the index zoom. */
  datatype Placed<T> = Placed(x: nat, y: nat, oo: T, minZoom: nat)

  /** The constructor refuses higher index zooms. */
  type zoomLevel = z: nat | z <= 14

  /** Zooms between a cell and the index. Below zoom 6, each index tile is a cell. */
  function Depth(indexZoom: zoomLevel): nat {
    if indexZoom >= CLUSTER_ZOOM then indexZoom - CLUSTER_ZOOM else 0
  }

  function Divisor(indexZoom: zoomLevel): (d: nat)
    ensures 0 < d
  {
    Pow2(Depth(indexZoom))
  }

  lemma QuotientNonNegative(a: nat, s: nat)
    requires 0 < s
    ensures 0 <= a / s
  {
    DivModFacts(a, s);
    var q := a / s;
    if q < 0 {
      MulMonotone(s, q, -1);
      assert false;
    }
  }

  /** Coordinate of the tile that contains t, some zooms above. */
  function Ancestor(t: nat, zooms: nat): nat {
    QuotientNonNegative(t, Pow2(zooms));
    t / Pow2(zooms)
  }

  lemma AncestorIs(t: nat, zooms: nat)
    ensures Ancestor(t, zooms) == t / Pow2(zooms)
  {
  }

  function CellX<T>(indexZoom: zoomLevel, p: Placed<T>): nat {
    QuotientNonNegative(p.x, Divisor(indexZoom));
    p.x / Divisor(indexZoom)
  }

  function CellY<T>(indexZoom: zoomLevel, p: Placed<T>): nat {
    QuotientNonNegative(p.y, Divisor(indexZoom));
    p.y / Divisor(indexZoom)
  }

  predicate Valid6(x: nat, y: nat) {
    x < CLUSTER_ZOOM_WIDTH && y < CLUSTER_ZOOM_WIDTH
  }

  function Cell(x: nat, y: nat): (c: nat)
    requires Valid6(x, y)
    ensures c < CLUSTER_ZOOM_AREA
  {
    x * CLUSTER_ZOOM_WIDTH + y
  }

  predicate InWorld<T>(indexZoom: zoomLevel, p: Placed<T>) {
    Valid6(CellX(indexZoom, p), CellY(indexZoom, p))
  }

  function InCell<T>(indexZoom: zoomLevel, p: Placed<T>): Stored<T> {
    CellStart(p.x, Divisor(indexZoom));
    CellStart(p.y, Divisor(indexZoom));
    Stored(p.oo, p.minZoom,
           Offset(p.x - CellX(indexZoom, p) * Divisor(indexZoom), p.y - CellY(indexZoom, p) * Divisor(indexZoom)))
  }

  lemma CellStart(x: nat, d: nat)
    requires 0 < d
    ensures x / d * d <= x
  {
    DivModFacts(x, d);
  }

  /** The offsets fit in the eight bits kept for them. */
  lemma OffsetsFit<T>(indexZoom: zoomLevel, p: Placed<T>)
    ensures var at := InCell(indexZoom, p).at; at.x < Divisor(indexZoom) <= 256 && at.y < Divisor(indexZoom)
    ensures p.x == CellX(indexZoom, p) * Divisor(indexZoom) + InCell(indexZoom, p).at.x
    ensures p.y == CellY(indexZoom, p) * Divisor(indexZoom) + InCell(indexZoom, p).at.y
  {
    DivModFacts(p.x, Divisor(indexZoom));
    DivModFacts(p.y, Divisor(indexZoom));
    Pow2Monotone(Depth(indexZoom), 8);
    assert Pow2(8) == 256;
  }

  /** A cell is a tile of zoom 6, of which the index tile is a part, or an index tile of a
      lower zoom. */
  lemma CellsAreTiles<T>(indexZoom: zoomLevel, p: Placed<T>)
    ensures indexZoom >= 6 ==> CellX(indexZoom, p) == p.x / Pow2(indexZoom - 6) && CellY(indexZoom, p) == p.y / Pow2(indexZoom - 6)
    ensures indexZoom < 6 ==> CellX(indexZoom, p) == p.x && CellY(indexZoom, p) == p.y
    ensures InWorld(indexZoom, p) <==> CellX(indexZoom, p) < 64 && CellY(indexZoom, p) < 64
  {
  }

  /** The objects of the world are those of the index zoom's tiles. */
  lemma WorldIs<T>(indexZoom: zoomLevel, p: Placed<T>)
    ensures indexZoom >= 6 ==> (InWorld(indexZoom, p) <==> p.x < Pow2(indexZoom) && p.y < Pow2(indexZoom))
    ensures indexZoom < 6 ==> (InWorld(indexZoom, p) <==> p.x < 64 && p.y < 64)
  {
    CellsAreTiles(indexZoom, p);
    if indexZoom >= 6 {
      var d := Pow2(indexZoom - 6);
      Pow2Sum(6, indexZoom - 6);
      assert Pow2(6) == 64;
      QuotientBelow(p.x, d, 64);
      QuotientBelow(p.y, d, 64);
    }
  }

  lemma QuotientBelow(a: nat, d: nat, n: nat)
    requires 0 < d
    ensures a / d < n <==> a < n * d
  {
    DivModFacts(a, d);
    var q := a / d;
    if q < n {
      MulMonotone(d, q + 1, n);
    } else {
      MulMonotone(d, n, q);
    }
  }

  lemma CellsAreNumbered(x: nat, y: nat, x': nat, y': nat)
    requires x < 64 && y < 64 && x' < 64 && y' < 64
    ensures Valid6(x, y) && Valid6(x', y') && Cell(x, y) < 4096 && (Cell(x, y) == Cell(x', y') <==> x == x' && y == y')
  {
  }

  // ----- What is in the index and what a query is to return -----

  /** The objects of one cell, in the order they came. */
  ghost function Content<T>(indexZoom: zoomLevel, ps: seq<Placed<T>>, c: nat): seq<Stored<T>> {
    if ps == [] then []
    else
      var p := ps[|ps| - 1];
      Content(indexZoom, ps[..|ps| - 1], c)
      + if InWorld(indexZoom, p) && Cell(CellX(indexZoom, p), CellY(indexZoom, p)) == c then [InCell(indexZoom, p)] else []
  }

  /** A zoom above the index zoom is answered by the index tile that contains it. */
  function Clamp(indexZoom: zoomLevel, zoom: nat): (c: nat)
    ensures c <= indexZoom && c <= zoom
  {
    if zoom > indexZoom then indexZoom else zoom
  }

  /** The object is in this tile, and shown at this zoom. */
  predicate Wants<T>(indexZoom: zoomLevel, zoom: nat, x: nat, y: nat, p: Placed<T>) {
    var c := Clamp(indexZoom, zoom);
    && InWorld(indexZoom, p)
    && p.x / Pow2(indexZoom - c) == x / Pow2(zoom - c)
    && p.y / Pow2(indexZoom - c) == y / Pow2(zoom - c)
    && p.minZoom <= zoom
  }

  /** At a zoom up to the index zoom the object's tile is the one that contains its index
      tile; past it, the tile's ancestor at the index zoom is the object's index tile. */
  lemma WantsIs<T>(indexZoom: zoomLevel, zoom: nat, x: nat, y: nat, p: Placed<T>)
    ensures zoom <= indexZoom ==>
      (Wants(indexZoom, zoom, x, y, p) <==>
       InWorld(indexZoom, p) && p.minZoom <= zoom && p.x / Pow2(indexZoom - zoom) == x && p.y / Pow2(indexZoom - zoom) == y)
    ensures zoom > indexZoom ==>
      (Wants(indexZoom, zoom, x, y, p) <==>
       InWorld(indexZoom, p) && p.minZoom <= zoom && p.x == x / Pow2(zoom - indexZoom) && p.y == y / Pow2(zoom - indexZoom))
  {
    assert Pow2(0) == 1;
  }

  /** The full scan. */
  ghost function Wanted<T>(indexZoom: zoomLevel, zoom: nat, x: nat, y: nat, ps: seq<Placed<T>>): seq<T> {
    if ps == [] then []
    else
      var p := ps[|ps| - 1];
      Wanted(indexZoom, zoom, x, y, ps[..|ps| - 1]) + if Wants(indexZoom, zoom, x, y, p) then [p.oo] else []
  }

  function Picked<T>(s: seq<Stored<T>>, f: Stored<T> -> bool): seq<T> {
    if s == [] then []
    else Picked(s[..|s| - 1], f) + if f(s[|s| - 1]) then [s[|s| - 1].oo] else []
  }

  lemma {:induction false} PickedConcat<T>(a: seq<Stored<T>>, b: seq<Stored<T>>, f: Stored<T> -> bool)
    ensures Picked(a + b, f) == Picked(a, f) + Picked(b, f)
  {
    if b == [] {
      assert a + b == a;
    } else {
      PickedConcat(a, b[..|b| - 1], f);
      assert (a + b)[..|a + b| - 1] == a + b[..|b| - 1];
    }
  }

  /** What is picked does not depend on the order, but for its own. */
  lemma {:induction false} PickedPermutes<T>(a: seq<Stored<T>>, b: seq<Stored<T>>, f: Stored<T> -> bool)
    requires multiset(a) == multiset(b)
    ensures multiset(Picked(a, f)) == multiset(Picked(b, f))
    decreases |a|
  {
    if a == [] {
      SameSize(a, b);
    } else {
      var n := |a| - 1;
      var e := a[n];
      assert e in multiset(a);
      var j :| 0 <= j < |b| && b[j] == e;
      RemoveOne(a, n);
      RemoveOne(b, j);
      assert a[..n] + a[n + 1..] == a[..n];
      PickedPermutes(a[..n], b[..j] + b[j + 1..], f);
      PickedWithout(a, n, f);
      PickedWithout(b, j, f);
    }
  }

  lemma PickedWithout<T>(s: seq<Stored<T>>, j: nat, f: Stored<T> -> bool)
    requires j < |s|
    ensures multiset(Picked(s, f)) == multiset(Picked(s[..j] + s[j + 1..], f)) + if f(s[j]) then multiset{s[j].oo} else multiset{}
  {
    hide *;
    var a, e, b := s[..j], [s[j]], s[j + 1..];
    assert s == (a + e) + b;
    PickedConcat(a + e, b, f);
    PickedConcat(a, e, f);
    PickedConcat(a, b, f);
    PickedOne(s[j], f);
  }

  lemma RemoveOne<T>(s: seq<T>, j: nat)
    requires j < |s|
    ensures multiset(s[..j] + s[j + 1..]) == multiset(s) - multiset{s[j]}
  {
    assert s == s[..j] + [s[j]] + s[j + 1..];
    assert multiset(s) == multiset(s[..j]) + multiset{s[j]} + multiset(s[j + 1..]);
  }

  lemma SameSize<T>(a: seq<T>, b: seq<T>)
    requires multiset(a) == multiset(b)
    ensures |a| == |b|
  {
    assert |multiset(a)| == |a| && |multiset(b)| == |b|;
  }

  lemma {:induction false} PickedSame<T>(s: seq<Stored<T>>, f: Stored<T> -> bool, g: Stored<T> -> bool)
    requires forall k :: 0 <= k < |s| ==> f(s[k]) == g(s[k])
    ensures Picked(s, f) == Picked(s, g)
  {
    if s != [] {
      PickedSame(s[..|s| - 1], f, g);
    }
  }

  lemma {:induction false} PickedNone<T>(s: seq<Stored<T>>, f: Stored<T> -> bool)
    requires forall k :: 0 <= k < |s| ==> !f(s[k])
    ensures Picked(s, f) == []
  {
    if s != [] {
      PickedNone(s[..|s| - 1], f);
    }
  }

  // ----- Arithmetic of cells and tiles -----

  /** In one dimension: a position is in tile t, c zooms above the index zoom, if its
      cell is the tile's and its offset in the cell is in the tile. */
  lemma TileInCell(w: nat, d: nat, p: nat, t: nat)
    requires d <= w
    ensures p / Pow2(d) == t <==> p / Pow2(w) == t / Pow2(w - d) && (p % Pow2(w)) / Pow2(d) == t % Pow2(w - d)
  {
    var s, u := Pow2(d), Pow2(w - d);
    Pow2Sum(d, w - d);
    DivDiv(p, s, u);
    DivModFacts(t, u);
    DivModFacts(p / s, u);
    if (p / s) / u == t / u && (p / s) % u == t % u {
      assert p / s == t;
    }
  }

  /** The sum in the scan, taken apart. */
  lemma ScanSum(w: nat, d: nat, cell: nat, at: nat, t: nat)
    requires d <= w && at < Pow2(w)
    ensures (cell * Pow2(w) + at) / Pow2(d) == t <==> cell == t / Pow2(w - d) && at / Pow2(d) == t % Pow2(w - d)
  {
    var p := cell * Pow2(w) + at;
    assert p == Pow2(w) * cell + at;
    DivModUnique(p, Pow2(w), cell, at);
    TileInCell(w, d, p, t);
  }

  /** The corner that the scan looks for is the corner of the tile. */
  lemma NeedleIsCorner(w: nat, d: nat, t: nat)
    requires d <= w
    ensures t * Pow2(d) - t / Pow2(w - d) * Pow2(w) == (t % Pow2(w - d)) * Pow2(d)
    ensures (t % Pow2(w - d)) * Pow2(d) < Pow2(w)
    ensures ((t % Pow2(w - d)) * Pow2(d)) / Pow2(d) == t % Pow2(w - d)
  {
    var s, u := Pow2(d), Pow2(w - d);
    Pow2Sum(d, w - d);
    DivModFacts(t, u);
    Needle(s, u, t / u, t % u, t);
  }

  lemma Needle(s: nat, u: nat, q: int, r: int, t: nat)
    requires 0 < s && 0 < u && 0 <= r < u && t == u * q + r
    ensures t * s - q * (s * u) == r * s < s * u && r * s / s == r
  {
    assert t * s == u * q * s + r * s;
    assert u * q * s == q * (s * u);
    MulMonotone(s, r + 1, u);
    assert s * (r + 1) == r * s + s;
    DivModUnique(r * s, s, r, 0);
  }

  // ----- A scan of one cell, or of all, is the full scan -----

  /** The test the scans make of an object of cell (cx, cy): its tile d zooms above the
      index zoom, and its minimum zoom. */
  function Matches<T>(indexZoom: zoomLevel, cx: nat, cy: nat, d: nat, x: nat, y: nat, zoom: nat): Stored<T> -> bool {
    (e: Stored<T>) =>
      (cx * Divisor(indexZoom) + e.at.x) / Pow2(d) == x && (cy * Divisor(indexZoom) + e.at.y) / Pow2(d) == y && e.minZoom <= zoom
  }

  lemma MatchesInCell<T>(indexZoom: zoomLevel, zoom: nat, x: nat, y: nat, p: Placed<T>, f: Stored<T> -> bool)
    requires InWorld(indexZoom, p)
    requires var c := Clamp(indexZoom, zoom);
             f == Matches(indexZoom, CellX(indexZoom, p), CellY(indexZoom, p), indexZoom - c, Ancestor(x, zoom - c), Ancestor(y, zoom - c), zoom)
    ensures f(InCell(indexZoom, p)) == Wants(indexZoom, zoom, x, y, p)
  {
    hide Pow2;
    OffsetsFit(indexZoom, p);
  }

  lemma CellIsOne(x: nat, y: nat, x': nat, y': nat)
    requires Valid6(x, y) && Valid6(x', y')
    ensures Cell(x, y) == Cell(x', y') <==> x == x' && y == y'
    ensures Cell(x, y) / 64 == x && Cell(x, y) % 64 == y && Cell(x, y) < 4096
  {
  }

  /** A tile at zoom 6 or below is in one cell. */
  lemma WantedInCell<T>(indexZoom: zoomLevel, zoom: nat, x: nat, y: nat, p: Placed<T>)
    requires zoom >= 6 && indexZoom >= 6 && Wants(indexZoom, zoom, x, y, p)
    ensures CellX(indexZoom, p) == x / Pow2(zoom - 6) && CellY(indexZoom, p) == y / Pow2(zoom - 6)
  {
    var c := Clamp(indexZoom, zoom);
    OneDimension(indexZoom - 6, indexZoom - c, zoom - c, p.x, x);
    OneDimension(indexZoom - 6, indexZoom - c, zoom - c, p.y, y);
  }

  lemma OneDimension(w: nat, d: nat, above: nat, p: nat, t: nat)
    requires d <= w && p / Pow2(d) == t / Pow2(above)
    ensures p / Pow2(w) == t / Pow2(above + (w - d))
  {
    DivideMore(p, d, w);
    DivideMore(t, above, above + (w - d));
  }

  lemma {:induction false} CellScan<T>(indexZoom: zoomLevel, zoom: nat, x: nat, y: nat, ps: seq<Placed<T>>, cx: nat, cy: nat, f: Stored<T> -> bool)
    requires zoom >= 6 && indexZoom >= 6 && Valid6(cx, cy) && cx == x / Pow2(zoom - 6) && cy == y / Pow2(zoom - 6)
    requires var c := Clamp(indexZoom, zoom);
             f == Matches(indexZoom, cx, cy, indexZoom - c, Ancestor(x, zoom - c), Ancestor(y, zoom - c), zoom)
    ensures Picked(Content(indexZoom, ps, Cell(cx, cy)), f) == Wanted(indexZoom, zoom, x, y, ps)
  {
    hide *;
    CellIsOne(cx, cy, cx, cy);
    ContentUnfold(indexZoom, ps, Cell(cx, cy));
    WantedUnfold(indexZoom, zoom, x, y, ps);
    if ps != [] {
      var n := |ps| - 1;
      var p := ps[n];
      CellScan(indexZoom, zoom, x, y, ps[..n], cx, cy, f);
      NumberIs(indexZoom, p, Cell(cx, cy));
      if Wants(indexZoom, zoom, x, y, p) {
        WantedInCell(indexZoom, zoom, x, y, p);
        WantedInWorld(indexZoom, zoom, x, y, p);
      }
      if CellNumber(indexZoom, p) == Cell(cx, cy) {
        WorldIsValid(indexZoom, p);
        CellIsOne(CellX(indexZoom, p), CellY(indexZoom, p), cx, cy);
        MatchesInCell(indexZoom, zoom, x, y, p, f);
        PickedConcat(Content(indexZoom, ps[..n], Cell(cx, cy)), [InCell(indexZoom, p)], f);
        PickedOne(InCell(indexZoom, p), f);
        SameObject(indexZoom, p);
      }
    } else {
      PickedNone([], f);
    }
  }

  lemma WantedUnfold<T>(indexZoom: zoomLevel, zoom: nat, x: nat, y: nat, ps: seq<Placed<T>>)
    ensures ps == [] ==> Wanted(indexZoom, zoom, x, y, ps) == []
    ensures ps != [] ==>
      var p := ps[|ps| - 1];
      var front := Wanted(indexZoom, zoom, x, y, ps[..|ps| - 1]);
      Wanted(indexZoom, zoom, x, y, ps) == if Wants(indexZoom, zoom, x, y, p) then front + [p.oo] else front
  {
    hide Wants;
  }

  lemma WorldIsValid<T>(indexZoom: zoomLevel, p: Placed<T>)
    ensures InWorld(indexZoom, p) <==> Valid6(CellX(indexZoom, p), CellY(indexZoom, p))
  {
  }

  lemma WantedInWorld<T>(indexZoom: zoomLevel, zoom: nat, x: nat, y: nat, p: Placed<T>)
    requires Wants(indexZoom, zoom, x, y, p)
    ensures InWorld(indexZoom, p)
  {
  }

  /** A tile outside of the world has no objects. */
  lemma {:induction false} NothingOutside<T>(indexZoom: zoomLevel, zoom: nat, x: nat, y: nat, ps: seq<Placed<T>>)
    requires zoom >= 6 && indexZoom >= 6 && (x / Pow2(zoom - 6) >= 64 || y / Pow2(zoom - 6) >= 64)
    ensures Wanted(indexZoom, zoom, x, y, ps) == []
  {
    hide Wants;
    hide Pow2;
    if ps != [] {
      var p := ps[|ps| - 1];
      NothingOutside(indexZoom, zoom, x, y, ps[..|ps| - 1]);
      if Wants(indexZoom, zoom, x, y, p) {
        WantedInCell(indexZoom, zoom, x, y, p);
        WantedInWorld(indexZoom, zoom, x, y, p);
      }
    }
  }

  /** The scan of the first n cells at a zoom below 6. */
  function ScanAll<T>(indexZoom: zoomLevel, lists: seq<seq<Stored<T>>>, zoom: nat, x: nat, y: nat, n: nat): seq<T>
    requires n <= |lists| && zoom <= indexZoom
  {
    if n == 0 then []
    else
      ScanAll(indexZoom, lists, zoom, x, y, n - 1)
      + Picked(lists[n - 1], Matches(indexZoom, (n - 1) / 64, (n - 1) % 64, indexZoom - zoom, x, y, zoom))
  }

  ghost function WantedBelow<T>(indexZoom: zoomLevel, zoom: nat, x: nat, y: nat, ps: seq<Placed<T>>, n: nat): seq<T> {
    if ps == [] then []
    else
      var p := ps[|ps| - 1];
      WantedBelow(indexZoom, zoom, x, y, ps[..|ps| - 1], n)
      + if Wants(indexZoom, zoom, x, y, p) && CellNumber(indexZoom, p) < n then [p.oo] else []
  }

  ghost function CellNumber<T>(indexZoom: zoomLevel, p: Placed<T>): (c: nat)
  {
    if InWorld(indexZoom, p) then Cell(CellX(indexZoom, p), CellY(indexZoom, p)) else CLUSTER_ZOOM_AREA
  }

  lemma {:induction false} OneMoreCell<T>(indexZoom: zoomLevel, zoom: nat, x: nat, y: nat, ps: seq<Placed<T>>, n: nat, f: Stored<T> -> bool)
    requires zoom < 6 && zoom <= indexZoom && n < 4096 && f == Matches(indexZoom, n / 64, n % 64, indexZoom - zoom, x, y, zoom)
    ensures multiset(WantedBelow(indexZoom, zoom, x, y, ps, n + 1)) ==
      multiset(WantedBelow(indexZoom, zoom, x, y, ps, n)) + multiset(Picked(Content(indexZoom, ps, n), f))
  {
    hide *;
    ContentUnfold(indexZoom, ps, n);
    BelowUnfold(indexZoom, zoom, x, y, ps, n);
    BelowUnfold(indexZoom, zoom, x, y, ps, n + 1);
    if ps != [] {
      var m := |ps| - 1;
      var p := ps[m];
      OneMoreCell(indexZoom, zoom, x, y, ps[..m], n, f);
      NumberIs(indexZoom, p, n);
      if CellNumber(indexZoom, p) == n {
        LowMatches(indexZoom, zoom, x, y, p, f);
        PickedConcat(Content(indexZoom, ps[..m], n), [InCell(indexZoom, p)], f);
        PickedOne(InCell(indexZoom, p), f);
        SameObject(indexZoom, p);
      }
    } else {
      PickedNone([], f);
    }
  }

  lemma ContentUnfold<T>(indexZoom: zoomLevel, ps: seq<Placed<T>>, n: nat)
    requires n < 4096
    ensures ps == [] ==> Content(indexZoom, ps, n) == []
    ensures ps != [] ==>
      var p := ps[|ps| - 1];
      var front := Content(indexZoom, ps[..|ps| - 1], n);
      Content(indexZoom, ps, n) == if CellNumber(indexZoom, p) == n then front + [InCell(indexZoom, p)] else front
  {
    if ps != [] {
      NumberIs(indexZoom, ps[|ps| - 1], n);
    }
  }

  lemma BelowUnfold<T>(indexZoom: zoomLevel, zoom: nat, x: nat, y: nat, ps: seq<Placed<T>>, n: nat)
    ensures ps == [] ==> WantedBelow(indexZoom, zoom, x, y, ps, n) == []
    ensures ps != [] ==>
      var p := ps[|ps| - 1];
      var front := WantedBelow(indexZoom, zoom, x, y, ps[..|ps| - 1], n);
      WantedBelow(indexZoom, zoom, x, y, ps, n) ==
        if Wants(indexZoom, zoom, x, y, p) && CellNumber(indexZoom, p) < n then front + [p.oo] else front
  {
    hide Wants;
    hide CellNumber;
  }

  lemma SameObject<T>(indexZoom: zoomLevel, p: Placed<T>)
    ensures InCell(indexZoom, p).oo == p.oo
  {
  }

  lemma PickedOne<T>(e: Stored<T>, f: Stored<T> -> bool)
    ensures Picked([e], f) == if f(e) then [e.oo] else []
    ensures forall s: seq<T> :: !f(e) ==> s + Picked([e], f) == s
  {
  }

  lemma NumberIs<T>(indexZoom: zoomLevel, p: Placed<T>, n: nat)
    requires n < 4096
    ensures CellNumber(indexZoom, p) == n <==> InWorld(indexZoom, p) && Cell(CellX(indexZoom, p), CellY(indexZoom, p)) == n
  {
  }

  lemma LowMatches<T>(indexZoom: zoomLevel, zoom: nat, x: nat, y: nat, p: Placed<T>, f: Stored<T> -> bool)
    requires zoom < 6 && zoom <= indexZoom && CellNumber(indexZoom, p) < 4096
    requires var n := CellNumber(indexZoom, p); f == Matches(indexZoom, n / 64, n % 64, indexZoom - zoom, x, y, zoom)
    ensures f(InCell(indexZoom, p)) == Wants(indexZoom, zoom, x, y, p)
  {
    OffsetsFit(indexZoom, p);
    CellIsOne(CellX(indexZoom, p), CellY(indexZoom, p), 0, 0);
    assert Pow2(0) == 1;
    hide Pow2;
  }

  ghost function Contents<T>(indexZoom: zoomLevel, ps: seq<Placed<T>>): (r: seq<seq<Stored<T>>>)
    ensures |r| == CLUSTER_ZOOM_AREA
  {
    seq(CLUSTER_ZOOM_AREA, c requires 0 <= c < CLUSTER_ZOOM_AREA => Content(indexZoom, ps, c))
  }

  lemma {:induction false} AllCells<T>(indexZoom: zoomLevel, zoom: nat, x: nat, y: nat, ps: seq<Placed<T>>, n: nat)
    requires zoom < 6 && zoom <= indexZoom && n <= 4096
    ensures multiset(ScanAll(indexZoom, Contents(indexZoom, ps), zoom, x, y, n)) == multiset(WantedBelow(indexZoom, zoom, x, y, ps, n))
  {
    hide Content;
    hide Matches;
    hide Picked;
    if n == 0 {
      NoneBelow(indexZoom, zoom, x, y, ps);
    } else {
      AllCells(indexZoom, zoom, x, y, ps, n - 1);
      OneMoreCell(indexZoom, zoom, x, y, ps, n - 1, Matches(indexZoom, (n - 1) / 64, (n - 1) % 64, indexZoom - zoom, x, y, zoom));
    }
  }

  lemma {:induction false} NoneBelow<T>(indexZoom: zoomLevel, zoom: nat, x: nat, y: nat, ps: seq<Placed<T>>)
    ensures WantedBelow(indexZoom, zoom, x, y, ps, 0) == []
  {
    hide Wants;
    if ps != [] {
      NoneBelow(indexZoom, zoom, x, y, ps[..|ps| - 1]);
    }
  }

  lemma {:induction false} AllBelow<T>(indexZoom: zoomLevel, zoom: nat, x: nat, y: nat, ps: seq<Placed<T>>)
    ensures WantedBelow(indexZoom, zoom, x, y, ps, CLUSTER_ZOOM_AREA) == Wanted(indexZoom, zoom, x, y, ps)
  {
    hide Wants;
    if ps != [] {
      var p := ps[|ps| - 1];
      AllBelow(indexZoom, zoom, x, y, ps[..|ps| - 1]);
      if Wants(indexZoom, zoom, x, y, p) {
        WantedInWorld(indexZoom, zoom, x, y, p);
      }
    }
  }

  /** The copies kept for low zooms. */
  function LowOnly<T>(s: seq<Stored<T>>): seq<Stored<T>> {
    if s == [] then [] else LowOnly(s[..|s| - 1]) + if s[|s| - 1].minZoom < CLUSTER_ZOOM then [s[|s| - 1]] else []
  }

  /** They are those of the objects that are shown below zoom 6. */
  lemma {:induction false} LowOnlyIs<T>(s: seq<Stored<T>>, e: Stored<T>)
    ensures multiset(LowOnly(s))[e] == if e.minZoom < 6 then multiset(s)[e] else 0
  {
    if s != [] {
      var n := |s| - 1;
      LowOnlyIs(s[..n], e);
      assert s == s[..n] + [s[n]];
    }
  }

  lemma {:induction false} LowPicked<T>(s: seq<Stored<T>>, f: Stored<T> -> bool)
    requires forall k :: 0 <= k < |s| && f(s[k]) ==> s[k].minZoom < CLUSTER_ZOOM
    ensures Picked(LowOnly(s), f) == Picked(s, f)
  {
    if s != [] {
      var n := |s| - 1;
      LowPicked(s[..n], f);
      PickedConcat(LowOnly(s[..n]), [s[n]], f);
      PickedOne(s[n], f);
      assert LowOnly(s[..n]) + [] == LowOnly(s[..n]);
    }
  }
}
