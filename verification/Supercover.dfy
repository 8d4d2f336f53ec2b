/** The tiles a line passes through: the supercover of the segments between the centres
    of the tiles of consecutive points. */
module Supercover {
  import opened Coordinates
  import opened Arithmetic

  // ----- Which tiles those are -----

  function Distance(a: int, b: int): nat {
    if b < a then a - b else b - a
  }

  /** How far t is from a, counted towards b. */
  function Steps(a: int, b: int, t: int): int {
    if b < a then a - t else t - a
  }

  /** Twice the signed area that says how far cell (i, j) lies from the line. */
  function Deviation(dx: nat, dy: nat, i: int, j: int): int {
    2 * (dy * i - dx * j)
  }

  predicate Near(dx: nat, dy: nat, i: int, j: int) {
    0 <= i <= dx && 0 <= j <= dy && -(dx + dy) <= Deviation(dx, dy, i, j) <= dx + dy
  }

  predicate Touched(p: Tile, q: Tile, t: Tile) {
    Near(Distance(p.x, q.x), Distance(p.y, q.y), Steps(p.x, q.x, t.x), Steps(p.y, q.y, t.y))
  }

  // ----- In real geometry -----

  function Abs(r: real): real {
    if r < 0.0 then -r else r
  }

  /** The point at s, from 0 to 1, of the segment from the centre of p to the centre of
      q lies in the closed unit square of t. */
  ghost predicate InSquareAt(p: Tile, q: Tile, t: Tile, s: real) {
    && Abs(p.x as real + s * (q.x - p.x) as real - t.x as real) <= 0.5
    && Abs(p.y as real + s * (q.y - p.y) as real - t.y as real) <= 0.5
  }

  ghost predicate SegmentMeetsSquare(p: Tile, q: Tile, t: Tile) {
    exists s: real :: 0.0 <= s <= 1.0 && InSquareAt(p, q, t, s)
  }

  function Scale(s: real, d: nat): real {
    s * d as real
  }

  function Local(s: real, d: nat, i: int): real {
    Scale(s, d) - i as real
  }

  ghost predicate LocalAt(dx: nat, dy: nat, i: int, j: int, s: real) {
    Abs(Local(s, dx, i)) <= 0.5 && Abs(Local(s, dy, j)) <= 0.5
  }

  lemma ToLocal(p: Tile, q: Tile, t: Tile, s: real)
    ensures InSquareAt(p, q, t, s) <==>
      LocalAt(Distance(p.x, q.x), Distance(p.y, q.y), Steps(p.x, q.x, t.x), Steps(p.y, q.y, t.y), s)
  {
    Mirror(p.x, q.x, t.x, s);
    Mirror(p.y, q.y, t.y, s);
    hide *;
    InSquareIs(p, q, t, s);
    var dx, dy, i, j := Distance(p.x, q.x), Distance(p.y, q.y), Steps(p.x, q.x, t.x), Steps(p.y, q.y, t.y);
    LocalIs(dx, dy, i, j, s);
  }

  function Across(a: int, b: int, t: int, s: real): real {
    a as real + s * (b - a) as real - t as real
  }

  lemma InSquareIs(p: Tile, q: Tile, t: Tile, s: real)
    ensures InSquareAt(p, q, t, s) <==> Abs(Across(p.x, q.x, t.x, s)) <= 0.5 && Abs(Across(p.y, q.y, t.y, s)) <= 0.5
  {
  }

  lemma Mirror(a: int, b: int, t: int, s: real)
    ensures Abs(Across(a, b, t, s)) == Abs(Local(s, Distance(a, b), Steps(a, b, t)))
  {
    if b < a {
      assert s * (b - a) as real == -(s * (a - b) as real);
    }
  }

  lemma MeetsIsNear(dx: nat, dy: nat, i: int, j: int, s: real)
    requires 0.0 <= s <= 1.0 && LocalAt(dx, dy, i, j, s)
    ensures Near(dx, dy, i, j)
  {
    CrossProducts(s, dx, dy);
    UnitScale(s, dx);
    UnitScale(s, dy);
    hide *;
    HalfAway(dx, dy, i, j, s);
    Inside(Scale(s, dx), dx, i);
    Inside(Scale(s, dy), dy, j);
    DeviationBound(dx as real, dy as real, i as real, j as real, Scale(s, dx), Scale(s, dy));
    NearFromReals(dx, dy, i, j);
  }

  lemma HalfAway(dx: nat, dy: nat, i: int, j: int, s: real)
    requires LocalAt(dx, dy, i, j, s)
    ensures -0.5 <= Scale(s, dx) - i as real <= 0.5 && -0.5 <= Scale(s, dy) - j as real <= 0.5
  {
    hide Scale;
  }

  lemma Inside(u: real, d: nat, i: int)
    requires 0.0 <= u <= d as real && -0.5 <= u - i as real <= 0.5
    ensures 0 <= i <= d
  {
  }

  lemma NearFromReals(dx: nat, dy: nat, i: int, j: int)
    requires 0 <= i <= dx && 0 <= j <= dy
    requires -(dx as real + dy as real) / 2.0 <= dy as real * i as real - dx as real * j as real <= (dx as real + dy as real) / 2.0
    ensures Near(dx, dy, i, j)
  {
    assert dy as real * i as real - dx as real * j as real == (dy * i - dx * j) as real;
  }

  lemma CrossProducts(s: real, dx: nat, dy: nat)
    ensures dx as real * Scale(s, dy) == dy as real * Scale(s, dx)
  {
  }

  lemma UnitScale(s: real, d: nat)
    requires 0.0 <= s <= 1.0
    ensures 0.0 <= Scale(s, d) <= d as real
  {
    Monotone(0.0, s, d as real);
    Monotone(s, 1.0, d as real);
  }

  lemma Monotone(s: real, t: real, d: real)
    requires s <= t && 0.0 <= d
    ensures s * d <= t * d
  {
  }

  lemma DeviationBound(x: real, y: real, i: real, j: real, u: real, v: real)
    requires 0.0 <= x && 0.0 <= y && -0.5 <= u - i <= 0.5 && -0.5 <= v - j <= 0.5 && x * v == y * u
    ensures -(x + y) / 2.0 <= y * i - x * j <= (x + y) / 2.0
  {
    var du, dv := u - i, v - j;
    assert y * i - x * j == x * dv - y * du;
    Scaled(x, dv);
    Scaled(y, du);
  }

  lemma Scaled(a: real, e: real)
    requires 0.0 <= a && -0.5 <= e <= 0.5
    ensures -0.5 * a <= a * e <= 0.5 * a
  {
    Monotone(-0.5, e, a);
    Monotone(e, 0.5, a);
  }

  lemma Quotient(a: real, b: real) returns (q: real)
    requires 0.0 < b
    ensures q * b == a
  {
    q := a / b;
  }

  /** Three intervals of which each two meet have a common point. */
  lemma NearMeets(dx: nat, dy: nat, i: int, j: int) returns (s: real)
    requires Near(dx, dy, i, j)
    ensures 0.0 <= s <= 1.0 && LocalAt(dx, dy, i, j, s)
  {
    hide Near;
    hide LocalAt;
    NearAsReals(dx, dy, i, j);
    if dx == 0 && dy == 0 {
      s := 0.0;
      AtZero(dx, dy, i, j);
    } else if dx == 0 {
      s := Straight(dy as real, j as real);
      LocalIs(dx, dy, i, j, s);
      assert s * 0.0 == 0.0;
    } else if dy == 0 {
      s := Straight(dx as real, i as real);
      LocalIs(dx, dy, i, j, s);
    } else {
      s := Slanted(dx as real, dy as real, i as real, j as real);
      LocalIs(dx, dy, i, j, s);
    }
  }

  lemma AtZero(dx: nat, dy: nat, i: int, j: int)
    requires dx == dy == i == j == 0
    ensures LocalAt(dx, dy, i, j, 0.0)
  {
  }

  lemma LocalIs(dx: nat, dy: nat, i: int, j: int, s: real)
    ensures LocalAt(dx, dy, i, j, s) <==> Abs(Local(s, dx, i)) <= 0.5 && Abs(Local(s, dy, j)) <= 0.5
  {
  }

  lemma Straight(d: real, i: real) returns (s: real)
    requires 0.0 < d && 0.0 <= i <= d
    ensures 0.0 <= s <= 1.0 && s * d == i
  {
    s := Quotient(i, d);
    InUnit(s, d, i);
  }

  lemma InUnit(s: real, d: real, i: real)
    requires 0.0 < d && s * d == i && 0.0 <= i <= d
    ensures 0.0 <= s <= 1.0
  {
    StrictlyMonotone(s, 0.0, d);
    StrictlyMonotone(1.0, s, d);
  }

  lemma StrictlyMonotone(s: real, t: real, d: real)
    requires 0.0 < d
    ensures s < t <==> s * d < t * d
  {
    if s < t {
      Positive(t - s, d);
    } else {
      Monotone(t, s, d);
    }
  }

  lemma Positive(a: real, b: real)
    requires 0.0 < a && 0.0 < b
    ensures 0.0 < a * b
  {
  }

  lemma Slanted(x: real, y: real, i: real, j: real) returns (s: real)
    requires 1.0 <= x && 1.0 <= y && 0.0 <= i <= x && 0.0 <= j <= y
    requires i * y - j * x <= (x + y) / 2.0 && j * x - i * y <= (x + y) / 2.0
    ensures 0.0 <= s <= 1.0 && Abs(s * x - i) <= 0.5 && Abs(s * y - j) <= 0.5
  {
    var a := Quotient(i - 0.5, x);
    var b := Quotient(j - 0.5, y);
    s := if a <= 0.0 && b <= 0.0 then 0.0 else if a >= b then a else b;
    CommonPoint(x, y, i, j, a, b);
  }

  lemma CommonPoint(x: real, y: real, i: real, j: real, a: real, b: real)
    requires 1.0 <= x && 1.0 <= y && 0.0 <= i <= x && 0.0 <= j <= y
    requires i * y - j * x <= (x + y) / 2.0 && j * x - i * y <= (x + y) / 2.0
    requires a * x == i - 0.5 && b * y == j - 0.5
    ensures var s := if a <= 0.0 && b <= 0.0 then 0.0 else if a >= b then a else b;
            0.0 <= s <= 1.0 && Abs(s * x - i) <= 0.5 && Abs(s * y - j) <= 0.5
  {
    if a <= 0.0 && b <= 0.0 {
      Monotone(a, 0.0, x);
      Monotone(b, 0.0, y);
    } else if a >= b {
      LowerEnd(x, y, i, j, a, b);
    } else {
      LowerEnd(y, x, j, i, b, a);
    }
  }

  lemma NearAsReals(dx: nat, dy: nat, i: int, j: int)
    requires Near(dx, dy, i, j)
    ensures i as real * dy as real - j as real * dx as real <= (dx as real + dy as real) / 2.0
    ensures j as real * dx as real - i as real * dy as real <= (dx as real + dy as real) / 2.0
    ensures 0.0 <= i as real <= dx as real && 0.0 <= j as real <= dy as real
    ensures dx == 0 ==> i == 0
    ensures dy == 0 ==> j == 0
  {
    assert (dy * i - dx * j) as real == i as real * dy as real - j as real * dx as real;
  }

  /** The larger of the two lower ends lies below both upper ends. */
  lemma LowerEnd(x: real, y: real, i: real, j: real, s: real, b: real)
    requires 1.0 <= x && 0.0 < y && 0.0 <= i <= x && 0.0 < s && b <= s
    requires s * x == i - 0.5 && b * y == j - 0.5
    requires i * y - j * x <= (x + y) / 2.0
    ensures s <= 1.0 && Abs(s * x - i) <= 0.5 && Abs(s * y - j) <= 0.5
  {
    StrictlyMonotone(1.0, s, x);
    Monotone(b, s, y);
    StrictlyMonotone(j + 0.5, s * y, x);
    assert s * y * x == (s * x) * y;
    assert (i - 0.5) * y == i * y - 0.5 * y;
    assert (j + 0.5) * x == j * x + 0.5 * x;
  }

  /** A tile is touched if and only if its closed unit square meets the segment between
      the two centres. */
  lemma TouchedIsMeeting(p: Tile, q: Tile, t: Tile)
    ensures Touched(p, q, t) <==> SegmentMeetsSquare(p, q, t)
  {
    var dx, dy := Distance(p.x, q.x), Distance(p.y, q.y);
    var i, j := Steps(p.x, q.x, t.x), Steps(p.y, q.y, t.y);
    if Touched(p, q, t) {
      var s := NearMeets(dx, dy, i, j);
      ToLocal(p, q, t, s);
    }
    if s: real :| 0.0 <= s <= 1.0 && InSquareAt(p, q, t, s) {
      ToLocal(p, q, t, s);
      MeetsIsNear(dx, dy, i, j, s);
    }
  }

  // ----- The walk -----

  /** Of the cells near the line, those the walk has marked when it stands at (i, j):
      m steps along the major axis, n along the other. */
  predicate Passed(m: nat, n: nat, i: int, j: int, a: int, b: int) {
    Near(m, n, a, b) && (a < i || (a == i && b <= j))
  }

  /** The error is the deviation of the walk's place, seen from the middle. */
  predicate AtStep(m: nat, n: nat, i: int, j: int, error: int) {
    && n <= m && 0 <= i <= m && 0 <= j <= n
    && error == m + Deviation(m, n, i, j)
    && (0 < m ==> 0 < error <= 2 * m)
  }

  /** How the deviation changes between cells. */
  lemma DeviationStep(m: nat, n: nat, i: int, j: int, a: int, b: int)
    ensures Deviation(m, n, a, b) == Deviation(m, n, i, j) + 2 * (n * (a - i)) - 2 * (m * (b - j))
  {
    assert n * a == n * i + n * (a - i);
    assert m * b == m * j + m * (b - j);
  }

  /** In the two columns that a step concerns, only the cells next to the walk are near. */
  lemma ColumnCells(m: nat, n: nat, i: int, j: int, error: int, a: int, b: int)
    requires AtStep(m, n, i, j, error) && i < m && (a == i || a == i + 1)
    ensures a == i && b > j ==> (Near(m, n, a, b) <==> b == j + 1 && b <= n && error >= 2 * m - n)
    ensures a == i + 1 && b < j ==> !Near(m, n, a, b)
    ensures a == i + 1 && b == j ==> (Near(m, n, a, b) <==> error <= 2 * m - n)
    ensures a == i + 1 && b == j + 1 ==> (Near(m, n, a, b) <==> b <= n && error >= 2 * m - 3 * n)
  {
    hide Deviation;
    DeviationStep(m, n, i, j, a, b);
    Columns(m, b - j);
    Columns(n, a - i);
  }

  lemma Columns(m: int, k: int)
    requires 0 <= m
    ensures k == 0 ==> m * k == 0
    ensures k == 1 ==> m * k == m
    ensures k >= 2 ==> m * k >= 2 * m
    ensures k < 0 ==> m * k <= -m
  {
    if k >= 2 {
      MulMonotone(m, 2, k);
    } else if k < 0 {
      MulMonotone(m, k, -1);
    }
  }

  lemma StepLevel(m: nat, n: nat, i: int, j: int, error: int, a: int, b: int)
    requires AtStep(m, n, i, j, error) && i < m && error + 2 * n <= 2 * m
    ensures AtStep(m, n, i + 1, j, error + 2 * n)
    ensures Passed(m, n, i + 1, j, a, b) <==> Passed(m, n, i, j, a, b) || (a == i + 1 && b == j)
  {
    DeviationStep(m, n, i, j, i + 1, j);
    if a == i || a == i + 1 {
      ColumnCells(m, n, i, j, error, a, b);
    }
    hide Near;
    hide Deviation;
    assert n * (i + 1 - i) == n && m * (j - j) == 0;
  }

  /** A step up marks one or both of the cells beside the diagonal. */
  lemma StepUp(m: nat, n: nat, i: int, j: int, error: int, a: int, b: int)
    requires AtStep(m, n, i, j, error) && i < m && error + 2 * n > 2 * m
    ensures var e := error + 2 * n - 2 * m;
            AtStep(m, n, i + 1, j + 1, e) &&
            (Passed(m, n, i + 1, j + 1, a, b) <==>
               Passed(m, n, i, j, a, b) || (a == i + 1 && b == j + 1) ||
               (e + error <= 2 * m && a == i + 1 && b == j) || (e + error >= 2 * m && a == i && b == j + 1))
  {
    DeviationStep(m, n, i, j, i + 1, j + 1);
    RoomAbove(m, n, i + 1, j + 1, error + 2 * n - 2 * m);
    if a == i || a == i + 1 {
      ColumnCells(m, n, i, j, error, a, b);
    }
    hide Near;
    hide Deviation;
    assert n * (i + 1 - i) == n && m * (j + 1 - j) == m;
  }

  lemma MulNext(m: int, k: int)
    ensures m * (k + 1) == k * m + m == m * k + m
  {
  }

  lemma RoomAbove(m: nat, n: nat, i: int, j: int, error: int)
    requires i <= m && 0 < error == m + Deviation(m, n, i, j)
    ensures 0 < m ==> j <= n
  {
    MulNext(m, n);
    MulMonotone(n, i, m);
    if 0 < m && n + 1 <= j {
      MulMonotone(m, n + 1, j);
      assert false;
    }
  }

  /** The walk ends at the other end of the segment. */
  lemma WalkEnds(m: nat, n: nat, j: int, error: int)
    requires AtStep(m, n, m, j, error)
    ensures j == n
  {
    MulNext(m, j);
    MulNext(m, n);
    if 0 < m && j < n {
      MulMonotone(m, j + 1, n);
      assert false;
    }
  }

  lemma WalkStarts(m: nat, n: nat, a: int, b: int)
    requires n <= m
    ensures AtStep(m, n, 0, 0, m)
    ensures Passed(m, n, 0, 0, a, b) <==> a == 0 && b == 0
    ensures Passed(m, n, m, n, a, b) <==> Near(m, n, a, b)
  {
  }

  function Step(a: int, b: int): int {
    if b < a then -1 else 1
  }

  /** i steps from a towards b. */
  function Along(a: int, b: int, i: int): int {
    if b < a then a - i else a + i
  }

  function Major(p: Tile, q: Tile, steep: bool): nat {
    if steep then Distance(p.y, q.y) else Distance(p.x, q.x)
  }

  function Minor(p: Tile, q: Tile, steep: bool): nat {
    Major(p, q, !steep)
  }

  /** The tile a steps along the major axis and b along the other. */
  function Cell(p: Tile, q: Tile, steep: bool, a: int, b: int): Tile {
    if steep then Tile(Along(p.x, q.x, b), Along(p.y, q.y, a)) else Tile(Along(p.x, q.x, a), Along(p.y, q.y, b))
  }

  ghost predicate PassedTile(p: Tile, q: Tile, steep: bool, i: int, j: int, t: Tile) {
    var x, y := Steps(p.x, q.x, t.x), Steps(p.y, q.y, t.y);
    Passed(Major(p, q, steep), Minor(p, q, steep), i, j, if steep then y else x, if steep then x else y)
  }

  /** The set so far: what was there, the far end, and the tiles passed. */
  ghost predicate Marked(before: set<Tile>, p: Tile, q: Tile, steep: bool, i: int, j: int, now: set<Tile>) {
    forall t :: t in now <==> t in before || t == q || PassedTile(p, q, steep, i, j, t)
  }

  lemma CellSteps(p: Tile, q: Tile, steep: bool, a: int, b: int, t: Tile)
    ensures t == Cell(p, q, steep, a, b) <==>
      a == (if steep then Steps(p.y, q.y, t.y) else Steps(p.x, q.x, t.x)) &&
      b == (if steep then Steps(p.x, q.x, t.x) else Steps(p.y, q.y, t.y))
  {
  }

  lemma MarkedStart(before: set<Tile>, p: Tile, q: Tile, steep: bool)
    requires Minor(p, q, steep) <= Major(p, q, steep)
    ensures Marked(before, p, q, steep, 0, 0, before + {q} + {p})
    ensures AtStep(Major(p, q, steep), Minor(p, q, steep), 0, 0, Major(p, q, steep))
  {
    hide AtStep;
    hide Passed;
    hide Major;
    forall t: Tile ensures PassedTile(p, q, steep, 0, 0, t) <==> t == p {
      var x, y := Steps(p.x, q.x, t.x), Steps(p.y, q.y, t.y);
      WalkStarts(Major(p, q, steep), Minor(p, q, steep), if steep then y else x, if steep then x else y);
    }
    WalkStarts(Major(p, q, steep), Minor(p, q, steep), 0, 0);
  }

  lemma MarkedLevel(before: set<Tile>, p: Tile, q: Tile, steep: bool, i: int, j: int, error: int, was: set<Tile>, now: set<Tile>)
    requires AtStep(Major(p, q, steep), Minor(p, q, steep), i, j, error) && i < Major(p, q, steep)
    requires error + 2 * Minor(p, q, steep) <= 2 * Major(p, q, steep)
    requires Marked(before, p, q, steep, i, j, was) && now == was + {Cell(p, q, steep, i + 1, j)}
    ensures AtStep(Major(p, q, steep), Minor(p, q, steep), i + 1, j, error + 2 * Minor(p, q, steep))
    ensures Marked(before, p, q, steep, i + 1, j, now)
  {
    var m, n := Major(p, q, steep), Minor(p, q, steep);
    hide AtStep;
    hide Passed;
    hide Major;
    hide Minor;
    hide Cell;
    hide Steps;
    StepLevel(m, n, i, j, error, 0, 0);
    forall t: Tile
      ensures PassedTile(p, q, steep, i + 1, j, t) <==> PassedTile(p, q, steep, i, j, t) || t == Cell(p, q, steep, i + 1, j)
    {
      var x, y := Steps(p.x, q.x, t.x), Steps(p.y, q.y, t.y);
      StepLevel(m, n, i, j, error, if steep then y else x, if steep then x else y);
      CellSteps(p, q, steep, i + 1, j, t);
    }
  }

  lemma MarkedUp(before: set<Tile>, p: Tile, q: Tile, steep: bool, i: int, j: int, error: int, was: set<Tile>, now: set<Tile>)
    requires AtStep(Major(p, q, steep), Minor(p, q, steep), i, j, error) && i < Major(p, q, steep)
    requires error + 2 * Minor(p, q, steep) > 2 * Major(p, q, steep)
    requires Marked(before, p, q, steep, i, j, was)
    requires var m, n := Major(p, q, steep), Minor(p, q, steep);
             var both := 2 * error + 2 * n - 2 * m;
             now == was + {Cell(p, q, steep, i + 1, j + 1)}
                    + (if both <= 2 * m then {Cell(p, q, steep, i + 1, j)} else {})
                    + (if both >= 2 * m then {Cell(p, q, steep, i, j + 1)} else {})
    ensures var m, n := Major(p, q, steep), Minor(p, q, steep); AtStep(m, n, i + 1, j + 1, error + 2 * n - 2 * m)
    ensures Marked(before, p, q, steep, i + 1, j + 1, now)
  {
    var m, n := Major(p, q, steep), Minor(p, q, steep);
    hide AtStep;
    hide Passed;
    hide Major;
    hide Minor;
    hide Cell;
    hide Steps;
    StepUp(m, n, i, j, error, 0, 0);
    var both := 2 * error + 2 * n - 2 * m;
    forall t: Tile
      ensures PassedTile(p, q, steep, i + 1, j + 1, t) <==>
        PassedTile(p, q, steep, i, j, t) || t == Cell(p, q, steep, i + 1, j + 1) ||
        (both <= 2 * m && t == Cell(p, q, steep, i + 1, j)) || (both >= 2 * m && t == Cell(p, q, steep, i, j + 1))
    {
      var x, y := Steps(p.x, q.x, t.x), Steps(p.y, q.y, t.y);
      StepUp(m, n, i, j, error, if steep then y else x, if steep then x else y);
      CellSteps(p, q, steep, i + 1, j + 1, t);
      CellSteps(p, q, steep, i + 1, j, t);
      CellSteps(p, q, steep, i, j + 1, t);
    }
  }

  lemma MarkedAll(before: set<Tile>, p: Tile, q: Tile, steep: bool, j: int, error: int, now: set<Tile>)
    requires AtStep(Major(p, q, steep), Minor(p, q, steep), Major(p, q, steep), j, error)
    requires Marked(before, p, q, steep, Major(p, q, steep), j, now)
    ensures forall t :: t in now <==> t in before || Touched(p, q, t)
    ensures Cell(p, q, steep, Major(p, q, steep), j) == q
  {
    var m, n := Major(p, q, steep), Minor(p, q, steep);
    WalkEnds(m, n, j, error);
    forall t: Tile ensures t == q || PassedTile(p, q, steep, m, n, t) <==> Touched(p, q, t) {
      var x, y := Steps(p.x, q.x, t.x), Steps(p.y, q.y, t.y);
      WalkStarts(m, n, if steep then y else x, if steep then x else y);
      EndTouched(p, q);
    }
  }

  lemma EndTouched(p: Tile, q: Tile)
    ensures Touched(p, q, q)
  {
    var dx, dy := Distance(p.x, q.x), Distance(p.y, q.y);
    assert dy * dx == dx * dy;
  }

  lemma Directions(p: Tile, q: Tile)
    ensures Major(p, q, false) == Minor(p, q, true) == if q.x - p.x < 0 then p.x - q.x else q.x - p.x
    ensures Major(p, q, true) == Minor(p, q, false) == if q.y - p.y < 0 then p.y - q.y else q.y - p.y
    ensures Cell(p, q, false, 0, 0) == Cell(p, q, true, 0, 0) == p
  {
  }

  lemma CellIs(p: Tile, q: Tile, x: int, y: int, xstep: int, ystep: int, steep: bool, i: int, j: int)
    requires Tile(x, y) == Cell(p, q, steep, i, j)
    requires IsStep(p.x, q.x, xstep) && IsStep(p.y, q.y, ystep)
    ensures !steep ==> Cell(p, q, steep, i + 1, j) == Tile(x + xstep, y) && Cell(p, q, steep, i, j + 1) == Tile(x, y + ystep)
    ensures steep ==> Cell(p, q, steep, i + 1, j) == Tile(x, y + ystep) && Cell(p, q, steep, i, j + 1) == Tile(x + xstep, y)
    ensures Cell(p, q, steep, i + 1, j + 1) == Tile(x + xstep, y + ystep)
  {
  }

  ghost predicate IsStep(from: int, to: int, step: int) {
    step == if to - from < 0 then -1 else 1
  }

  /** The walk in the octants where the line is nearer to the x axis. */
  method WalkFlat(p: Tile, q: Tile, dx: nat, dy: nat, xstep: int, ystep: int, ghost before: set<Tile>, tileSet: set<Tile>)
    returns (r: set<Tile>)
    requires dx == Major(p, q, false) && dy == Major(p, q, true) && dy <= dx
    requires IsStep(p.x, q.x, xstep) && IsStep(p.y, q.y, ystep)
    requires tileSet == before + {q} + {p}
    ensures forall t :: t in r <==> t in before || Touched(p, q, t)
  {
    hide *;
    r := tileSet;
    var x, y := p.x, p.y;
    var ddx, ddy := 2 * dx, 2 * dy;
    Directions(p, q);
    MarkedStart(before, p, q, false);
    var error, errorprev := dx, dx;
    ghost var j := 0;
    for i := 0 to dx
      invariant AtStep(dx, dy, i, j, error) && errorprev == error
      invariant Tile(x, y) == Cell(p, q, false, i, j) && Marked(before, p, q, false, i, j, r)
    {
      CellIs(p, q, x, y, xstep, ystep, false, i, j);
      ghost var was := r;
      x := x + xstep;
      error := error + ddy;
      if error > ddx {
        y := y + ystep;
        error := error - ddx;
        if error + errorprev < ddx {
          r := r + {Tile(x, y - ystep)};
        } else if error + errorprev > ddx {
          r := r + {Tile(x - xstep, y)};
        } else {
          r := r + {Tile(x, y - ystep)};
          r := r + {Tile(x - xstep, y)};
        }
        MarkedUp(before, p, q, false, i, j, errorprev, was, r + {Tile(x, y)});
        j := j + 1;
      } else {
        MarkedLevel(before, p, q, false, i, j, errorprev, was, r + {Tile(x, y)});
      }
      r := r + {Tile(x, y)};
      errorprev := error;
    }
    MarkedAll(before, p, q, false, j, error, r);
    assert Tile(x, y) == q;
  }

  /** The walk in the other octants. */
  method WalkSteep(p: Tile, q: Tile, dx: nat, dy: nat, xstep: int, ystep: int, ghost before: set<Tile>, tileSet: set<Tile>)
    returns (r: set<Tile>)
    requires dx == Major(p, q, false) && dy == Major(p, q, true) && dx <= dy
    requires IsStep(p.x, q.x, xstep) && IsStep(p.y, q.y, ystep)
    requires tileSet == before + {q} + {p}
    ensures forall t :: t in r <==> t in before || Touched(p, q, t)
  {
    hide *;
    r := tileSet;
    var x, y := p.x, p.y;
    var ddx, ddy := 2 * dx, 2 * dy;
    Directions(p, q);
    MarkedStart(before, p, q, true);
    var error, errorprev := dy, dy;
    ghost var j := 0;
    for i := 0 to dy
      invariant AtStep(dy, dx, i, j, error) && errorprev == error
      invariant Tile(x, y) == Cell(p, q, true, i, j) && Marked(before, p, q, true, i, j, r)
    {
      CellIs(p, q, x, y, xstep, ystep, true, i, j);
      ghost var was := r;
      y := y + ystep;
      error := error + ddx;
      if error > ddy {
        x := x + xstep;
        error := error - ddy;
        if error + errorprev < ddy {
          r := r + {Tile(x - xstep, y)};
        } else if error + errorprev > ddy {
          r := r + {Tile(x, y - ystep)};
        } else {
          r := r + {Tile(x - xstep, y)};
          r := r + {Tile(x, y - ystep)};
        }
        MarkedUp(before, p, q, true, i, j, errorprev, was, r + {Tile(x, y)});
        j := j + 1;
      } else {
        MarkedLevel(before, p, q, true, i, j, errorprev, was, r + {Tile(x, y)});
      }
      r := r + {Tile(x, y)};
      errorprev := error;
    }
    MarkedAll(before, p, q, true, j, error, r);
    assert Tile(x, y) == q;
  }

  method MarkSegment(p: Tile, q: Tile, tileSet: set<Tile>) returns (r: set<Tile>)
    ensures forall t :: t in r <==> t in tileSet || Touched(p, q, t)
  {
    hide Touched, Cell;
    r := tileSet + {q};
    r := r + {p};
    var dx, dy := q.x - p.x, q.y - p.y;
    var ystep, xstep;
    if dy < 0 {
      ystep, dy := -1, -dy;
    } else {
      ystep := 1;
    }
    if dx < 0 {
      xstep, dx := -1, -dx;
    } else {
      xstep := 1;
    }
    var ddy, ddx := 2 * dy, 2 * dx;
    Directions(p, q);
    if ddx >= ddy {
      r := WalkFlat(p, q, dx, dy, xstep, ystep, tileSet, r);
    } else {
      r := WalkSteep(p, q, dx, dy, xstep, ystep, tileSet, r);
    }
  }

  // ----- A whole line -----

  ghost predicate OnLine(points: seq<Tile>, t: Tile) {
    t in points || exists k :: 0 < k < |points| && Touched(points[k - 1], points[k], t)
  }

  /** The tiles of the points in turn. The first point only marks its own tile. */
  method InsertIntermediateTiles(points: seq<Tile>, tileSet: set<Tile>) returns (r: set<Tile>)
    ensures forall t :: t in r <==> t in tileSet || OnLine(points, t)
  {
    hide Touched;
    r := tileSet;
    var p2 := Tile(0, 0);
    for it := 0 to |points|
      invariant 0 < it ==> p2 == points[it - 1]
      invariant forall t :: t in r <==> t in tileSet || OnLine(points[..it], t)
    {
      var p1 := p2;
      p2 := points[it];
      ghost var was := r;
      if it == 0 {
        r := r + {p2};
      } else {
        EndTouched(p1, p2);
        r := MarkSegment(p1, p2, r);
      }
      LineGrows(points, it);
    }
    assert points[..|points|] == points;
  }

  lemma LineGrows(points: seq<Tile>, it: nat)
    requires it < |points|
    ensures forall t :: OnLine(points[..it + 1], t) <==>
      OnLine(points[..it], t) || t == points[it] || (0 < it && Touched(points[it - 1], points[it], t))
  {
    hide Touched;
    var a, b := points[..it], points[..it + 1];
    forall t: Tile ensures OnLine(b, t) <==> OnLine(a, t) || t == points[it] || (0 < it && Touched(points[it - 1], points[it], t)) {
      if k :| 0 < k < |a| && Touched(a[k - 1], a[k], t) {
        assert Touched(b[k - 1], b[k], t);
      }
      if k :| 0 < k < |b| && Touched(b[k - 1], b[k], t) {
        assert k < it ==> Touched(a[k - 1], a[k], t);
      }
      if t == points[it] {
        assert b[it] == t;
      }
      if 0 < it && Touched(points[it - 1], points[it], t) {
        assert Touched(b[it - 1], b[it], t);
      }
    }
  }

  // ----- Connectedness -----

  predicate Adjacent(s: Tile, t: Tile) {
    Distance(s.x, t.x) + Distance(s.y, t.y) == 1
  }

  /** From every touched tile but the first, a step back to an edge-adjacent one. */
  lemma StepBack(dx: nat, dy: nat, i: int, j: int)
    requires Near(dx, dy, i, j) && i + j > 0
    ensures Near(dx, dy, i - 1, j) || Near(dx, dy, i, j - 1)
  {
    DeviationStep(dx, dy, i, j, i - 1, j);
    DeviationStep(dx, dy, i, j, i, j - 1);
    assert dy * (i - 1 - i) == 0 - dy && dx * (j - j) == 0;
    assert dy * (i - i) == 0 && dx * (j - 1 - j) == 0 - dx;
    if i == 0 {
      MulMonotone(dx, 1, j);
    } else if j == 0 {
      MulMonotone(dy, 1, i);
    }
  }

  ghost predicate Chain(p: Tile, q: Tile, path: seq<Tile>) {
    && path != [] && path[0] == p
    && (forall k :: 0 <= k < |path| ==> Touched(p, q, path[k]))
    && forall k :: 0 < k < |path| ==> Adjacent(path[k - 1], path[k])
  }

  /** The touched tiles are 4-connected: each is reached from the first through touched
      tiles that share edges. */
  lemma {:induction false} Connected(p: Tile, q: Tile, t: Tile) returns (path: seq<Tile>)
    requires Touched(p, q, t)
    ensures Chain(p, q, path) && path[|path| - 1] == t
    decreases Steps(p.x, q.x, t.x) + Steps(p.y, q.y, t.y)
  {
    var i, j := Steps(p.x, q.x, t.x), Steps(p.y, q.y, t.y);
    if i + j == 0 {
      path := [t];
    } else {
      StepBack(Distance(p.x, q.x), Distance(p.y, q.y), i, j);
      var s := if Near(Distance(p.x, q.x), Distance(p.y, q.y), i - 1, j)
               then Cell(p, q, false, i - 1, j) else Cell(p, q, false, i, j - 1);
      path := Connected(p, q, s);
      path := path + [t];
    }
  }
}
