/** Points of the plane, and the area of a triangle. */
module Triangles {
  datatype Point = Point(x: real, y: real)

  /** Twice the area. */
  function DoubleArea(a: Point, b: Point, c: Point): (r: real)
    ensures r >= 0.0
  {
    var d := (b.x - a.x) * (c.y - a.y) - (b.y - a.y) * (c.x - a.x);
    if d < 0.0 then -d else d
  }

  // ----- Vectors -----

  function Plus(u: Point, v: Point): Point {
    Point(u.x + v.x, u.y + v.y)
  }

  function Times(t: real, u: Point): Point {
    Point(t * u.x, t * u.y)
  }

  function To(a: Point, b: Point): Point {
    Point(b.x - a.x, b.y - a.y)
  }

  function Dot(u: Point, v: Point): real {
    u.x * v.x + u.y * v.y
  }

  function Cross(u: Point, v: Point): real {
    u.x * v.y - u.y * v.x
  }

  function Abs(x: real): real {
    if x < 0.0 then -x else x
  }

  const Zero := Point(0.0, 0.0)

  lemma AreaIs(a: Point, b: Point, c: Point)
    ensures DoubleArea(a, b, c) == Abs(Cross(To(a, b), To(a, c)))
  {
    assert Cross(To(a, b), To(a, c)) == (b.x - a.x) * (c.y - a.y) - (b.y - a.y) * (c.x - a.x);
  }

  lemma CrossTimes(t: real, u: Point, v: Point)
    ensures Cross(Times(t, u), v) == t * Cross(u, v) && Cross(u, Times(t, v)) == t * Cross(u, v)
  {
  }

  lemma CrossPlus(u: Point, v: Point, w: Point)
    ensures Cross(u, Plus(v, w)) == Cross(u, v) + Cross(u, w)
  {
  }

  lemma CrossTurned(u: Point, v: Point)
    ensures Cross(u, v) == -Cross(v, u) && Cross(u, u) == 0.0
  {
  }

  lemma DotPlus(u: Point, v: Point, w: Point)
    ensures Dot(u, Plus(v, w)) == Dot(u, v) + Dot(u, w)
  {
  }

  lemma DotTimes(t: real, u: Point, v: Point)
    ensures Dot(u, Times(t, v)) == t * Dot(u, v)
  {
  }

  lemma Lagrange(u: Point, v: Point)
    ensures Dot(u, u) * Dot(v, v) == Dot(u, v) * Dot(u, v) + Cross(u, v) * Cross(u, v)
  {
  }

  lemma Product(x: real, y: real, p: real)
    requires x > 0.0 && y > 0.0 && p == x * y
    ensures p > 0.0
  {
  }

  lemma Square(x: real, p: real)
    requires p == x * x
    ensures p >= 0.0 && (x != 0.0 ==> p > 0.0)
  {
    if x > 0.0 {
      Product(x, x, p);
    } else if x < 0.0 {
      Product(-x, -x, p);
    }
  }

  lemma SumOfSquares(x: real, y: real, sum: real)
    requires sum == x * x + y * y
    ensures sum >= 0.0 && (x != 0.0 || y != 0.0 ==> sum > 0.0)
  {
    Square(x, x * x);
    Square(y, y * y);
  }

  lemma Positive(u: Point)
    ensures Dot(u, u) >= 0.0 && (u != Zero ==> Dot(u, u) > 0.0)
  {
    SumOfSquares(u.x, u.y, Dot(u, u));
  }

  // ----- What the area is -----

  /** Twice a right triangle is a rectangle. */
  lemma RightTriangle(p: Point, width: real, height: real)
    requires width >= 0.0 && height >= 0.0
    ensures DoubleArea(p, Plus(p, Point(width, 0.0)), Plus(p, Point(0.0, height))) == width * height
  {
    NotNegative(width, height);
  }

  lemma NotNegative(x: real, y: real)
    requires x >= 0.0 && y >= 0.0
    ensures x * y >= 0.0
  {
  }

  /** Neither the triangle's place matters nor the order of its points. */
  lemma AreaStays(a: Point, b: Point, c: Point, v: Point)
    ensures DoubleArea(Plus(a, v), Plus(b, v), Plus(c, v)) == DoubleArea(a, b, c)
    ensures DoubleArea(b, a, c) == DoubleArea(a, c, b) == DoubleArea(a, b, c)
  {
    AreaIs(a, b, c);
    AreaIs(Plus(a, v), Plus(b, v), Plus(c, v));
    AreaIs(b, a, c);
    AreaIs(a, c, b);
    Alike(Plus(a, v), a, Plus(b, v), b, v);
    Alike(Plus(a, v), a, Plus(c, v), c, v);
    var u, w := To(a, b), To(a, c);
    assert To(b, a) == Times(-1.0, u) && To(b, c) == Plus(w, Times(-1.0, u));
    hide *;
    CrossTurned(u, w);
    CrossTurned(u, u);
    CrossTimes(-1.0, u, Plus(w, Times(-1.0, u)));
    CrossPlus(u, w, Times(-1.0, u));
    CrossTimes(-1.0, u, u);
  }

  lemma Alike(a': Point, a: Point, b': Point, b: Point, v: Point)
    requires a' == Plus(a, v) && b' == Plus(b, v)
    ensures To(a', b') == To(a, b)
  {
  }

  /** Moving a point along the opposite side's direction keeps the area. */
  lemma Sheared(a: Point, b: Point, c: Point, t: real)
    ensures DoubleArea(a, b, Plus(c, Times(t, To(a, b)))) == DoubleArea(a, b, c)
  {
    var u, w := To(a, b), To(a, c);
    AreaIs(a, b, c);
    AreaIs(a, b, Plus(c, Times(t, u)));
    assert To(a, Plus(c, Times(t, u))) == Plus(w, Times(t, u));
    hide *;
    CrossPlus(u, w, Times(t, u));
    CrossTimes(t, u, u);
    CrossTurned(u, u);
  }

  /** The point at t of the line through a and b: a at 0, b at 1. */
  function Along(a: Point, b: Point, t: real): Point {
    Plus(a, Times(t, To(a, b)))
  }

  ghost predicate OnLine(a: Point, b: Point, c: Point) {
    exists t :: b == Along(a, c, t)
  }

  lemma AlongIs(a: Point, c: Point, t: real)
    ensures To(a, Along(a, c, t)) == Times(t, To(a, c))
  {
  }

  lemma AlongOnly(a: Point, b: Point, c: Point, t: real)
    requires To(a, b) == Times(t, To(a, c))
    ensures b == Along(a, c, t)
  {
  }

  /** The area is zero exactly for points of one line. */
  lemma FlatIsOnLine(a: Point, b: Point, c: Point)
    ensures DoubleArea(a, b, c) == 0.0 <==> a == c || OnLine(a, b, c)
  {
    AreaIs(a, b, c);
    var u, v := To(a, b), To(a, c);
    assert v == Zero <==> a == c;
    hide DoubleArea, Cross, Along, Times, To;
    if OnLine(a, b, c) {
      var t :| b == Along(a, c, t);
      AlongIs(a, c, t);
      CrossTimes(t, v, v);
      CrossTurned(v, v);
    }
    if a == c {
      CrossZero(u);
    } else if Cross(u, v) == 0.0 {
      var t := Multiple(u, v);
      AlongOnly(a, b, c, t);
    }
  }

  lemma CrossZero(u: Point)
    ensures Cross(u, Zero) == 0.0
  {
  }

  lemma Quotient(x: real, y: real) returns (t: real)
    requires y != 0.0
    ensures t * y == x
  {
    t := x / y;
  }

  lemma Multiple(u: Point, v: Point) returns (t: real)
    requires v != Zero && Cross(u, v) == 0.0
    ensures u == Times(t, v)
  {
    if v.x != 0.0 {
      t := Quotient(u.x, v.x);
      SameMultiple(u.x, u.y, v.x, v.y, t);
    } else {
      t := Quotient(u.y, v.y);
      SameMultiple(u.y, u.x, v.y, v.x, t);
    }
  }

  lemma SameMultiple(p: real, q: real, r: real, s: real, t: real)
    requires r != 0.0 && t * r == p && p * s == q * r
    ensures t * s == q
  {
    assert (t * s - q) * r == t * r * s - q * r;
  }

  /** Three points of one line. */
  lemma OneLine(a: Point, b: Point, p: Point, q: Point, r: Point)
    requires OnLine(a, p, b) && OnLine(a, q, b) && OnLine(a, r, b)
    ensures DoubleArea(p, q, r) == 0.0
  {
    var t :| p == Along(a, b, t);
    var u :| q == Along(a, b, u);
    var v :| r == Along(a, b, v);
    AreaIs(p, q, r);
    Difference(a, b, t, u);
    Difference(a, b, t, v);
    var w := To(a, b);
    hide DoubleArea, Cross, Along, Times, To;
    CrossTimes(u - t, w, Times(v - t, w));
    CrossTimes(v - t, w, w);
    CrossTurned(w, w);
  }

  lemma Difference(a: Point, b: Point, t: real, u: real)
    ensures To(Along(a, b, t), Along(a, b, u)) == Times(u - t, To(a, b))
  {
    Distribute(b.x - a.x, t, u);
    Distribute(b.y - a.y, t, u);
  }

  lemma Distribute(x: real, t: real, u: real)
    ensures u * x - t * x == (u - t) * x
  {
  }

  // ----- The height -----

  function SquaredDistance(a: Point, b: Point): real {
    Dot(To(a, b), To(a, b))
  }

  /** Twice the area is a side times the height on it: seen from any point of the side's
      line, the third point is at least so far away. */
  lemma BaseTimesHeight(a: Point, b: Point, c: Point, t: real)
    ensures DoubleArea(a, b, c) * DoubleArea(a, b, c) <= SquaredDistance(a, c) * SquaredDistance(b, Along(a, c, t))
  {
    HeightAt(a, b, c, t);
    hide *;
    var d := Dot(To(a, c), To(b, Along(a, c, t)));
    Square(d, d * d);
  }

  lemma HeightAt(a: Point, b: Point, c: Point, t: real)
    ensures var d := Dot(To(a, c), To(b, Along(a, c, t)));
            SquaredDistance(a, c) * SquaredDistance(b, Along(a, c, t)) == d * d + DoubleArea(a, b, c) * DoubleArea(a, b, c)
  {
    var f := Along(a, c, t);
    var u, v := To(a, c), To(a, b);
    AreaIs(a, b, c);
    ToFoot(a, b, c, t);
    hide DoubleArea, Cross, Dot, Along, Times, To, Plus;
    Lagrange(u, To(b, f));
    CrossPlus(u, Times(t, u), Times(-1.0, v));
    CrossTimes(t, u, u);
    CrossTimes(-1.0, u, v);
    CrossTurned(u, u);
    CrossTurned(u, v);
    assert Cross(u, To(b, f)) == Cross(v, u);
  }

  lemma ToFoot(a: Point, b: Point, c: Point, t: real)
    ensures To(b, Along(a, c, t)) == Plus(Times(t, To(a, c)), Times(-1.0, To(a, b)))
  {
  }

  /** And exactly so far from the foot. */
  lemma FootOf(a: Point, b: Point, c: Point) returns (t: real)
    ensures DoubleArea(a, b, c) * DoubleArea(a, b, c) == SquaredDistance(a, c) * SquaredDistance(b, Along(a, c, t))
  {
    t := 0.0;
    var u, v := To(a, c), To(a, b);
    if u != Zero {
      Positive(u);
      t := Quotient(Dot(u, v), Dot(u, u));
    }
    HeightAt(a, b, c, t);
    ToFoot(a, b, c, t);
    DotZero(To(b, Along(a, c, t)));
    hide DoubleArea, Cross, Dot, Along, Times, To, Plus, SquaredDistance;
    DotPlus(u, Times(t, u), Times(-1.0, v));
    DotTimes(t, u, u);
    DotTimes(-1.0, u, v);
    assert Dot(u, To(b, Along(a, c, t))) == 0.0;
  }

  lemma DotZero(u: Point)
    ensures Dot(Zero, u) == 0.0
  {
  }

  /** The third point's distance from the line, times the side's length, exceeds this. */
  ghost predicate Spans(a: Point, b: Point, c: Point, least: real) {
    forall t :: SquaredDistance(a, c) * SquaredDistance(b, Along(a, c, t)) > least * least
  }

  lemma SpansIs(a: Point, b: Point, c: Point, least: real)
    requires least >= 0.0
    ensures DoubleArea(a, b, c) > least <==> Spans(a, b, c, least)
    ensures Spans(a, b, c, least) ==> a != c && !OnLine(a, b, c)
  {
    hide DoubleArea, SquaredDistance;
    var area := DoubleArea(a, b, c);
    SquaresOrder(area, least);
    FlatIsOnLine(a, b, c);
    hide OnLine;
    if area > least {
      forall t ensures SquaredDistance(a, c) * SquaredDistance(b, Along(a, c, t)) > least * least {
        BaseTimesHeight(a, b, c, t);
      }
    } else {
      var t := FootOf(a, b, c);
      assert SquaredDistance(a, c) * SquaredDistance(b, Along(a, c, t)) <= least * least;
    }
  }

  lemma SquaresOrder(x: real, y: real)
    requires x >= 0.0 && y >= 0.0
    ensures x > y <==> x * x > y * y
  {
    Distribute(x, y, x);
    Distribute(y, y, x);
    if x > y {
      Product(x, x - y, x * (x - y));
      NotNegative(y, x - y);
    } else {
      NotNegative(x, y - x);
      NotNegative(y, y - x);
    }
  }
}
