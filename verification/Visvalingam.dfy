/** The Visvalingam simplifier: points are removed in the order of the areas of the
    triangles they form with their neighbours. */
module Visvalingam {
  import opened MinHeap
  import opened Triangles

  function DoubleTriangleArea(ls: seq<Point>, i1: nat, i2: nat, i3: nat): (r: real)
    requires i1 < |ls| && i2 < |ls| && i3 < |ls|
    ensures r >= 0.0
  {
    DoubleArea(ls[i1], ls[i2], ls[i3])
  }

  // ----- What it computes: removals from a list, without heap or links -----

  /** The points left, and the area recorded for each point. */
  datatype Line = Line(path: seq<nat>, area: seq<Area>)

  function Initial(ls: seq<Point>): Line {
    Line(seq(|ls|, i requires 0 <= i < |ls| => i),
         seq(|ls|, i requires 0 <= i < |ls| =>
           if 0 < i < |ls| - 1 then Finite(DoubleTriangleArea(ls, i - 1, i, i + 1)) else Infinite))
  }

  ghost predicate Good(ls: seq<Point>, s: Line) {
    && 2 <= |s.path| <= |ls| && |s.area| == |ls|
    && s.path[0] == 0 && s.path[|s.path| - 1] == |ls| - 1
    && (forall j, k :: 0 <= j < k < |s.path| ==> s.path[j] < s.path[k])
    && (forall k :: 0 <= k < |s.path| ==> s.path[k] < |ls|)
    && (forall k :: 0 <= k < |s.path| ==> (s.area[s.path[k]].Finite? <==> 0 < k < |s.path| - 1))
  }

  predicate Interior(s: Line, k: nat) {
    0 < k && k + 1 < |s.path|
  }

  ghost function TriangleAt(ls: seq<Point>, s: Line, k: nat): real
    requires Good(ls, s) && Interior(s, k)
  {
    DoubleTriangleArea(ls, s.path[k - 1], s.path[k], s.path[k + 1])
  }

  /** std::max. */
  function AtLeast(area: real, least: Area): Area {
    match least
    case Infinite => Infinite
    case Finite(a) => Finite(if area < a then a else area)
  }

  /** Without the k-th point left; its neighbours' areas are taken anew, but never below
      its own. */
  ghost function Without(ls: seq<Point>, s: Line, k: nat): (r: Line)
    requires Good(ls, s) && Interior(s, k)
  {
    var least := s.area[s.path[k]];
    var previous, next := s.path[k - 1], s.path[k + 1];
    var area := if k - 1 > 0
                then s.area[previous := AtLeast(DoubleTriangleArea(ls, s.path[k - 2], previous, next), least)] else s.area;
    Line(s.path[..k] + s.path[k + 1..],
         if k + 2 < |s.path| then area[next := AtLeast(DoubleTriangleArea(ls, previous, next, s.path[k + 2]), least)] else area)
  }

  /** The point has the least recorded area, not above the threshold, and there are more
      points than must be retained. */
  ghost predicate Removable(ls: seq<Point>, threshold: real, retain: nat, s: Line, k: nat)
    requires Good(ls, s)
  {
    && Interior(s, k) && |s.path| > retain
    && Leq(s.area[s.path[k]], Finite(threshold))
    && (forall j :: 0 <= j < |s.path| ==> Leq(s.area[s.path[k]], s.area[s.path[j]]))
  }

  ghost predicate Stops(ls: seq<Point>, threshold: real, retain: nat, s: Line)
    requires Good(ls, s)
  {
    |s.path| <= retain || forall j :: 0 <= j < |s.path| ==> Less(Finite(threshold), s.area[s.path[j]])
  }

  /** A run removes point ks[i] of the points left at step i. */
  ghost predicate IsRun(ls: seq<Point>, threshold: real, retain: nat, states: seq<Line>, ks: seq<nat>) {
    && |states| == |ks| + 1 && states[0] == Initial(ls)
    && forall i :: 0 <= i < |ks| ==> IsStep(ls, threshold, retain, states[i], ks[i], states[i + 1])
  }

  ghost predicate IsStep(ls: seq<Point>, threshold: real, retain: nat, s: Line, k: nat, t: Line) {
    Good(ls, s) && Removable(ls, threshold, retain, s, k) && t == Without(ls, s, k)
  }

  ghost function Points(ls: seq<Point>, s: Line): (r: seq<Point>)
    requires Good(ls, s)
    ensures |r| == |s.path|
  {
    seq(|s.path|, k requires 0 <= k < |s.path| => ls[s.path[k]])
  }

  lemma InitialIsGood(ls: seq<Point>)
    requires |ls| >= 2
    ensures Good(ls, Initial(ls))
  {
  }

  /** Places in the path after a removal. */
  lemma PathWithout(path: seq<nat>, k: nat)
    requires k < |path|
    ensures var p := path[..k] + path[k + 1..];
            |p| == |path| - 1 && forall j :: 0 <= j < |p| ==> p[j] == if j < k then path[j] else path[j + 1]
  {
  }

  /** The recorded areas after a removal. */
  lemma AreasWithout(ls: seq<Point>, s: Line, k: nat, j: nat)
    requires Good(ls, s) && Interior(s, k) && j < |s.path| && j != k
    ensures var least := s.area[s.path[k]];
            |Without(ls, s, k).area| == |s.area| &&
            Without(ls, s, k).area[s.path[j]] ==
              if j == k - 1 && 0 < j then AtLeast(DoubleTriangleArea(ls, s.path[j - 1], s.path[j], s.path[k + 1]), least)
              else if j == k + 1 && j + 1 < |s.path| then AtLeast(DoubleTriangleArea(ls, s.path[k - 1], s.path[j], s.path[j + 1]), least)
              else s.area[s.path[j]]
  {
    hide DoubleTriangleArea;
  }

  lemma WithoutIsGood(ls: seq<Point>, s: Line, k: nat)
    requires Good(ls, s) && Interior(s, k)
    ensures Good(ls, Without(ls, s, k))
  {
    hide DoubleTriangleArea;
    hide Without;
    var t := Without(ls, s, k);
    WithoutPath(ls, s, k);
    PathWithout(s.path, k);
    AreasWithout(ls, s, k, 0);
    forall j | 0 <= j < |t.path| ensures t.path[j] < |ls| && (t.area[t.path[j]].Finite? <==> 0 < j < |t.path| - 1) {
      AreasWithout(ls, s, k, if j < k then j else j + 1);
    }
  }

  // ----- What every run keeps -----

  /** The area of the point removed last. */
  ghost function LastArea(states: seq<Line>, ks: seq<nat>, i: nat): Area
    requires 0 < i <= |ks| && |states| == |ks| + 1 && ks[i - 1] < |states[i - 1].path|
    requires states[i - 1].path[ks[i - 1]] < |states[i - 1].area|
  {
    states[i - 1].area[states[i - 1].path[ks[i - 1]]]
  }

  /** A recorded area is never below the triangle's, and exceeds it only up to an area
      that was removed. */
  ghost predicate Recorded(ls: seq<Point>, s: Line, last: Area)
    requires Good(ls, s)
  {
    forall k :: 0 < k && Interior(s, k) ==> RecordedAt(ls, s, last, k)
  }

  ghost predicate RecordedAt(ls: seq<Point>, s: Line, last: Area, k: nat)
    requires Good(ls, s) && Interior(s, k)
  {
    var area := s.area[s.path[k]];
    Leq(last, area) && Leq(Finite(TriangleAt(ls, s, k)), area) && (area == Finite(TriangleAt(ls, s, k)) || Leq(area, last))
  }

  lemma RecordedKept(ls: seq<Point>, threshold: real, retain: nat, s: Line, k: nat, last: Area)
    requires Good(ls, s) && Removable(ls, threshold, retain, s, k) && Recorded(ls, s, last)
    ensures Good(ls, Without(ls, s, k)) && Recorded(ls, Without(ls, s, k), s.area[s.path[k]])
    ensures Leq(last, s.area[s.path[k]])
  {
    hide RecordedAt;
    hide Good;
    hide Without;
    var t := Without(ls, s, k);
    WithoutIsGood(ls, s, k);
    forall j | 0 < j && Interior(t, j) ensures RecordedAt(ls, t, LeastArea(ls, s, k), j) {
      RecordedKeptAt(ls, threshold, retain, s, k, last, j);
    }
    LastIsLess(ls, s, k, last);
  }

  ghost function LeastArea(ls: seq<Point>, s: Line, k: nat): Area
    requires Good(ls, s) && Interior(s, k)
  {
    s.area[s.path[k]]
  }

  lemma LastIsLess(ls: seq<Point>, s: Line, k: nat, last: Area)
    requires Good(ls, s) && Interior(s, k) && Recorded(ls, s, last)
    ensures Leq(last, s.area[s.path[k]])
  {
    assert RecordedAt(ls, s, last, k);
  }

  lemma RecordedKeptAt(ls: seq<Point>, threshold: real, retain: nat, s: Line, k: nat, last: Area, j: nat)
    requires Good(ls, s) && Removable(ls, threshold, retain, s, k) && Recorded(ls, s, last)
    requires Good(ls, Without(ls, s, k)) && 0 < j && Interior(Without(ls, s, k), j)
    ensures RecordedAt(ls, Without(ls, s, k), s.area[s.path[k]], j)
  {
    hide DoubleTriangleArea;
    hide Without;
    hide TriangleAt;
    hide Good;
    var i := if j < k then j else j + 1;
    TrianglesWithout(ls, s, k, j);
    AreasWithout(ls, s, k, i);
    assert RecordedAt(ls, s, last, i) && RecordedAt(ls, s, last, k);
  }

  lemma TrianglesWithout(ls: seq<Point>, s: Line, k: nat, j: nat)
    requires Good(ls, s) && Interior(s, k) && Good(ls, Without(ls, s, k)) && 0 < j && Interior(Without(ls, s, k), j)
    ensures var i := if j < k then j else j + 1;
            Interior(s, i) && Without(ls, s, k).path[j] == s.path[i] &&
            TriangleAt(ls, Without(ls, s, k), j) ==
              if i == k - 1 then DoubleTriangleArea(ls, s.path[i - 1], s.path[i], s.path[k + 1])
              else if i == k + 1 then DoubleTriangleArea(ls, s.path[k - 1], s.path[i], s.path[i + 1])
              else TriangleAt(ls, s, i)
    ensures |s.area| == |ls| == |Without(ls, s, k).area|
    ensures forall i :: 0 <= i < |s.path| ==> s.path[i] < |ls|
  {
    hide DoubleTriangleArea;
    hide Without;
    WithoutPath(ls, s, k);
    PathWithout(s.path, k);
    PlaceBefore(s.path, k, j);
    PlaceBefore(s.path, k, j + 2);
  }

  lemma WithoutPath(ls: seq<Point>, s: Line, k: nat)
    requires Good(ls, s) && Interior(s, k)
    ensures Without(ls, s, k).path == s.path[..k] + s.path[k + 1..]
  {
    hide DoubleTriangleArea;
  }

  lemma {:induction false} RunKeeps(ls: seq<Point>, threshold: real, retain: nat, states: seq<Line>, ks: seq<nat>, i: nat)
    requires |ls| >= 2 && IsRun(ls, threshold, retain, states, ks) && i < |states|
    ensures Good(ls, states[i]) && |states[i].path| == |ls| - i
    ensures i > 0 ==> retain <= |states[i].path| && IsStep(ls, threshold, retain, states[i - 1], ks[i - 1], states[i])
    ensures i > 0 ==> Recorded(ls, states[i], LastArea(states, ks, i)) && Leq(LastArea(states, ks, i), Finite(threshold))
    ensures i == 0 ==> Recorded(ls, states[i], Finite(0.0))
    ensures i > 1 ==> Leq(LastArea(states, ks, i - 1), LastArea(states, ks, i))
  {
    hide DoubleTriangleArea;
    hide Without;
    hide Recorded;
    if i == 0 {
      InitialIsGood(ls);
      InitialRecorded(ls);
    } else {
      RunKeeps(ls, threshold, retain, states, ks, i - 1);
      assert IsStep(ls, threshold, retain, states[i - 1], ks[i - 1], states[i]);
      RecordedKept(ls, threshold, retain, states[i - 1], ks[i - 1], if i == 1 then Finite(0.0) else LastArea(states, ks, i - 1));
      WithoutPath(ls, states[i - 1], ks[i - 1]);
    }
  }

  lemma InitialRecorded(ls: seq<Point>)
    requires |ls| >= 2 && Good(ls, Initial(ls))
    ensures Recorded(ls, Initial(ls), Finite(0.0))
  {
    hide DoubleTriangleArea;
  }

  /** Points are removed in the order of their areas. */
  lemma {:induction false} AreasAscend(ls: seq<Point>, threshold: real, retain: nat, states: seq<Line>, ks: seq<nat>, i: nat, j: nat)
    requires |ls| >= 2 && IsRun(ls, threshold, retain, states, ks) && 0 < i <= j <= |ks|
    ensures Good(ls, states[i - 1]) && Good(ls, states[j - 1]) && ks[i - 1] < |states[i - 1].path| && ks[j - 1] < |states[j - 1].path|
    ensures Leq(LastArea(states, ks, i), LastArea(states, ks, j))
    decreases j - i
  {
    hide Without;
    RunKeeps(ls, threshold, retain, states, ks, j);
    if i < j {
      AreasAscend(ls, threshold, retain, states, ks, i, j - 1);
    }
  }

  /** Where more points are left than had to be, every one between the ends spans with
      its neighbours a triangle above the threshold. */
  lemma SurvivorsExceed(ls: seq<Point>, threshold: real, retain: nat, states: seq<Line>, ks: seq<nat>, k: nat)
    requires |ls| >= 2 && IsRun(ls, threshold, retain, states, ks)
    requires Good(ls, states[|ks|]) && Stops(ls, threshold, retain, states[|ks|]) && |states[|ks|].path| > retain
    requires Interior(states[|ks|], k) && threshold >= 0.0
    ensures TriangleAt(ls, states[|ks|], k) > threshold
  {
    hide DoubleTriangleArea;
    hide Without;
    hide IsRun;
    StepsCount(ls, threshold, retain, states, ks);
    RunKeeps(ls, threshold, retain, states, ks, |ks|);
    var s := states[|ks|];
    assert Less(Finite(threshold), s.area[s.path[k]]);
  }

  // ----- How it computes it -----

  /** next and previous link the points left; -1 stands for a null pointer. */
  ghost predicate Links(path: seq<nat>, next: seq<int>, previous: seq<int>) {
    forall k :: 0 <= k < |path| ==> LinkAt(path, next, previous, k)
  }

  ghost predicate LinkAt(path: seq<nat>, next: seq<int>, previous: seq<int>, k: nat)
    requires k < |path|
  {
    && path[k] < |next| && path[k] < |previous|
    && next[path[k]] == (if k + 1 < |path| then path[k + 1] else -1)
    && previous[path[k]] == if k > 0 then path[k - 1] else -1
  }

  ghost predicate Ascends(path: seq<nat>) {
    forall j, k :: 0 <= j < k < |path| ==> path[j] < path[k]
  }

  lemma LinksWithout(path: seq<nat>, next: seq<int>, previous: seq<int>, k: nat)
    requires Links(path, next, previous) && Ascends(path) && 0 < k && k + 1 < |path|
    requires LinkAt(path, next, previous, k - 1) && LinkAt(path, next, previous, k + 1)
    ensures Links(path[..k] + path[k + 1..], next[path[k - 1] := path[k + 1]], previous[path[k + 1] := path[k - 1]])
  {
    var p, next', previous' := path[..k] + path[k + 1..], next[path[k - 1] := path[k + 1]], previous[path[k + 1] := path[k - 1]];
    forall j | 0 <= j < |p| ensures LinkAt(p, next', previous', j) {
      LinksAt(path, next, previous, k, if j < k then j else j + 1);
      PlaceAt(path, k, j);
      if j > 0 {
        PlaceAt(path, k, j - 1);
      }
      if j + 1 < |p| {
        PlaceAt(path, k, j + 1);
      }
    }
  }

  /** The links at a point that stays. */
  lemma LinksAt(path: seq<nat>, next: seq<int>, previous: seq<int>, k: nat, i: nat)
    requires Links(path, next, previous) && Ascends(path) && 0 < k && k + 1 < |path| && i < |path| && i != k
    ensures path[i] < |next| && path[i] < |previous| && path[k - 1] < |next| && path[k + 1] < |previous|
    ensures next[path[k - 1] := path[k + 1]][path[i]] ==
      if i == k - 1 then path[k + 1] else if i + 1 < |path| then path[i + 1] else -1
    ensures previous[path[k + 1] := path[k - 1]][path[i]] ==
      if i == k + 1 then path[k - 1] else if i > 0 then path[i - 1] else -1
  {
    assert LinkAt(path, next, previous, i) && LinkAt(path, next, previous, k - 1) && LinkAt(path, next, previous, k + 1);
    assert i < k - 1 ==> path[i] < path[k - 1];
    assert k - 1 < i ==> path[k - 1] < path[i];
    assert i < k + 1 ==> path[i] < path[k + 1];
    assert k + 1 < i ==> path[k + 1] < path[i];
  }

  lemma PlaceAt(path: seq<nat>, k: nat, j: nat)
    requires k < |path| && j + 1 < |path|
    ensures (path[..k] + path[k + 1..])[j] == path[if j < k then j else j + 1]
  {
  }

  lemma PlaceBefore(path: seq<nat>, k: nat, j: nat)
    requires 0 < k < |path| && j <= |path| - 1
    ensures j > 0 ==> (path[..k] + path[k + 1..])[j - 1] == if j <= k then path[j - 1] else path[j]
  {
  }

  ghost predicate HeapHolds(h: seq<nat>, path: seq<nat>) {
    forall x :: x in h <==> x in path
  }

  /** The heap with the initial areas, and the links. */
  method Build(ls: seq<Point>) returns (heap: MinHeap, next: seq<int>, previous: seq<int>)
    requires |ls| >= 2
    ensures fresh(heap) && heap.Valid() && heap.area == Initial(ls).area
    ensures HeapHolds(heap.h, Initial(ls).path) && Links(Initial(ls).path, next, previous)
  {
    hide DoubleTriangleArea;
    heap := new MinHeap(|ls|);
    next, previous := seq(|ls|, _ => -1), seq(|ls|, _ => -1);
    heap.area := heap.area[0 := Infinite];
    EmptyInOrder(heap.area);
    heap.Push(0);
    var last := 0;
    for i := 1 to |ls| - 1
      invariant heap.Valid() && |heap.area| == |next| == |previous| == |ls| && fresh(heap)
      invariant last == i - 1
      invariant forall x :: x in heap.h <==> 0 <= x < i
      invariant forall k :: 0 <= k < i ==> heap.area[k] == Initial(ls).area[k]
      invariant forall k :: 0 <= k < i ==> next[k] == (if k + 1 < i then k + 1 else -1) && previous[k] == if k > 0 then k - 1 else -1
      invariant forall k :: i <= k < |ls| ==> next[k] == -1
    {
      SetArea(heap, i, Finite(DoubleTriangleArea(ls, i - 1, i, i + 1)));
      previous := previous[i := last];
      heap.Push(i);
      next := next[last := i];
      last := i;
    }
    var end := |ls| - 1;
    SetArea(heap, end, Infinite);
    previous := previous[end := last];
    next := next[last := end];
    heap.Push(end);
    assert heap.area == Initial(ls).area;
    Indices(ls);
    InitialLinks(ls, next, previous);
  }

  lemma InitialLinks(ls: seq<Point>, next: seq<int>, previous: seq<int>)
    requires |next| == |previous| == |ls|
    requires forall k :: 0 <= k < |ls| ==> next[k] == (if k + 1 < |ls| then k + 1 else -1) && previous[k] == if k > 0 then k - 1 else -1
    ensures Links(Initial(ls).path, next, previous)
  {
    hide DoubleTriangleArea;
  }

  lemma Indices(ls: seq<Point>)
    ensures forall x :: x in Initial(ls).path <==> 0 <= x < |ls|
  {
    forall x: nat | x < |ls| ensures x in Initial(ls).path {
      assert Initial(ls).path[x] == x;
    }
  }

  lemma EmptyInOrder(area: seq<Area>)
    ensures Ordered([], area)
  {
  }

  /** An item's area is set before it is pushed. */
  method SetArea(heap: MinHeap, item: nat, area: Area)
    requires heap.Valid() && item < |heap.area| && item !in heap.h
    modifies heap`area
    ensures heap.Valid() && heap.area == old(heap.area)[item := area]
  {
    AreaOutside(heap.h, heap.area, item, area);
    heap.area := heap.area[item := area];
  }

  lemma AreaOutside(h: seq<nat>, area: seq<Area>, item: nat, value: Area)
    requires Ordered(h, area) && item < |area| && item !in h
    ensures Ordered(h, area[item := value])
  {
    var a := area[item := value];
    forall k | 0 < k < |h| ensures InOrder(h, a, k) {
      assert InOrder(h, area, k);
    }
  }

  /** The output is what a finished run leaves. */
  ghost predicate Finishes(ls: seq<Point>, threshold: real, retain: nat, states: seq<Line>, ks: seq<nat>, output: seq<Point>) {
    && IsRun(ls, threshold, retain, states, ks)
    && Good(ls, states[|ks|]) && Stops(ls, threshold, retain, states[|ks|]) && output == Points(ls, states[|ks|])
  }

  ghost predicate IsLeft(ls: seq<Point>, threshold: real, retain: nat, output: seq<Point>) {
    exists states: seq<Line>, ks: seq<nat> :: Finishes(ls, threshold, retain, states, ks, output)
  }

  method Visvalingam(ls: seq<Point>, maxArea: real, retain: nat) returns (output: seq<Point>)
    requires |ls| >= 2
    ensures IsLeft(ls, maxArea * 2.0, retain, output)
  {
    hide DoubleTriangleArea;
    hide Without;
    hide Links;
    hide Good;
    hide HeapHolds;
    hide Stops;
    hide Removable;
    var threshold := maxArea * 2.0;
    var heap, next, previous := Build(ls);
    var removed := 0;
    ghost var s := Initial(ls);
    ghost var states, ks: seq<nat> := [s], [];
    InitialIsGood(ls);
    NeverEmpty(ls, s, heap.h);
    while |heap.h| > 0
      invariant heap.Valid() && |heap.h| > 0 && heap.area == s.area && HeapHolds(heap.h, s.path) && fresh(heap)
      invariant Good(ls, s) && Links(s.path, next, previous) && removed == |ls| - |s.path|
      invariant IsRun(ls, threshold, retain, states, ks) && s == states[|ks|]
      decreases |heap.h|
    {
      ghost var was := heap.h;
      var current := heap.Pop();
      ghost var k := PlaceOf(ls, s, was, current);
      if Less(Finite(threshold), heap.area[current]) {
        AllAbove(ls, threshold, retain, s, was, current);
        break;
      } else if |ls| - removed <= retain {
        FewLeft(ls, threshold, retain, s);
        break;
      }
      CanRemove(ls, threshold, retain, s, was, k);
      WithoutIsGood(ls, s, k);
      Unlinked(ls, s, next, previous, k);
      var nextItem: nat, previousItem: nat := next[current], previous[current];
      // Remove the current element from the linked list.
      next := next[previousItem := next[current]];
      previous := previous[nextItem := previous[current]];
      removed := removed + 1;
      HeapWithout(ls, s, was, heap.h, k);
      WithoutIs(ls, s, k);
      ghost var rest := Without(ls, s, k);
      ghost var h := heap.h;
      if previous[previousItem] != -1 {
        var area := DoubleTriangleArea(ls, previous[previousItem], previousItem, nextItem);
        heap.Update(previousItem, AtLeast(area, heap.area[current]));
        HeapSame(heap.h, h, rest.path);
        h := heap.h;
      }
      if next[nextItem] != -1 {
        var area := DoubleTriangleArea(ls, previousItem, nextItem, next[nextItem]);
        heap.Update(nextItem, AtLeast(area, heap.area[current]));
        HeapSame(heap.h, h, rest.path);
      }
      RunLonger(ls, threshold, retain, states, ks, k);
      s := rest;
      NeverEmpty(ls, s, heap.h);
      states, ks := states + [s], ks + [k];
    }
    output := Output(ls, next, previous, s);
    assert Finishes(ls, threshold, retain, states, ks, output);
  }

  method Output(ls: seq<Point>, next: seq<int>, previous: seq<int>, ghost s: Line) returns (output: seq<Point>)
    requires Good(ls, s) && Links(s.path, next, previous)
    ensures output == Points(ls, s)
  {
    output := [];
    var item := 0;
    ghost var k := 0;
    while item != -1
      invariant 0 <= k <= |s.path| && item == if k < |s.path| then s.path[k] else -1
      invariant |output| == k && forall j :: 0 <= j < k ==> output[j] == ls[s.path[j]]
      decreases |s.path| - k
    {
      assert LinkAt(s.path, next, previous, k);
      output := output + [ls[item]];
      item := next[item];
      k := k + 1;
    }
  }

  // ----- The steps of the loop -----

  lemma NeverEmpty(ls: seq<Point>, s: Line, h: seq<nat>)
    requires Good(ls, s) && HeapHolds(h, s.path)
    ensures |h| > 0
  {
    assert s.path[0] in h;
  }

  lemma PlaceOf(ls: seq<Point>, s: Line, h: seq<nat>, x: nat) returns (k: nat)
    requires Good(ls, s) && HeapHolds(h, s.path) && x in h
    ensures k < |s.path| && s.path[k] == x
  {
    k :| 0 <= k < |s.path| && s.path[k] == x;
  }

  lemma AllAbove(ls: seq<Point>, threshold: real, retain: nat, s: Line, h: seq<nat>, x: nat)
    requires Good(ls, s) && HeapHolds(h, s.path) && x < |s.area| && Less(Finite(threshold), s.area[x])
    requires forall y :: y in h ==> y < |s.area| && Leq(s.area[x], s.area[y])
    ensures Stops(ls, threshold, retain, s)
  {
    forall j | 0 <= j < |s.path| ensures Less(Finite(threshold), s.area[s.path[j]]) {
      assert s.path[j] in h;
    }
  }

  lemma FewLeft(ls: seq<Point>, threshold: real, retain: nat, s: Line)
    requires Good(ls, s) && |s.path| <= retain
    ensures Stops(ls, threshold, retain, s)
  {
  }

  lemma CanRemove(ls: seq<Point>, threshold: real, retain: nat, s: Line, h: seq<nat>, k: nat)
    requires Good(ls, s) && HeapHolds(h, s.path) && k < |s.path| && |s.path| > retain
    requires forall y :: y in h ==> y < |s.area| && Leq(s.area[s.path[k]], s.area[y])
    requires !Less(Finite(threshold), s.area[s.path[k]])
    ensures Interior(s, k) && Removable(ls, threshold, retain, s, k)
  {
    forall j | 0 <= j < |s.path| ensures Leq(s.area[s.path[k]], s.area[s.path[j]]) {
      assert s.path[j] in h;
    }
  }

  /** The links before and after the k-th point left is taken out. */
  lemma Unlinked(ls: seq<Point>, s: Line, next: seq<int>, previous: seq<int>, k: nat)
    requires Good(ls, s) && Interior(s, k) && Links(s.path, next, previous)
    ensures var c, p, q := s.path[k], s.path[k - 1], s.path[k + 1];
            c < |next| && p < |next| && q < |next| && c < |previous| && p < |previous| && q < |previous| &&
            p < |ls| && q < |ls| && p != c && q != c && p != q && next[c] == q && previous[c] == p &&
            var next', previous' := next[p := q], previous[q := p];
            Links(s.path[..k] + s.path[k + 1..], next', previous') &&
            previous'[p] == (if k - 1 > 0 then s.path[k - 2] else -1) && previous'[p] < |ls| &&
            next'[q] == (if k + 2 < |s.path| then s.path[k + 2] else -1) && next'[q] < |ls|
  {
    assert LinkAt(s.path, next, previous, k) && LinkAt(s.path, next, previous, k - 1) && LinkAt(s.path, next, previous, k + 1);
    LinksWithout(s.path, next, previous, k);
  }

  /** One turn of the definition. */
  lemma WithoutIs(ls: seq<Point>, s: Line, k: nat)
    requires Good(ls, s) && Interior(s, k)
    ensures var least := s.area[s.path[k]];
            var p, q := s.path[k - 1], s.path[k + 1];
            var area := if k - 1 > 0 then s.area[p := AtLeast(DoubleTriangleArea(ls, s.path[k - 2], p, q), least)] else s.area;
            Without(ls, s, k) == Line(s.path[..k] + s.path[k + 1..],
              if k + 2 < |s.path| then area[q := AtLeast(DoubleTriangleArea(ls, p, q, s.path[k + 2]), least)] else area)
    ensures |s.area| == |ls| && 2 <= |s.path| <= |ls| && |Without(ls, s, k).path| == |s.path| - 1
  {
    hide DoubleTriangleArea;
  }

  lemma HeapWithout(ls: seq<Point>, s: Line, was: seq<nat>, h: seq<nat>, k: nat)
    requires Good(ls, s) && Interior(s, k) && HeapHolds(was, s.path)
    requires forall x :: x in h <==> x in was && x != s.path[k]
    ensures HeapHolds(h, Without(ls, s, k).path)
    ensures s.path[k - 1] in h && s.path[k + 1] in h
  {
    hide Without;
    WithoutPath(ls, s, k);
    forall x ensures x in s.path[..k] + s.path[k + 1..] <==> x in s.path && x != s.path[k] {
      InWithout(s.path, k, x);
    }
  }

  lemma InWithout(path: seq<nat>, k: nat, x: nat)
    requires Ascends(path) && k < |path|
    ensures x in path[..k] + path[k + 1..] <==> x in path && x != path[k]
  {
    if j: nat :| j < |path| && path[j] == x && j != k {
      assert (path[..k] + path[k + 1..])[if j < k then j else j - 1] == x;
    }
  }

  lemma HeapSame(a: seq<nat>, b: seq<nat>, path: seq<nat>)
    requires SameItems(a, b) && HeapHolds(b, path)
    ensures HeapHolds(a, path)
  {
  }

  lemma RunLonger(ls: seq<Point>, threshold: real, retain: nat, states: seq<Line>, ks: seq<nat>, k: nat)
    requires IsRun(ls, threshold, retain, states, ks)
    requires Good(ls, states[|ks|]) && Removable(ls, threshold, retain, states[|ks|], k)
    ensures Interior(states[|ks|], k)
    ensures IsRun(ls, threshold, retain, states + [Without(ls, states[|ks|], k)], ks + [k])
  {
    hide Without;
    hide Good;
    var states', ks' := states + [Without(ls, states[|ks|], k)], ks + [k];
    forall i | 0 <= i < |ks'| ensures IsStep(ls, threshold, retain, states'[i], ks'[i], states'[i + 1]) {
      assert i < |ks| ==> IsStep(ls, threshold, retain, states[i], ks[i], states[i + 1]);
    }
  }

  // ----- Its callers -----

  /** A line keeps its ends; its points come in order; no fewer are left than must be
      retained; and what could still be removed lies above the threshold. */
  ghost predicate Simplifies(ls: seq<Point>, threshold: real, retain: nat, path: seq<nat>) {
    && 2 <= |path| && Ascends(path) && path[0] == 0 && path[|path| - 1] == |ls| - 1
    && (forall k :: 0 <= k < |path| ==> path[k] < |ls|)
    && (|path| == |ls| || retain <= |path|)
    && (|path| > retain ==> forall k :: 0 < k < |path| - 1 ==> DoubleTriangleArea(ls, path[k - 1], path[k], path[k + 1]) > threshold)
  }

  /** The points of the output are those at the places of the path. */
  ghost predicate PicksOut(ls: seq<Point>, path: seq<nat>, output: seq<Point>) {
    |output| == |path| && forall k :: 0 <= k < |path| ==> path[k] < |ls| && output[k] == ls[path[k]]
  }

  lemma RunSimplifies(ls: seq<Point>, threshold: real, retain: nat, states: seq<Line>, ks: seq<nat>)
    requires |ls| >= 2 && IsRun(ls, threshold, retain, states, ks) && threshold >= 0.0
    requires Good(ls, states[|ks|]) && Stops(ls, threshold, retain, states[|ks|])
    ensures Simplifies(ls, threshold, retain, states[|ks|].path)
  {
    hide DoubleTriangleArea;
    hide Without;
    hide IsRun;
    hide Stops;
    StepsCount(ls, threshold, retain, states, ks);
    var s := states[|ks|];
    RunKeeps(ls, threshold, retain, states, ks, |ks|);
    if |s.path| > retain {
      forall k | 0 < k < |s.path| - 1
        ensures DoubleTriangleArea(ls, s.path[k - 1], s.path[k], s.path[k + 1]) > threshold
      {
        SurvivorsExceed(ls, threshold, retain, states, ks, k);
        assert TriangleAt(ls, s, k) > threshold;
      }
    }
  }

  lemma StepsCount(ls: seq<Point>, threshold: real, retain: nat, states: seq<Line>, ks: seq<nat>)
    requires IsRun(ls, threshold, retain, states, ks)
    ensures |states| == |ks| + 1
  {
  }

  /** The output is such a choice of the line's points. */
  ghost predicate IsSimplified(ls: seq<Point>, threshold: real, retain: nat, output: seq<Point>) {
    exists path: seq<nat> :: Simplifies(ls, threshold, retain, path) && PicksOut(ls, path, output)
  }

  lemma LeftIsSimplified(ls: seq<Point>, threshold: real, retain: nat, output: seq<Point>)
    requires |ls| >= 2 && threshold >= 0.0 && IsLeft(ls, threshold, retain, output)
    ensures IsSimplified(ls, threshold, retain, output)
  {
    hide IsRun, Stops, Simplifies;
    var states: seq<Line>, ks: seq<nat> :| Finishes(ls, threshold, retain, states, ks, output);
    StepsCount(ls, threshold, retain, states, ks);
    RunSimplifies(ls, threshold, retain, states, ks);
    assert PicksOut(ls, states[|ks|].path, output);
  }

  /** Where more points are left than had to be, each lies off the line through its
      neighbours: its distance from it times their distance exceeds the threshold. */
  ghost predicate NoneFlat(threshold: real, retain: nat, output: seq<Point>) {
    |output| > retain ==> forall k :: 0 < k < |output| - 1 ==> Spans(output[k - 1], output[k], output[k + 1], threshold)
  }

  lemma SimplifiedSpans(ls: seq<Point>, threshold: real, retain: nat, output: seq<Point>)
    requires threshold >= 0.0 && IsSimplified(ls, threshold, retain, output)
    ensures NoneFlat(threshold, retain, output)
  {
    hide Spans, DoubleArea;
    var path: seq<nat> :| Simplifies(ls, threshold, retain, path) && PicksOut(ls, path, output);
    if |output| > retain {
      forall k | 0 < k < |output| - 1 ensures Spans(output[k - 1], output[k], output[k + 1], threshold) {
        assert DoubleTriangleArea(ls, path[k - 1], path[k], path[k + 1]) > threshold;
        SpansIs(output[k - 1], output[k], output[k + 1], threshold);
      }
    }
  }

  /** Of a straight line, with points in any order along it, only the ends are left. */
  lemma StraightIsEnds(ls: seq<Point>, threshold: real, output: seq<Point>)
    requires |ls| >= 2 && threshold >= 0.0 && IsSimplified(ls, threshold, 2, output)
    requires forall k :: 0 <= k < |ls| ==> OnLine(ls[0], ls[k], ls[|ls| - 1])
    ensures output == [ls[0], ls[|ls| - 1]]
  {
    hide OnLine, DoubleArea;
    var path: seq<nat> :| Simplifies(ls, threshold, 2, path) && PicksOut(ls, path, output);
    if |path| > 2 {
      OneLine(ls[0], ls[|ls| - 1], ls[path[0]], ls[path[1]], ls[path[2]]);
      FirstExceeds(ls, threshold, 2, path);
      assert false;
    }
  }

  lemma FirstExceeds(ls: seq<Point>, threshold: real, retain: nat, path: seq<nat>)
    requires Simplifies(ls, threshold, retain, path) && |path| > retain && |path| > 2
    ensures path[0] < |ls| && path[1] < |ls| && path[2] < |ls| && DoubleArea(ls[path[0]], ls[path[1]], ls[path[2]]) > threshold
  {
    assert DoubleTriangleArea(ls, path[1 - 1], path[1], path[1 + 1]) > threshold;
  }

  /** Short lines stay; a closed one keeps three points at least. */
  method SimplifyVis(ls: seq<Point>, maxDistance: real) returns (output: seq<Point>)
    ensures |ls| < 3 ==> output == ls
    ensures |ls| >= 3 ==>
      var threshold, retain := maxDistance * maxDistance * 4.0 * 2.0, if ls[0] == ls[|ls| - 1] then 3 else 2;
      IsLeft(ls, threshold, retain, output) && IsSimplified(ls, threshold, retain, output) && NoneFlat(threshold, retain, output)
  {
    hide *;
    if |ls| < 3 {
      return ls;
    }
    var isClosed := ls[0].x == ls[|ls| - 1].x && ls[0].y == ls[|ls| - 1].y;
    var threshold := maxDistance * maxDistance * 4.0;
    output := Visvalingam(ls, threshold, if isClosed then 3 else 2);
    Square(maxDistance);
    LeftIsSimplified(ls, threshold * 2.0, if isClosed then 3 else 2, output);
    SimplifiedSpans(ls, threshold * 2.0, if isClosed then 3 else 2, output);
  }

  lemma Square(d: real)
    ensures d * d >= 0.0
  {
  }
}
