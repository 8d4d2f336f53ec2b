/** The indexed binary heap of the Visvalingam simplifier. An item is named by the number
    of its point; each item knows its place in the heap. */
module MinHeap {
  /** A triangle's area, or that of the ends of the line. */
  datatype Area = Finite(value: real) | Infinite

  predicate Leq(a: Area, b: Area) {
    b.Infinite? || (a.Finite? && a.value <= b.value)
  }

  predicate Less(a: Area, b: Area) {
    !Leq(b, a)
  }

  /** The order of the reals, and infinity after them. */
  lemma OrderOfAreas(a: Area, b: Area)
    ensures a.Finite? && b.Finite? ==> (Leq(a, b) <==> a.value <= b.value) && (Less(a, b) <==> a.value < b.value)
    ensures b.Infinite? ==> Leq(a, b) && (Less(a, b) <==> a.Finite?)
    ensures a.Infinite? && b.Finite? ==> !Leq(a, b)
  {
  }

  function Parent(k: nat): nat
    requires 0 < k
  {
    (k + 1) / 2 - 1
  }

  /** Each item of the heap is at its index. */
  ghost predicate Linked(h: seq<nat>, index: seq<nat>) {
    forall k :: 0 <= k < |h| ==> h[k] < |index| && index[h[k]] == k
  }

  ghost predicate AreasFor(h: seq<nat>, area: seq<Area>) {
    forall k :: 0 <= k < |h| ==> h[k] < |area|
  }

  ghost predicate InOrder(h: seq<nat>, area: seq<Area>, k: nat)
    requires 0 < k < |h| && AreasFor(h, area)
  {
    Leq(area[h[Parent(k)]], area[h[k]])
  }

  ghost predicate Ordered(h: seq<nat>, area: seq<Area>) {
    AreasFor(h, area) && forall k :: 0 < k < |h| ==> InOrder(h, area, k)
  }

  /** In order but for place i, which may be too small for its parent. */
  ghost predicate OrderedButUp(h: seq<nat>, area: seq<Area>, i: nat)
    requires i < |h|
  {
    && AreasFor(h, area)
    && (forall k :: 0 < k < |h| && k != i ==> InOrder(h, area, k))
    && (forall k :: 0 < k < |h| && Parent(k) == i && 0 < i ==> Leq(area[h[Parent(i)]], area[h[k]]))
  }

  /** In order but for place i, which may be too large for its children. */
  ghost predicate OrderedButDown(h: seq<nat>, area: seq<Area>, i: nat)
    requires i < |h|
  {
    && AreasFor(h, area)
    && (forall k :: 0 < k < |h| && Parent(k) != i ==> InOrder(h, area, k))
    && (forall k :: 0 < k < |h| && Parent(k) == i && 0 < i ==> Leq(area[h[Parent(i)]], area[h[k]]))
  }

  ghost predicate SameItems(a: seq<nat>, b: seq<nat>) {
    |a| == |b| && forall x :: x in a <==> x in b
  }

  function Swapped(h: seq<nat>, i: nat, j: nat): (r: seq<nat>)
    requires i < |h| && j < |h|
  {
    h[i := h[j]][j := h[i]]
  }

  lemma SwapKeeps(h: seq<nat>, index: seq<nat>, i: nat, j: nat)
    requires Linked(h, index) && i < |h| && j < |h|
    ensures SameItems(Swapped(h, i, j), h)
    ensures Linked(Swapped(h, i, j), index[h[j] := i][h[i] := j])
  {
    var s := Swapped(h, i, j);
    forall x | x in h ensures x in s {
      var k :| 0 <= k < |h| && h[k] == x;
      assert s[if k == i then j else if k == j then i else k] == x;
    }
    forall x | x in s ensures x in h {
    }
  }

  /** Swapping a place with its parent moves the fault up. */
  lemma UpStep(h: seq<nat>, area: seq<Area>, i: nat)
    requires 0 < i < |h| && OrderedButUp(h, area, i) && Less(area[h[i]], area[h[Parent(i)]])
    ensures OrderedButUp(Swapped(h, i, Parent(i)), area, Parent(i))
  {
    var p := Parent(i);
    var s := Swapped(h, i, p);
    forall k | 0 < k < |s| && k != p ensures InOrder(s, area, k) {
      if k != i {
        assert InOrder(h, area, k);
        if Parent(k) == p {
        } else if Parent(k) == i {
          assert Leq(area[h[p]], area[h[k]]);
        }
      }
    }
    forall k | 0 < k < |s| && Parent(k) == p && 0 < p ensures Leq(area[s[Parent(p)]], area[s[k]]) {
      assert InOrder(h, area, p);
      if k != i {
        assert InOrder(h, area, k);
      }
    }
  }

  lemma UpDone(h: seq<nat>, area: seq<Area>, i: nat)
    requires i < |h| && OrderedButUp(h, area, i)
    requires i == 0 || Leq(area[h[Parent(i)]], area[h[i]])
    ensures Ordered(h, area)
  {
    forall k | 0 < k < |h| ensures InOrder(h, area, k) {
    }
  }

  /** Swapping a place with its smaller child moves the fault down. */
  lemma DownStep(h: seq<nat>, area: seq<Area>, i: nat, c: nat)
    requires i < |h| && 0 < c < |h| && Parent(c) == i && OrderedButDown(h, area, i)
    requires Less(area[h[c]], area[h[i]])
    requires forall k :: 0 < k < |h| && Parent(k) == i ==> Leq(area[h[c]], area[h[k]])
    ensures OrderedButDown(Swapped(h, i, c), area, c)
  {
    var s := Swapped(h, i, c);
    forall k | 0 < k < |s| && Parent(k) != c ensures InOrder(s, area, k) {
      if Parent(k) == i {
        assert Leq(area[h[c]], area[h[k]]);
      } else if k == i {
        assert Leq(area[h[Parent(i)]], area[h[c]]);
      } else {
        assert InOrder(h, area, k);
      }
    }
    forall k | 0 < k < |s| && Parent(k) == c ensures Leq(area[s[Parent(c)]], area[s[k]]) {
      assert InOrder(h, area, k);
    }
  }

  lemma DownDone(h: seq<nat>, area: seq<Area>, i: nat)
    requires i < |h| && OrderedButDown(h, area, i)
    requires forall k :: 0 < k < |h| && Parent(k) == i ==> Leq(area[h[i]], area[h[k]])
    ensures Ordered(h, area)
  {
    forall k | 0 < k < |h| ensures InOrder(h, area, k) {
      if Parent(k) == i {
        assert Leq(area[h[i]], area[h[k]]);
      }
    }
  }

  lemma Children(i: nat, k: nat)
    requires 0 < k
    ensures Parent(k) == i <==> k == 2 * i + 1 || k == 2 * i + 2
  {
  }

  lemma {:induction false} RootIsLeast(h: seq<nat>, area: seq<Area>, k: nat)
    requires Ordered(h, area) && k < |h|
    ensures Leq(area[h[0]], area[h[k]])
  {
    if k > 0 {
      assert InOrder(h, area, k);
      RootIsLeast(h, area, Parent(k));
    }
  }

  class MinHeap {
    var h: seq<nat>
    // The items' areas and places.
    var area: seq<Area>
    var index: seq<nat>

    ghost predicate Valid()
      reads this
    {
      |area| == |index| && Linked(h, index) && Ordered(h, area)
    }

    constructor (n: nat)
      ensures Valid() && h == [] && |area| == n
    {
      h, area, index := [], seq(n, _ => Finite(0.0)), seq(n, _ => 0);
    }

    method Up(start: nat)
      requires |area| == |index| && Linked(h, index) && start < |h| && OrderedButUp(h, area, start)
      modifies this`h, this`index
      ensures Valid() && SameItems(h, old(h)) && |index| == old(|index|)
    {
      hide Linked;
      hide OrderedButUp;
      hide Ordered;
      hide SameItems;
      hide Parent;
      var i := start;
      SameAsItself(h);
      var moving := h[i];
      while i > 0
        invariant |area| == |index| && i < |h| && h[i] == moving && OrderedButUp(h, area, i)
        invariant Linked(h, index) && SameItems(h, old(h)) && |index| == old(|index|)
      {
        var up := ParentOf(i);
        InRange(h, index, area, i);
        InRange(h, index, area, up);
        var parent := h[up];
        if Leq(area[parent], area[moving]) {
          break;
        }
        UpStep(h, area, i);
        SwapKeeps(h, index, i, up);
        SameAgain(Swapped(h, i, up), h, old(h));
        index := index[parent := i];
        h := h[i := parent];
        index := index[moving := up];
        h := h[up := moving];
        i := up;
      }
      UpDone(h, area, i);
    }

    method Down(start: nat)
      requires |area| == |index| && Linked(h, index) && start < |h| && OrderedButDown(h, area, start)
      modifies this`h, this`index
      ensures Valid() && SameItems(h, old(h)) && |index| == old(|index|)
    {
      hide Linked;
      hide OrderedButDown;
      hide Ordered;
      hide SameItems;
      hide Parent;
      var i := start;
      SameAsItself(h);
      var moving := h[i];
      while true
        invariant |area| == |index| && i < |h| && h[i] == moving && OrderedButDown(h, area, i)
        invariant Linked(h, index) && SameItems(h, old(h)) && |index| == old(|index|)
        decreases |h| - i
      {
        var right := (i + 1) * 2;
        var left := right - 1;
        var down := i;
        InRange(h, index, area, i);
        var child := h[down];
        if left < |h| {
          InRange(h, index, area, left);
        }
        if right < |h| {
          InRange(h, index, area, right);
        }
        if left < |h| && Less(area[h[left]], area[child]) {
          down := left;
          child := h[down];
        }
        if right < |h| && Less(area[h[right]], area[child]) {
          down := right;
          child := h[down];
        }
        LeastOfThree(h, area, i, down);
        if down == i {
          break;
        }
        DownStep(h, area, i, down);
        SwapKeeps(h, index, i, down);
        SameAgain(Swapped(h, i, down), h, old(h));
        index := index[child := i];
        h := h[i := child];
        index := index[moving := down];
        h := h[down := moving];
        i := down;
      }
      DownDone(h, area, i);
    }

    method Push(item: nat)
      requires Valid() && item < |area| && item !in h
      modifies this`h, this`index
      ensures Valid() && |h| == old(|h|) + 1 && |index| == old(|index|)
      ensures forall x :: x in h <==> x in old(h) || x == item
    {
      hide Linked;
      hide Ordered;
      hide OrderedButUp;
      PushedLast(h, index, area, item);
      index := index[item := |h|];
      h := h + [item];
      Up(index[item]);
    }

    method Pop() returns (removed: nat)
      requires Valid() && |h| > 0
      modifies this`h, this`index
      ensures Valid() && |h| == old(|h|) - 1 && |index| == old(|index|)
      ensures removed in old(h) && removed < |area| && forall x :: x in h <==> x in old(h) && x != removed
      ensures forall x :: x in old(h) ==> x < |area| && Leq(area[removed], area[x])
    {
      hide Linked;
      hide Ordered;
      hide OrderedButDown;
      AllAtLeastRoot(h, area);
      LastMoved(h, index, area);
      removed := h[0];
      var lastItem := h[|h| - 1];
      h := h[..|h| - 1];
      if |h| > 0 {
        index := index[lastItem := 0];
        h := h[0 := lastItem];
        Down(0);
      }
    }

    method Update(item: nat, newArea: Area)
      requires Valid() && item in h
      modifies this
      ensures Valid() && SameItems(h, old(h)) && |index| == old(|index|)
      ensures item < old(|area|) && area == old(area)[item := newArea]
    {
      hide Linked;
      hide Ordered;
      hide OrderedButUp;
      hide OrderedButDown;
      hide SameItems;
      AtIndex(h, index, area, item);
      AreaChanged(h, area, index[item], newArea);
      if Less(newArea, area[item]) {
        area := area[item := newArea];
        Up(index[item]);
      } else {
        area := area[item := newArea];
        Down(index[item]);
      }
    }
  }

  method ParentOf(i: nat) returns (p: nat)
    requires 0 < i
    ensures p == Parent(i) < i
  {
    p := (i + 1) / 2 - 1;
  }

  lemma SameAsItself(h: seq<nat>)
    ensures SameItems(h, h)
  {
  }

  lemma SameAgain(a: seq<nat>, b: seq<nat>, c: seq<nat>)
    requires SameItems(a, b) && SameItems(b, c)
    ensures SameItems(a, c) && |a| == |b|
  {
  }

  lemma InRange(h: seq<nat>, index: seq<nat>, area: seq<Area>, k: nat)
    requires Linked(h, index) && |area| == |index| && k < |h|
    ensures h[k] < |area| && index[h[k]] == k && AreasFor(h, area)
  {
  }

  lemma LeastOfThree(h: seq<nat>, area: seq<Area>, i: nat, down: nat)
    requires i < |h| && AreasFor(h, area)
    requires down == i || (down < |h| && (down == 2 * i + 1 || down == 2 * i + 2) && Less(area[h[down]], area[h[i]]))
    requires 2 * i + 1 < |h| ==> Leq(area[h[down]], area[h[2 * i + 1]])
    requires 2 * i + 2 < |h| ==> Leq(area[h[down]], area[h[2 * i + 2]])
    ensures forall k :: 0 < k < |h| && Parent(k) == i ==> Leq(area[h[down]], area[h[k]])
    ensures down != i ==> 0 < down && Parent(down) == i
  {
    forall k | 0 < k < |h| && Parent(k) == i ensures Leq(area[h[down]], area[h[k]]) {
      Children(i, k);
    }
  }

  lemma PushedLast(h: seq<nat>, index: seq<nat>, area: seq<Area>, item: nat)
    requires Linked(h, index) && Ordered(h, area) && |area| == |index| && item < |area| && item !in h
    ensures Linked(h + [item], index[item := |h|]) && OrderedButUp(h + [item], area, |h|)
  {
    var s := h + [item];
    forall k | 0 < k < |s| && k != |h| ensures InOrder(s, area, k) {
      assert InOrder(h, area, k);
    }
    forall k | 0 < k < |s| && Parent(k) == |h| ensures false {
      Children(|h|, k);
    }
  }

  lemma AllAtLeastRoot(h: seq<nat>, area: seq<Area>)
    requires Ordered(h, area) && |h| > 0
    ensures forall x :: x in h ==> x < |area| && h[0] < |area| && Leq(area[h[0]], area[x])
  {
    forall x | x in h ensures Leq(area[h[0]], area[x]) {
      var k :| 0 <= k < |h| && h[k] == x;
      RootIsLeast(h, area, k);
    }
  }

  lemma LastMoved(h: seq<nat>, index: seq<nat>, area: seq<Area>)
    requires Linked(h, index) && Ordered(h, area) && |area| == |index| && |h| > 0
    ensures var n := |h| - 1;
            var last := h[n];
            last < |index| &&
            (n == 0 ==> Linked(h[..n], index) && Ordered(h[..n], area)) &&
            (n > 0 ==> var s := h[..n][0 := last];
               Linked(s, index[last := 0]) && OrderedButDown(s, area, 0) &&
               forall x :: x in s <==> x in h && x != h[0]) &&
            (n == 0 ==> forall x :: x in h <==> x == h[0])
  {
    var n := |h| - 1;
    var last := h[n];
    if n > 0 {
      var s := h[..n][0 := last];
      forall k | 0 < k < |s| && Parent(k) != 0 ensures InOrder(s, area, k) {
        assert InOrder(h, area, k);
      }
      forall x | x in h && x != h[0] ensures x in s {
        var k :| 0 <= k < |h| && h[k] == x;
        assert s[if k == n then 0 else k] == x;
      }
      forall x | x in s ensures x in h && x != h[0] {
        var k :| 0 <= k < |s| && s[k] == x;
        assert index[h[0]] == 0;
        assert h[if k == 0 then n else k] == x;
      }
    }
  }

  lemma AtIndex(h: seq<nat>, index: seq<nat>, area: seq<Area>, item: nat)
    requires Linked(h, index) && |area| == |index| && item in h
    ensures item < |index| && index[item] < |h| && h[index[item]] == item
    ensures forall k :: 0 <= k < |h| && k != index[item] ==> h[k] != item
  {
  }

  lemma AreaChanged(h: seq<nat>, area: seq<Area>, i: nat, newArea: Area)
    requires Ordered(h, area) && i < |h| && forall k :: 0 <= k < |h| && k != i ==> h[k] != h[i]
    ensures var a := area[h[i] := newArea];
            if Less(newArea, area[h[i]]) then OrderedButUp(h, a, i) else OrderedButDown(h, a, i)
  {
    var a := area[h[i] := newArea];
    assert forall k :: 0 <= k < |h| && k != i ==> a[h[k]] == area[h[k]];
    forall k | 0 < k < |h|
      ensures k != i && Parent(k) != i ==> InOrder(h, a, k)
      ensures Parent(k) == i ==> Leq(area[h[i]], a[h[k]])
      ensures Parent(k) == i && 0 < i ==> Leq(a[h[Parent(i)]], a[h[k]])
      ensures k == i ==> Leq(a[h[Parent(i)]], area[h[i]])
    {
      assert InOrder(h, area, k);
      if Parent(k) == i && 0 < i {
        assert InOrder(h, area, i);
      }
    }
  }
}
