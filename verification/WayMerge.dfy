/** Joining the ways of a multipolygon relation end to end. */
module WayMerge {
  import opened Coordinates

  type WayID = nat
  type Ways = map<WayID, seq<LatpLon>>
  type NodeMap = map<LatpLon, seq<WayID>>

  function First(s: seq<LatpLon>): LatpLon
    requires s != []
  {
    s[0]
  }

  function Last(s: seq<LatpLon>): LatpLon
    requires s != []
  {
    s[|s| - 1]
  }

  function Reverse(s: seq<LatpLon>): (r: seq<LatpLon>)
    ensures |r| == |s|
    ensures s != [] ==> First(r) == Last(s) && Last(r) == First(s)
  {
    seq(|s|, k requires 0 <= k < |s| => s[|s| - 1 - k])
  }

  /** What turning round means: it turns two parts round and changes their order, and a
      single point stays. */
  lemma ReverseConcat(s: seq<LatpLon>, t: seq<LatpLon>)
    ensures Reverse(s + t) == Reverse(t) + Reverse(s)
  {
  }

  lemma ReverseOne(p: LatpLon)
    ensures Reverse([p]) == [p]
  {
  }

  // ----- What a result is made of -----

  /** A way, as it is or turned round. */
  datatype Piece = Piece(way: WayID, reversed: bool)

  ghost predicate WaysOk(ways: Ways) {
    forall w :: w in ways ==> ways[w] != []
  }

  function Oriented(ways: Ways, p: Piece): (r: seq<LatpLon>)
    requires p.way in ways
  {
    if p.reversed then Reverse(ways[p.way]) else ways[p.way]
  }

  ghost predicate Known(ways: Ways, pieces: seq<Piece>) {
    forall k :: 0 <= k < |pieces| ==> pieces[k].way in ways && ways[pieces[k].way] != []
  }

  ghost function Joined(ways: Ways, pieces: seq<Piece>): seq<LatpLon>
    requires Known(ways, pieces)
  {
    if pieces == [] then [] else Oriented(ways, pieces[0]) + Joined(ways, pieces[1..])
  }

  /** The result is these pieces one after the other, and each begins where the one
      before it ends. */
  ghost predicate Built(ways: Ways, result: seq<LatpLon>, pieces: seq<Piece>) {
    && pieces != [] && Known(ways, pieces) && result == Joined(ways, pieces)
    && forall k :: 0 < k < |pieces| ==> Last(Oriented(ways, pieces[k - 1])) == First(Oriented(ways, pieces[k]))
  }

  lemma {:induction false} BuiltEnds(ways: Ways, result: seq<LatpLon>, pieces: seq<Piece>)
    requires Built(ways, result, pieces)
    ensures result != [] && First(result) == First(Oriented(ways, pieces[0]))
    ensures Last(result) == Last(Oriented(ways, pieces[|pieces| - 1]))
    decreases |pieces|
  {
    hide Reverse;
    if |pieces| > 1 {
      BuiltEnds(ways, Joined(ways, pieces[1..]), pieces[1..]);
    } else {
      assert Joined(ways, pieces[1..]) == [];
    }
  }

  lemma {:induction false} JoinedMore(ways: Ways, pieces: seq<Piece>, p: Piece)
    requires Known(ways, pieces + [p])
    ensures Known(ways, pieces) && p.way in ways && Joined(ways, pieces + [p]) == Joined(ways, pieces) + Oriented(ways, p)
  {
    hide Reverse;
    assert forall k :: 0 <= k < |pieces| ==> (pieces + [p])[k] == pieces[k];
    assert (pieces + [p])[|pieces|] == p;
    if pieces == [] {
      assert (pieces + [p])[1..] == [];
    } else {
      assert (pieces + [p])[1..] == pieces[1..] + [p];
      JoinedMore(ways, pieces[1..], p);
    }
  }

  lemma Appended(ways: Ways, result: seq<LatpLon>, pieces: seq<Piece>, p: Piece)
    requires Built(ways, result, pieces) && result != [] && p.way in ways && ways[p.way] != []
    requires First(Oriented(ways, p)) == Last(result)
    ensures Built(ways, result + Oriented(ways, p), pieces + [p])
  {
    hide Reverse;
    hide Oriented;
    BuiltEnds(ways, result, pieces);
    JoinedMore(ways, pieces, p);
  }

  lemma Prepended(ways: Ways, result: seq<LatpLon>, pieces: seq<Piece>, p: Piece)
    requires Built(ways, result, pieces) && result != [] && p.way in ways && ways[p.way] != []
    requires Last(Oriented(ways, p)) == First(result)
    ensures Built(ways, Oriented(ways, p) + result, [p] + pieces)
  {
    hide Reverse;
    hide Oriented;
    BuiltEnds(ways, result, pieces);
    assert ([p] + pieces)[1..] == pieces;
  }

  lemma Single(ways: Ways, w: WayID)
    requires w in ways && ways[w] != []
    ensures Built(ways, ways[w], [Piece(w, false)])
  {
    hide Reverse;
    var ps := [Piece(w, false)];
    assert ps[1..] == [];
    assert Joined(ways, ps) == Oriented(ways, ps[0]) + Joined(ways, ps[1..]);
    assert ways[w] + [] == ways[w];
  }

  // ----- Where the ways stand in a result -----

  /** How many points the first i pieces have. */
  ghost function PointsBefore(ways: Ways, pieces: seq<Piece>, i: nat): (n: nat)
    requires Known(ways, pieces) && i <= |pieces|
  {
    if i == 0 then 0 else |ways[pieces[0].way]| + PointsBefore(ways, pieces[1..], i - 1)
  }

  /** The way's points, from the first to the last or from the last to the first. */
  ghost predicate StandsAt(ways: Ways, result: seq<LatpLon>, at: nat, p: Piece)
    requires p.way in ways
  {
    var way := ways[p.way];
    at + |way| <= |result| &&
    forall n :: at <= n < at + |way| ==> result[n] == if p.reversed then way[at + |way| - 1 - n] else way[n - at]
  }

  /** The result is the pieces' ways one after the other, each in its direction. */
  ghost predicate FollowsWays(ways: Ways, result: seq<LatpLon>, pieces: seq<Piece>) {
    && Known(ways, pieces) && |result| == PointsBefore(ways, pieces, |pieces|)
    && forall i :: 0 <= i < |pieces| ==> StandsAt(ways, result, PointsBefore(ways, pieces, i), pieces[i])
  }

  lemma {:induction false} JoinedFollows(ways: Ways, pieces: seq<Piece>)
    requires Known(ways, pieces)
    ensures FollowsWays(ways, Joined(ways, pieces), pieces)
  {
    if pieces != [] {
      var rest := pieces[1..];
      var whole, joined := Joined(ways, pieces), Joined(ways, rest);
      var size := |ways[pieces[0].way]|;
      JoinedFollows(ways, rest);
      forall i | 0 <= i < |pieces| ensures StandsAt(ways, whole, PointsBefore(ways, pieces, i), pieces[i]) {
        if i > 0 {
          assert StandsAt(ways, joined, PointsBefore(ways, rest, i - 1), rest[i - 1]);
          StandsLater(ways, Oriented(ways, pieces[0]), joined, PointsBefore(ways, rest, i - 1), pieces[i]);
        }
      }
    }
  }

  lemma StandsLater(ways: Ways, before: seq<LatpLon>, result: seq<LatpLon>, at: nat, p: Piece)
    requires p.way in ways && StandsAt(ways, result, at, p)
    ensures StandsAt(ways, before + result, |before| + at, p)
  {
    var later := before + result;
    forall n | |before| + at <= n < |before| + at + |ways[p.way]| ensures later[n] == result[n - |before|] {
    }
  }

  lemma AllFollow(ways: Ways, results: seq<seq<LatpLon>>, parts: seq<seq<Piece>>)
    requires AllBuilt(ways, results, parts)
    ensures |parts| == |results| && forall k :: 0 <= k < |results| ==> FollowsWays(ways, results[k], parts[k])
  {
    hide FollowsWays;
    forall k | 0 <= k < |results| ensures FollowsWays(ways, results[k], parts[k]) {
      JoinedFollows(ways, parts[k]);
    }
  }

  /** Two points that follow each other in the piece's way, in the piece's direction. */
  ghost predicate StepOf(ways: Ways, p: Piece, a: LatpLon, b: LatpLon) {
    p.way in ways && exists j :: 0 < j < |ways[p.way]| && StepAt(ways[p.way], p.reversed, j, a, b)
  }

  predicate StepAt(way: seq<LatpLon>, reversed: bool, j: nat, a: LatpLon, b: LatpLon)
    requires 0 < j < |way|
  {
    if reversed then a == way[j] && b == way[j - 1] else a == way[j - 1] && b == way[j]
  }

  /** Each step along a result is a step along one of its ways, in that way's direction, or
      stays where one way meets the next. */
  lemma StepsAreOfWays(ways: Ways, result: seq<LatpLon>, pieces: seq<Piece>, n: nat)
    requires Built(ways, result, pieces) && n + 1 < |result|
    ensures result[n] == result[n + 1] || exists p :: p in pieces && StepOf(ways, p, result[n], result[n + 1])
  {
    JoinedFollows(ways, pieces);
    var i := PieceOf(ways, pieces, n);
    var at, p := PointsBefore(ways, pieces, i), pieces[i];
    var way := ways[p.way];
    assert StandsAt(ways, result, at, p);
    if n + 1 < at + |way| {
      var j := if p.reversed then at + |way| - 1 - n else n - at + 1;
      assert StepAt(way, p.reversed, j, result[n], result[n + 1]);
      assert p in pieces && StepOf(ways, p, result[n], result[n + 1]);
    } else {
      PieceAfter(ways, pieces, i);
      assert i + 1 < |pieces|;
      assert n + 1 == PointsBefore(ways, pieces, i + 1);
      MeetingPoints(ways, result, pieces, i);
    }
  }

  /** The piece that the n-th point belongs to. */
  lemma {:induction false} PieceOf(ways: Ways, pieces: seq<Piece>, n: nat) returns (i: nat)
    requires Known(ways, pieces) && n < PointsBefore(ways, pieces, |pieces|)
    ensures i < |pieces| && PointsBefore(ways, pieces, i) <= n < PointsBefore(ways, pieces, i) + |ways[pieces[i].way]|
  {
    if n < |ways[pieces[0].way]| {
      i := 0;
    } else {
      i := PieceOf(ways, pieces[1..], n - |ways[pieces[0].way]|);
      i := i + 1;
    }
  }

  lemma {:induction false} PieceAfter(ways: Ways, pieces: seq<Piece>, i: nat)
    requires Known(ways, pieces) && i < |pieces|
    ensures PointsBefore(ways, pieces, i + 1) == PointsBefore(ways, pieces, i) + |ways[pieces[i].way]|
  {
    if i > 0 {
      PieceAfter(ways, pieces[1..], i - 1);
    }
  }

  lemma MeetingPoints(ways: Ways, result: seq<LatpLon>, pieces: seq<Piece>, i: nat)
    requires Built(ways, result, pieces) && FollowsWays(ways, result, pieces) && i + 1 < |pieces|
    requires PointsBefore(ways, pieces, i + 1) == PointsBefore(ways, pieces, i) + |ways[pieces[i].way]|
    ensures var at := PointsBefore(ways, pieces, i + 1); 0 < at < |result| && result[at - 1] == result[at]
  {
    hide Reverse, Joined;
    var p, q := pieces[i], pieces[i + 1];
    var at, next := PointsBefore(ways, pieces, i), PointsBefore(ways, pieces, i + 1);
    assert StandsAt(ways, result, at, p) && StandsAt(ways, result, next, q);
    OrientedEnds(ways, p.way, p.reversed);
    OrientedEnds(ways, q.way, q.reversed);
    assert result[next - 1] == Last(Oriented(ways, p));
    assert result[next] == First(Oriented(ways, q));
  }

  /** And each step along a way is a step along the result that has it. */
  lemma StepsOfWayRemain(ways: Ways, result: seq<LatpLon>, pieces: seq<Piece>, i: nat, j: nat)
    requires Built(ways, result, pieces) && i < |pieces| && 0 < j < |ways[pieces[i].way]|
    ensures exists n :: 0 < n < |result| && StepAt(ways[pieces[i].way], pieces[i].reversed, j, result[n - 1], result[n])
  {
    JoinedFollows(ways, pieces);
    var p, way := pieces[i], ways[pieces[i].way];
    var at := PointsBefore(ways, pieces, i);
    assert StandsAt(ways, result, at, p);
    var m := if p.reversed then |way| - j else j;
    assert result[at + (m - 1)] == (if p.reversed then way[j] else way[j - 1]);
    assert result[at + m] == (if p.reversed then way[j - 1] else way[j]);
    assert StepAt(way, p.reversed, j, result[at + m - 1], result[at + m]);
  }

  // ----- Which ways are used -----

  ghost function Ids(pieces: seq<Piece>): (r: multiset<WayID>) {
    if pieces == [] then multiset{} else multiset{pieces[0].way} + Ids(pieces[1..])
  }

  ghost function Total(parts: seq<seq<Piece>>): (r: multiset<WayID>) {
    if parts == [] then multiset{} else Ids(parts[0]) + Total(parts[1..])
  }

  lemma {:induction false} IdsMore(pieces: seq<Piece>, p: Piece)
    ensures Ids(pieces + [p]) == Ids(pieces) + multiset{p.way}
    ensures Ids([p] + pieces) == Ids(pieces) + multiset{p.way}
  {
    assert ([p] + pieces)[1..] == pieces;
    if pieces == [] {
      assert pieces + [p] == [p] + pieces;
    } else {
      assert (pieces + [p])[1..] == pieces[1..] + [p];
      assert (pieces + [p])[0] == pieces[0];
      IdsMore(pieces[1..], p);
    }
  }

  lemma {:induction false} TotalUpdated(parts: seq<seq<Piece>>, k: nat, pieces: seq<Piece>, w: WayID)
    requires k < |parts| && Ids(pieces) == Ids(parts[k]) + multiset{w}
    ensures Total(parts[k := pieces]) == Total(parts) + multiset{w}
  {
    if k > 0 {
      assert parts[k := pieces][1..] == parts[1..][k - 1 := pieces];
      TotalUpdated(parts[1..], k - 1, pieces, w);
    } else {
      assert parts[k := pieces][1..] == parts[1..];
    }
  }

  lemma {:induction false} TotalMore(parts: seq<seq<Piece>>, pieces: seq<Piece>)
    ensures Total(parts + [pieces]) == Total(parts) + Ids(pieces)
  {
    if parts == [] {
      assert parts + [pieces] == [pieces];
    } else {
      assert (parts + [pieces])[1..] == parts[1..] + [pieces];
      TotalMore(parts[1..], pieces);
    }
  }

  // ----- The maps of start and end nodes -----

  function EndOf(ways: Ways, w: WayID, front: bool): LatpLon
    requires w in ways && ways[w] != []
  {
    if front then First(ways[w]) else Last(ways[w])
  }

  /** The map has each remaining way under its front, or under its back, and nothing
      else, and no empty lists. */
  ghost predicate MapOk(ways: Ways, m: NodeMap, remaining: set<WayID>, front: bool) {
    && (forall w :: w in remaining ==> w in ways && ways[w] != [])
    && (forall n :: n in m ==> m[n] != [])
    && (forall n, w :: n in m && w in m[n] ==> w in remaining && EndOf(ways, w, front) == n)
    && (forall w :: w in remaining ==> EndOf(ways, w, front) in m && w in m[EndOf(ways, w, front)])
  }

  function Without(s: seq<WayID>, w: WayID): (r: seq<WayID>)
    ensures forall v :: v in r <==> v in s && v != w
    ensures w !in s ==> r == s
  {
    if s == [] then [] else
    var rest := Without(s[1..], w);
    assert s == [s[0]] + s[1..];
    if s[0] == w then rest else [s[0]] + rest
  }

  method DeleteFromWayList(m: NodeMap, n: LatpLon, w: WayID) returns (r: NodeMap)
    requires n in m
    ensures r == Deleted(m, n, w)
  {
    var waylist := Without(m[n], w);
    r := m[n := waylist];
    if |waylist| == 0 {
      r := map k | k in r && k != n :: r[k];
    }
  }

  ghost function Deleted(m: NodeMap, n: LatpLon, w: WayID): NodeMap
    requires n in m
  {
    if Without(m[n], w) == [] then map k | k in m && k != n :: m[k] else m[n := Without(m[n], w)]
  }

  /** Deleting a way at its own node takes it out; elsewhere it changes nothing. */
  lemma DeletedOk(ways: Ways, m: NodeMap, remaining: set<WayID>, front: bool, n: LatpLon, w: WayID)
    requires MapOk(ways, m, remaining, front) && n in m && w in ways && ways[w] != []
    ensures w in remaining && n == EndOf(ways, w, front) ==> MapOk(ways, Deleted(m, n, w), remaining - {w}, front)
    ensures w !in remaining || n != EndOf(ways, w, front) ==> Deleted(m, n, w) == m
  {
    hide EndOf;
    if w !in remaining || n != EndOf(ways, w, front) {
      assert w !in m[n];
      assert m[n := m[n]] == m;
    }
  }

  method RemoveFromMaps(ways: Ways, startNodes: NodeMap, endNodes: NodeMap, w: WayID, ghost remaining: set<WayID>)
    returns (start': NodeMap, end': NodeMap)
    requires MapOk(ways, startNodes, remaining, true) && MapOk(ways, endNodes, remaining, false) && w in remaining
    ensures MapOk(ways, start', remaining - {w}, true) && MapOk(ways, end', remaining - {w}, false)
  {
    Facts(ways, startNodes, remaining, true, w);
    Facts(ways, endNodes, remaining, false, w);
    hide MapOk;
    hide Deleted;
    hide Without;
    start', end' := startNodes, endNodes;
    var first, last := First(ways[w]), Last(ways[w]);
    ghost var rest := remaining - {w};
    assert rest - {w} == rest;
    if first in start' {
      DeletedOk(ways, start', remaining, true, first, w);
      start' := DeleteFromWayList(start', first, w);
    }
    if last in start' {
      DeletedOk(ways, start', rest, true, last, w);
      start' := DeleteFromWayList(start', last, w);
    }
    if first in end' {
      DeletedOk(ways, end', remaining, false, first, w);
      end' := DeleteFromWayList(end', first, w);
    }
    if last in end' {
      if first == last {
        DeletedOk(ways, end', rest, false, last, w);
      } else {
        DeletedOk(ways, end', remaining, false, last, w);
      }
      end' := DeleteFromWayList(end', last, w);
    }
  }

  lemma Facts(ways: Ways, m: NodeMap, remaining: set<WayID>, front: bool, w: WayID)
    requires MapOk(ways, m, remaining, front) && w in remaining
    ensures w in ways && ways[w] != [] && EndOf(ways, w, front) in m
  {
  }

  // ----- Merging -----

  predicate Open(r: seq<LatpLon>)
    requires r != []
  {
    First(r) != Last(r)
  }

  /** No remaining way has an end at an end of the result. */
  ghost predicate Untouched(ways: Ways, r: seq<LatpLon>, remaining: set<WayID>) {
    r != [] && forall w :: w in remaining ==>
      w in ways && ways[w] != [] &&
      First(ways[w]) != First(r) && First(ways[w]) != Last(r) && Last(ways[w]) != First(r) && Last(ways[w]) != Last(r)
  }

  /** An open result shares no end with a later one, be it open or closed. */
  ghost predicate Apart(a: seq<LatpLon>, b: seq<LatpLon>) {
    a != [] && b != [] &&
    (Open(a) ==> First(a) != First(b) && First(a) != Last(b) && Last(a) != First(b) && Last(a) != Last(b))
  }

  ghost predicate AllApart(results: seq<seq<LatpLon>>) {
    forall j, k :: 0 <= j < k < |results| ==> Apart(results[j], results[k])
  }

  ghost predicate Settled(ways: Ways, r: seq<LatpLon>, remaining: set<WayID>) {
    r != [] && (!Open(r) || Untouched(ways, r, remaining))
  }

  /** Built of these parts; a way that is a result of its own is as it was. */
  ghost predicate AllBuilt(ways: Ways, results: seq<seq<LatpLon>>, parts: seq<seq<Piece>>) {
    && |results| == |parts|
    && (forall k :: 0 <= k < |results| ==> Built(ways, results[k], parts[k]))
    && (forall k :: 0 <= k < |parts| && |parts[k]| == 1 ==> !parts[k][0].reversed)
  }

  /** Results only grow, and only by whole ways. */
  ghost predicate Grows(before: seq<seq<Piece>>, after: seq<seq<Piece>>) {
    |before| <= |after| && forall k, p :: 0 <= k < |before| && p in before[k] ==> p in after[k]
  }

  /** The ways used so far are those of the pieces, each once. */
  ghost predicate Accounted(parts: seq<seq<Piece>>, available: set<WayID>, remaining: set<WayID>, done: set<WayID>) {
    && remaining <= available && available - remaining <= done && remaining !! done
    && Total(parts) == multiset(available - remaining)
  }

  lemma AccountOne(parts: seq<seq<Piece>>, parts': seq<seq<Piece>>, available: set<WayID>, remaining: set<WayID>, done: set<WayID>, w: WayID)
    requires Accounted(parts, available, remaining, done) && w in remaining && Total(parts') == Total(parts) + multiset{w}
    ensures Accounted(parts', available, remaining - {w}, done + {w})
  {
    hide Total;
    assert available - (remaining - {w}) == (available - remaining) + {w};
  }

  lemma BuiltUpdated(ways: Ways, results: seq<seq<LatpLon>>, parts: seq<seq<Piece>>, k: nat, r: seq<LatpLon>, pieces: seq<Piece>)
    requires AllBuilt(ways, results, parts) && k < |results| && Built(ways, r, pieces) && |pieces| > 1
    requires forall p :: p in parts[k] ==> p in pieces
    ensures AllBuilt(ways, results[k := r], parts[k := pieces]) && Grows(parts, parts[k := pieces])
  {
    hide Built;
  }

  lemma BuiltMore(ways: Ways, results: seq<seq<LatpLon>>, parts: seq<seq<Piece>>, r: seq<LatpLon>, pieces: seq<Piece>)
    requires AllBuilt(ways, results, parts) && Built(ways, r, pieces) && |pieces| == 1 && !pieces[0].reversed
    ensures AllBuilt(ways, results + [r], parts + [pieces]) && Grows(parts, parts + [pieces])
  {
    hide Built;
  }

  lemma BuiltAt(ways: Ways, results: seq<seq<LatpLon>>, parts: seq<seq<Piece>>, k: nat)
    requires AllBuilt(ways, results, parts) && k < |results|
    ensures |parts| == |results| && Built(ways, results[k], parts[k]) && results[k] != [] && parts[k] != []
  {
    BuiltEnds(ways, results[k], parts[k]);
  }

  class WayMerger {
    const ways: Ways
    var startNodes: NodeMap
    var endNodes: NodeMap
    var done: set<WayID>
    var results: seq<seq<LatpLon>>
    ghost var parts: seq<seq<Piece>>
    // The ways that can be used, and those of them that are not yet.
    ghost var available: set<WayID>
    ghost var remaining: set<WayID>

    ghost predicate Valid()
      reads this
    {
      && MapOk(ways, startNodes, remaining, true) && MapOk(ways, endNodes, remaining, false)
      && AllBuilt(ways, results, parts)
      && Accounted(parts, available, remaining, done)
    }

    constructor (ways: Ways, done: set<WayID>)
      ensures Valid() && this.ways == ways && this.done == done && results == [] && available == {} && remaining == {}
    {
      this.ways := ways;
      this.done := done;
      startNodes, endNodes, results := map[], map[], [];
      parts, available, remaining := [], {}, {};
    }

    method RemoveWay(w: WayID)
      requires MapOk(ways, startNodes, remaining, true) && MapOk(ways, endNodes, remaining, false) && w in remaining
      modifies this`startNodes, this`endNodes, this`done, this`remaining
      ensures remaining == old(remaining) - {w} && done == old(done) + {w}
      ensures MapOk(ways, startNodes, remaining, true) && MapOk(ways, endNodes, remaining, false)
    {
      hide MapOk;
      startNodes, endNodes := RemoveFromMaps(ways, startNodes, endNodes, w, remaining);
      remaining := remaining - {w};
      done := done + {w};
    }

    /** A way joins result k at its end or its beginning, as it is or turned round. */
    method Attach(k: nat, w: WayID, reversed: bool, atEnd: bool)
      requires Valid() && k < |results| && results[k] != [] && w in remaining && w in ways && ways[w] != []
      requires var nodes := Oriented(ways, Piece(w, reversed));
               if atEnd then First(nodes) == Last(results[k]) else Last(nodes) == First(results[k])
      modifies this`startNodes, this`endNodes, this`done, this`remaining, this`results, this`parts
      ensures Valid() && remaining == old(remaining) - {w} && done == old(done) + {w}
      ensures var nodes := Oriented(ways, Piece(w, reversed));
              results == old(results)[k := if atEnd then old(results[k]) + nodes else nodes + old(results[k])]
      ensures Grows(old(parts), parts)
    {
      hide MapOk;
      hide AllBuilt;
      hide Built;
      hide Oriented;
      hide Ids;
      hide Total;
      hide Accounted;
      hide Grows;
      var p := Piece(w, reversed);
      var nodes := Oriented(ways, p);
      BuiltAt(ways, results, parts, k);
      IdsMore(parts[k], p);
      ghost var pieces := if atEnd then parts[k] + [p] else [p] + parts[k];
      var result := if atEnd then results[k] + nodes else nodes + results[k];
      if atEnd {
        Appended(ways, results[k], parts[k], p);
      } else {
        Prepended(ways, results[k], parts[k], p);
      }
      TotalUpdated(parts, k, pieces, w);
      AccountOne(parts, parts[k := pieces], available, remaining, done, w);
      BuiltUpdated(ways, results, parts, k, result, pieces);
      results, parts := results[k := result], parts[k := pieces];
      RemoveWay(w);
    }

    /** A new result of one way. */
    method Seed(w: WayID)
      requires Valid() && w in remaining
      modifies this`startNodes, this`endNodes, this`done, this`remaining, this`results, this`parts
      ensures Valid() && remaining == old(remaining) - {w} && done == old(done) + {w}
      ensures w in ways && results == old(results) + [ways[w]] && Grows(old(parts), parts)
    {
      hide MapOk;
      hide AllBuilt;
      hide Built;
      hide Oriented;
      hide Reverse;
      hide First;
      hide Last;
      hide Ids;
      hide Total;
      hide Accounted;
      hide Grows;
      Facts(ways, startNodes, remaining, true, w);
      Single(ways, w);
      var way := ways[w];
      ghost var pieces := [Piece(w, false)];
      TotalMore(parts, pieces);
      IdsOfOne(Piece(w, false));
      AccountOne(parts, parts + [pieces], available, remaining, done, w);
      BuiltMore(ways, results, parts, way, pieces);
      results, parts := results + [way], parts + [pieces];
      RemoveWay(w);
    }

    /** A way that is not there counts as done. */
    method SkipMissing(w: WayID)
      requires Valid() && w !in ways && w !in done
      modifies this`done
      ensures Valid() && done == old(done) + {w}
    {
      RemainingAreWays(ways, startNodes, remaining);
      hide MapOk;
      hide AllBuilt;
      hide Accounted;
      MissingIsDone(parts, available, remaining, done, w);
      done := done + {w};
    }

    /** The first way starts a result. */
    method StartResult(w: WayID)
      requires Valid() && results == [] && remaining == {} && w in ways && ways[w] != []
      modifies this`results, this`parts, this`available, this`done
      ensures Valid() && |results| == 1 && done == old(done) + {w} && available == old(available) + {w} == {w}
      ensures parts == [[Piece(w, false)]]
    {
      SameCount(ways, results, parts);
      NoneUsed(parts, available, remaining, done);
      FirstUsed(ways, w, done);
      hide MapOk;
      hide AllBuilt;
      hide Accounted;
      var way := ways[w];
      results, parts := [way], [[Piece(w, false)]];
      available := {w};
      done := done + {w};
    }

    /** Another way goes into the maps under its ends. */
    method AddToMaps(w: WayID)
      requires Valid() && w in ways && ways[w] != [] && w !in done
      modifies this`startNodes, this`endNodes, this`available, this`remaining
      ensures Valid() && available == old(available) + {w} && remaining == old(remaining) + {w}
    {
      var first, last := First(ways[w]), Last(ways[w]);
      OneMore(ways, startNodes, remaining, true, w);
      OneMore(ways, endNodes, remaining, false, w);
      AvailableMore(parts, available, remaining, done, w);
      hide MapOk;
      hide AllBuilt;
      hide Accounted;
      startNodes := startNodes[first := (if first in startNodes then startNodes[first] else []) + [w]];
      endNodes := endNodes[last := (if last in endNodes then endNodes[last] else []) + [w]];
      available := available + {w};
      remaining := remaining + {w};
    }

    /** The ways of the list: the first starts a result, the others go into the maps. */
    method Collect(list: seq<WayID>)
      requires Valid() && results == [] && remaining == available == {} && WaysOk(ways)
      modifies this
      ensures Valid() && |results| <= 1 && (available != {} ==> |results| == 1)
      ensures available == Usable(list, ways, old(done))
      ensures done + remaining == old(done) + Listed(list)
      ensures |results| == 1 ==> exists w :: IsFirst(list, ways, old(done), w) && parts == [[Piece(w, false)]]
    {
      hide Valid, Usable, Listed, IsFirst;
      NothingListed(list, ways, done);
      for i := 0 to |list|
        invariant Valid() && |results| <= 1 && (available != {} ==> |results| == 1) && remaining <= available
        invariant available == Usable(list[..i], ways, old(done))
        invariant done + remaining == old(done) + Listed(list[..i]) && old(done) <= done
        invariant |results| == 1 ==> exists w :: IsFirst(list[..i], ways, old(done), w) && parts == [[Piece(w, false)]]
      {
        var w := list[i];
        OneMoreListed(list, i, ways, old(done));
        if w in done {
          continue;
        }
        if w !in ways {
          SkipMissing(w);
        } else if |ways[w]| == 0 || |results| == 0 {
          StartResult(w);
        } else {
          AddToMaps(w);
        }
      }
      assert list[..|list|] == list;
    }

    /** What an insertion leaves of result k: it grew from its ends by remaining ways. */
    method Extend(k: nat) returns (added: nat)
      requires Valid() && k < |results|
      modifies this`startNodes, this`endNodes, this`done, this`remaining, this`results, this`parts
      ensures Valid() && |results| == old(|results|) && forall j :: 0 <= j < |results| && j != k ==> results[j] == old(results[j])
      ensures Settled(ways, results[k], remaining)
      ensures remaining <= old(remaining) && done + remaining == old(done + remaining)
      ensures added == 0 ==> remaining == old(remaining) && results == old(results)
      ensures added > 0 ==> |remaining| < old(|remaining|) && old(results[k]) != [] && Open(old(results[k])) && !Untouched(ways, old(results[k]), old(remaining))
      ensures EndsFrom(ways, results[k], old(results[k]), old(remaining)) && Grows(old(parts), parts)
    {
      hide MapOk;
      hide Grows;
      GrowsNot(parts);
      hide AllBuilt;
      hide Accounted;
      hide Oriented;
      hide Untouched;
      hide Settled;
      hide Open;
      hide EndsFrom;
      added := 0;
      var working := true;
      BuiltAt(ways, results, parts, k);
      EndsFromItself(ways, results[k], remaining);
      while working
        invariant Valid() && |results| == old(|results|) && forall j :: 0 <= j < |results| && j != k ==> results[j] == old(results[j])
        invariant results[k] != [] && remaining <= old(remaining) && done + remaining == old(done + remaining)
        invariant added == 0 ==> remaining == old(remaining) && results == old(results)
        invariant added > 0 ==> |remaining| < old(|remaining|) && Open(old(results[k])) && !Untouched(ways, old(results[k]), old(remaining))
        invariant EndsFrom(ways, results[k], old(results[k]), old(remaining)) && Grows(old(parts), parts)
        invariant !working ==> Settled(ways, results[k], remaining)
        decreases |remaining|, working
      {
        var rFirst, rLast := First(results[k]), Last(results[k]);
        ghost var was, before := results[k], remaining;
        OpenIs(ways, results[k], remaining);
        if rFirst == rLast {
          break;
        }
        var w, reversed, atEnd := 0, false, false;
        if rLast in startNodes {
          Match(ways, startNodes, remaining, true, rLast);
          w, reversed, atEnd := startNodes[rLast][|startNodes[rLast]| - 1], false, true;
        } else if rLast in endNodes {
          Match(ways, endNodes, remaining, false, rLast);
          w, reversed, atEnd := endNodes[rLast][|endNodes[rLast]| - 1], true, true;
        } else if rFirst in endNodes {
          Match(ways, endNodes, remaining, false, rFirst);
          w, reversed, atEnd := endNodes[rFirst][|endNodes[rFirst]| - 1], false, false;
        } else if rFirst in startNodes {
          Match(ways, startNodes, remaining, true, rFirst);
          w, reversed, atEnd := startNodes[rFirst][|startNodes[rFirst]| - 1], true, false;
        } else {
          working := false;
          NoMatch(ways, startNodes, endNodes, remaining, results[k]);
        }
        if working {
          OrientedEnds(ways, w, reversed);
          TouchedBy(ways, was, before, w);
          EndsAfter(ways, was, old(results[k]), old(remaining), w, reversed, atEnd);
          ghost var partsBefore := parts;
          Attach(k, w, reversed, atEnd);
          GrowsOn(old(parts), partsBefore, parts);
          added := added + 1;
          BuiltAt(ways, results, parts, k);
          Fewer(before, w);
          assert added == 1 ==> was == old(results[k]) && before == old(remaining);
        }
      }
    }

    /** One pass over the results. */
    method ExtendAll() returns (added: nat)
      requires Valid() && AllApart(results) && SettledUpTo(ways, results, remaining, |results| - 1)
      modifies this`startNodes, this`endNodes, this`done, this`remaining, this`results, this`parts
      ensures Valid() && |results| == old(|results|) && AllApart(results) && SettledUpTo(ways, results, remaining, |results|)
      ensures remaining <= old(remaining) && done + remaining == old(done + remaining)
      ensures added == 0 ==> remaining == old(remaining)
      ensures added > 0 ==> |remaining| < old(|remaining|)
      ensures Grows(old(parts), parts)
    {
      hide Valid;
      hide Grows;
      GrowsNot(parts);
      hide Apart;
      hide AllApart;
      hide Settled;
      hide SettledUpTo;
      hide Untouched;
      hide EndsFrom;
      hide Open;
      added := 0;
      NoneSettled(ways, results, remaining);
      for r := 0 to |results|
        invariant Valid() && |results| == old(|results|) && AllApart(results)
        invariant SettledUpTo(ways, results, remaining, |results| - 1) && (r == |results| ==> SettledUpTo(ways, results, remaining, r))
        invariant remaining <= old(remaining) && done + remaining == old(done + remaining)
        invariant added == 0 ==> remaining == old(remaining)
        invariant added > 0 ==> |remaining| < old(|remaining|)
        invariant Grows(old(parts), parts)
      {
        ghost var was, before, partsBefore := results, remaining, parts;
        var more := Extend(r);
        GrowsOn(old(parts), partsBefore, parts);
        StillApart(ways, was, results, before, remaining, r, more);
        added := added + more;
      }
    }

    /** With nothing to add, a remaining way starts another result. */
    method SeedOne() returns (added: nat)
      requires Valid() && AllApart(results) && SettledUpTo(ways, results, remaining, |results|)
      modifies this`startNodes, this`endNodes, this`done, this`remaining, this`results, this`parts
      ensures Valid() && AllApart(results) && SettledUpTo(ways, results, remaining, |results| - 1)
      ensures remaining <= old(remaining) && done + remaining == old(done + remaining)
      ensures added == 0 ==> remaining == {} && results == old(results)
      ensures added > 0 ==> |remaining| < old(|remaining|)
      ensures Grows(old(parts), parts)
    {
      hide Grows;
      GrowsNot(parts);
      hide MapOk;
      hide AllBuilt;
      hide Accounted;
      hide AllApart;
      hide SettledUpTo;
      hide EndOf;
      added := 0;
      for i := 0 to 2
        invariant Valid() && AllApart(results) && remaining <= old(remaining) && done + remaining == old(done + remaining)
        invariant SettledUpTo(ways, results, remaining, if added == 0 then |results| else |results| - 1)
        invariant added == 0 ==> remaining == old(remaining) && results == old(results) && parts == old(parts) && (i > 0 ==> startNodes == map[])
        invariant Grows(old(parts), parts)
        invariant added > 0 ==> |remaining| < old(|remaining|)
      {
        if added > 0 {
          continue;
        }
        var nodes := if i == 0 then startNodes else endNodes;
        if nodes != map[] {
          NotEmpty(nodes);
          var n :| n in nodes;
          Match(ways, nodes, remaining, i == 0, n);
          var w := nodes[n][|nodes[n]| - 1];
          SeedApart(ways, results, remaining, w);
          Fewer(remaining, w);
          Seed(w);
          added := added + 1;
        }
      }
      if added == 0 {
        NoneLeft(ways, startNodes, remaining);
        LessSettled(ways, results, remaining);
      }
    }

    /** All the ways of the list are done; each available one is in exactly one place of
        one result; and no two results that are open could still be joined. */
    method MergeMultiPolygonWays(list: seq<WayID>)
      requires Valid() && results == [] && remaining == available == {} && WaysOk(ways)
      modifies this
      ensures available == Usable(list, ways, old(done))
      ensures done == old(done) + Listed(list)
      ensures AllBuilt(ways, results, parts) && Total(parts) == multiset(available)
      ensures |parts| == |results| && forall k :: 0 <= k < |results| ==> FollowsWays(ways, results[k], parts[k])
      ensures AllApart(results)
      ensures available != {} ==> exists w :: IsFirst(list, ways, old(done), w) && StartsWith(parts, w)
    {
      hide AllApart;
      hide SettledUpTo;
      hide MapOk;
      hide AllBuilt;
      hide Accounted;
      hide Total;
      hide Grows;
      hide IsFirst, Usable, Listed, FollowsWays;
      Collect(list);
      ghost var collected := parts;
      FirstApart(ways, results, remaining);
      GrowsNot(parts);
      RemainingIsAvailable(parts, available, remaining, done);
      var added: nat := 1;
      while added > 0
        invariant Valid() && AllApart(results) && Grows(collected, parts)
        invariant available == Usable(list, ways, old(done))
        invariant done + remaining == old(done) + Listed(list)
        invariant SettledUpTo(ways, results, remaining, |results| - 1)
        invariant added == 0 ==> remaining == {}
        decreases |remaining|, added > 0
      {
        ghost var before := parts;
        added := ExtendAll();
        GrowsOn(collected, before, parts);
        if added == 0 {
          before := parts;
          added := SeedOne();
          GrowsOn(collected, before, parts);
        } else {
          LessSettled(ways, results, remaining);
        }
      }
      AllUsed(parts, available, remaining, done);
      AllFollow(ways, results, parts);
      StillFirst(list, ways, old(done), collected, parts, available);
    }
  }

  /** The ways of the list that there are and that are not done. */
  ghost function Usable(list: seq<WayID>, ways: Ways, done: set<WayID>): set<WayID> {
    set w | w in list && w in ways && w !in done
  }

  ghost function Listed(list: seq<WayID>): set<WayID> {
    set w | w in list
  }

  ghost predicate IsFirst(list: seq<WayID>, ways: Ways, done: set<WayID>, w: WayID) {
    exists i :: 0 <= i < |list| && list[i] == w && w in Usable(list, ways, done) &&
      forall j :: 0 <= j < i ==> list[j] !in Usable(list, ways, done)
  }

  ghost predicate StartsWith(parts: seq<seq<Piece>>, w: WayID) {
    parts != [] && Piece(w, false) in parts[0]
  }

  lemma OneMoreListed(list: seq<WayID>, i: nat, ways: Ways, done: set<WayID>)
    requires i < |list|
    ensures Listed(list[..i + 1]) == Listed(list[..i]) + {list[i]}
    ensures list[i] in Listed(list[..i]) ==> Usable(list[..i + 1], ways, done) == Usable(list[..i], ways, done)
    ensures Usable(list[..i + 1], ways, done) ==
      Usable(list[..i], ways, done) + if list[i] in ways && list[i] !in done then {list[i]} else {}
    ensures forall w :: IsFirst(list[..i], ways, done, w) ==> IsFirst(list[..i + 1], ways, done, w)
    ensures Usable(list[..i], ways, done) == {} && list[i] in ways && list[i] !in done ==> IsFirst(list[..i + 1], ways, done, list[i])
  {
    var before, after := list[..i], list[..i + 1];
    assert after == before + [list[i]];
    forall w | IsFirst(before, ways, done, w) ensures IsFirst(after, ways, done, w) {
      var k :| 0 <= k < |before| && before[k] == w && w in Usable(before, ways, done) &&
        forall j :: 0 <= j < k ==> before[j] !in Usable(before, ways, done);
      assert after[k] == w;
      forall j | 0 <= j < k ensures after[j] !in Usable(after, ways, done) {
        assert after[j] == before[j];
      }
    }
    if Usable(before, ways, done) == {} && list[i] in ways && list[i] !in done {
      assert after[i] == list[i];
      forall j | 0 <= j < i ensures after[j] !in Usable(after, ways, done) {
        assert after[j] == before[j] && before[j] !in Usable(before, ways, done);
      }
    }
  }

  lemma NothingListed(list: seq<WayID>, ways: Ways, done: set<WayID>)
    ensures Usable(list[..0], ways, done) == {} && Listed(list[..0]) == {}
  {
  }

  lemma GrowsNot(parts: seq<seq<Piece>>)
    ensures Grows(parts, parts)
  {
  }

  lemma GrowsOn(a: seq<seq<Piece>>, b: seq<seq<Piece>>, c: seq<seq<Piece>>)
    requires Grows(a, b) && Grows(b, c)
    ensures Grows(a, c)
  {
  }

  lemma RemainingIsAvailable(parts: seq<seq<Piece>>, available: set<WayID>, remaining: set<WayID>, done: set<WayID>)
    requires Accounted(parts, available, remaining, done)
    ensures remaining <= available
  {
  }

  lemma StillFirst(list: seq<WayID>, ways: Ways, done: set<WayID>, collected: seq<seq<Piece>>, parts: seq<seq<Piece>>, available: set<WayID>)
    requires Grows(collected, parts)
    requires available != {} ==> exists w :: IsFirst(list, ways, done, w) && collected == [[Piece(w, false)]]
    ensures available != {} ==> exists w :: IsFirst(list, ways, done, w) && StartsWith(parts, w)
  {
    hide IsFirst;
    if available != {} {
      var w :| IsFirst(list, ways, done, w) && collected == [[Piece(w, false)]];
      assert Piece(w, false) in collected[0];
      assert StartsWith(parts, w);
    }
  }

  lemma AllUsed(parts: seq<seq<Piece>>, available: set<WayID>, remaining: set<WayID>, done: set<WayID>)
    requires Accounted(parts, available, remaining, done) && remaining == {}
    ensures Total(parts) == multiset(available) && done + remaining == done
  {
    hide Total;
    assert available - remaining == available;
  }

  lemma IdsOfOne(p: Piece)
    ensures Ids([p]) == multiset{p.way}
  {
    assert [p][1..] == [];
  }

  lemma RemainingAreWays(ways: Ways, m: NodeMap, remaining: set<WayID>)
    requires MapOk(ways, m, remaining, true)
    ensures forall w :: w in remaining ==> w in ways
  {
  }

  lemma MissingIsDone(parts: seq<seq<Piece>>, available: set<WayID>, remaining: set<WayID>, done: set<WayID>, w: WayID)
    requires Accounted(parts, available, remaining, done) && w !in remaining
    ensures Accounted(parts, available, remaining, done + {w})
  {
    hide Total;
  }

  lemma SameCount(ways: Ways, results: seq<seq<LatpLon>>, parts: seq<seq<Piece>>)
    requires AllBuilt(ways, results, parts)
    ensures |parts| == |results|
  {
  }

  lemma NoneUsed(parts: seq<seq<Piece>>, available: set<WayID>, remaining: set<WayID>, done: set<WayID>)
    requires Accounted(parts, available, remaining, done) && parts == [] && remaining == {}
    ensures available == {}
  {
    assert available - remaining == available;
    assert |multiset(available)| == |available|;
  }

  lemma FirstUsed(ways: Ways, w: WayID, done: set<WayID>)
    requires w in ways && ways[w] != []
    ensures AllBuilt(ways, [ways[w]], [[Piece(w, false)]]) && Accounted([[Piece(w, false)]], {w}, {}, done + {w})
  {
    hide Built;
    Single(ways, w);
    IdsOfOne(Piece(w, false));
    TotalMore([], [Piece(w, false)]);
    assert [] + [[Piece(w, false)]] == [[Piece(w, false)]];
    assert {w} - {} == {w};
  }

  lemma OneMore(ways: Ways, m: NodeMap, remaining: set<WayID>, front: bool, w: WayID)
    requires MapOk(ways, m, remaining, front) && w in ways && ways[w] != []
    ensures var n := EndOf(ways, w, front);
            MapOk(ways, m[n := (if n in m then m[n] else []) + [w]], remaining + {w}, front)
  {
    hide EndOf;
  }

  lemma AvailableMore(parts: seq<seq<Piece>>, available: set<WayID>, remaining: set<WayID>, done: set<WayID>, w: WayID)
    requires Accounted(parts, available, remaining, done) && w !in done
    ensures Accounted(parts, available + {w}, remaining + {w}, done)
  {
    hide Total;
    assert available + {w} - (remaining + {w}) == available - remaining;
  }

  lemma OpenIs(ways: Ways, r: seq<LatpLon>, remaining: set<WayID>)
    requires r != []
    ensures Open(r) <==> First(r) != Last(r)
    ensures !Open(r) ==> Settled(ways, r, remaining)
  {
  }

  /** An entry of a map names a remaining way that ends there. */
  lemma Match(ways: Ways, m: NodeMap, remaining: set<WayID>, front: bool, n: LatpLon)
    requires MapOk(ways, m, remaining, front) && n in m
    ensures m[n] != []
    ensures var w := m[n][|m[n]| - 1]; w in remaining && w in ways && ways[w] != [] && EndOf(ways, w, front) == n
  {
    assert m[n][|m[n]| - 1] in m[n];
  }

  lemma NoMatch(ways: Ways, start: NodeMap, end: NodeMap, remaining: set<WayID>, r: seq<LatpLon>)
    requires MapOk(ways, start, remaining, true) && MapOk(ways, end, remaining, false) && r != []
    requires First(r) !in start && First(r) !in end && Last(r) !in start && Last(r) !in end
    ensures Settled(ways, r, remaining)
  {
    forall w | w in remaining
      ensures w in ways && ways[w] != [] &&
        First(ways[w]) != First(r) && First(ways[w]) != Last(r) && Last(ways[w]) != First(r) && Last(ways[w]) != Last(r)
    {
      assert EndOf(ways, w, true) in start && EndOf(ways, w, false) in end;
    }
  }

  lemma OrientedEnds(ways: Ways, w: WayID, reversed: bool)
    requires w in ways && ways[w] != []
    ensures var nodes := Oriented(ways, Piece(w, reversed));
            nodes != [] && First(nodes) == EndOf(ways, w, !reversed) && Last(nodes) == EndOf(ways, w, reversed)
  {
    hide Reverse;
  }

  lemma TouchedBy(ways: Ways, r: seq<LatpLon>, remaining: set<WayID>, w: WayID)
    requires r != [] && w in remaining && w in ways && ways[w] != []
    requires First(ways[w]) == First(r) || First(ways[w]) == Last(r) || Last(ways[w]) == First(r) || Last(ways[w]) == Last(r)
    ensures !Untouched(ways, r, remaining)
  {
  }

  lemma Fewer(s: set<WayID>, w: WayID)
    requires w in s
    ensures |s - {w}| < |s|
  {
  }

  ghost predicate EndAmong(ways: Ways, n: LatpLon, r: seq<LatpLon>, remaining: set<WayID>) {
    (r != [] && (n == First(r) || n == Last(r))) ||
    exists w :: w in remaining && w in ways && ways[w] != [] && (n == First(ways[w]) || n == Last(ways[w]))
  }

  /** The ends of r are ends of r0 or of the ways that were left then. */
  ghost predicate EndsFrom(ways: Ways, r: seq<LatpLon>, r0: seq<LatpLon>, remaining: set<WayID>) {
    r != [] && EndAmong(ways, First(r), r0, remaining) && EndAmong(ways, Last(r), r0, remaining)
  }

  lemma EndsFromItself(ways: Ways, r: seq<LatpLon>, remaining: set<WayID>)
    requires r != []
    ensures EndsFrom(ways, r, r, remaining)
  {
  }

  lemma EndsAfter(ways: Ways, r: seq<LatpLon>, r0: seq<LatpLon>, remaining: set<WayID>, w: WayID, reversed: bool, atEnd: bool)
    requires EndsFrom(ways, r, r0, remaining) && w in remaining && w in ways && ways[w] != []
    ensures var nodes := Oriented(ways, Piece(w, reversed));
            EndsFrom(ways, if atEnd then r + nodes else nodes + r, r0, remaining)
  {
    hide Reverse;
    OrientedEnds(ways, w, reversed);
    var nodes := Oriented(ways, Piece(w, reversed));
    assert EndAmong(ways, First(nodes), r0, remaining) && EndAmong(ways, Last(nodes), r0, remaining);
  }

  // ----- Results stay apart -----

  ghost predicate SettledUpTo(ways: Ways, results: seq<seq<LatpLon>>, remaining: set<WayID>, n: int) {
    n <= |results| && forall j :: 0 <= j < n ==> Settled(ways, results[j], remaining)
  }

  lemma NoneSettled(ways: Ways, results: seq<seq<LatpLon>>, remaining: set<WayID>)
    ensures SettledUpTo(ways, results, remaining, 0)
  {
  }

  lemma LessSettled(ways: Ways, results: seq<seq<LatpLon>>, remaining: set<WayID>)
    requires SettledUpTo(ways, results, remaining, |results|)
    ensures SettledUpTo(ways, results, remaining, |results| - 1)
  {
  }

  lemma SettledStays(ways: Ways, r: seq<LatpLon>, before: set<WayID>, after: set<WayID>)
    requires Settled(ways, r, before) && after <= before
    ensures Settled(ways, r, after)
  {
  }

  /** A result that could not grow meets no end of the remaining ways, so not the ends
      of a result grown from them. */
  lemma GrownApart(ways: Ways, a: seq<LatpLon>, r: seq<LatpLon>, r0: seq<LatpLon>, remaining: set<WayID>)
    requires Settled(ways, a, remaining) && EndsFrom(ways, r, r0, remaining) && r0 != [] && Open(r0)
    requires Apart(a, r0)
    ensures Apart(a, r)
  {
  }

  lemma StillApart(ways: Ways, was: seq<seq<LatpLon>>, now: seq<seq<LatpLon>>, before: set<WayID>, after: set<WayID>, k: nat, added: nat)
    requires |was| == |now| && k < |now| && AllApart(was) && SettledUpTo(ways, was, before, |was| - 1)
    requires forall j :: 0 <= j < |now| && j != k ==> now[j] == was[j]
    requires after <= before && Settled(ways, now[k], after) && EndsFrom(ways, now[k], was[k], before)
    requires added == 0 ==> now == was
    requires added > 0 ==> was[k] != [] && Open(was[k]) && !Untouched(ways, was[k], before)
    ensures AllApart(now) && SettledUpTo(ways, now, after, |now| - 1)
    ensures k == |now| - 1 ==> SettledUpTo(ways, now, after, |now|)
  {
    hide Untouched;
    hide EndsFrom;
    hide Open;
    hide Apart;
    forall j | 0 <= j < |now| && j != k && j < |now| - 1 ensures Settled(ways, now[j], after) {
      SettledStays(ways, was[j], before, after);
    }
    if added > 0 {
      UnsettledIsLast(ways, was, before, k);
      forall j | 0 <= j < k ensures Apart(now[j], now[k]) {
        assert Apart(was[j], was[k]);
        GrownApart(ways, was[j], now[k], was[k], before);
      }
      forall i, j | 0 <= i < j < |now| ensures Apart(now[i], now[j]) {
      }
    }
  }

  lemma UnsettledIsLast(ways: Ways, results: seq<seq<LatpLon>>, remaining: set<WayID>, k: nat)
    requires SettledUpTo(ways, results, remaining, |results| - 1) && k < |results|
    requires results[k] != [] && Open(results[k]) && !Untouched(ways, results[k], remaining)
    ensures k == |results| - 1
  {
    hide Untouched;
    hide Open;
  }

  lemma SeedApart(ways: Ways, results: seq<seq<LatpLon>>, remaining: set<WayID>, w: WayID)
    requires AllApart(results) && SettledUpTo(ways, results, remaining, |results|) && w in remaining && w in ways && ways[w] != []
    ensures AllApart(results + [ways[w]])
    ensures SettledUpTo(ways, results + [ways[w]], remaining - {w}, |results|)
  {
    var now := results + [ways[w]];
    forall j | 0 <= j < |results| ensures Apart(now[j], ways[w]) && Settled(ways, now[j], remaining - {w}) {
      assert Settled(ways, results[j], remaining);
    }
    hide Apart;
    hide Settled;
    forall i, j | 0 <= i < j < |now| ensures Apart(now[i], now[j]) {
      if j < |results| {
        assert Apart(results[i], results[j]);
      }
    }
  }

  lemma FirstApart(ways: Ways, results: seq<seq<LatpLon>>, remaining: set<WayID>)
    requires |results| <= 1
    ensures AllApart(results) && SettledUpTo(ways, results, remaining, |results| - 1)
  {
  }

  lemma NotEmpty(m: NodeMap)
    requires m != map[]
    ensures exists n :: n in m
  {
    assert m.Keys != {};
  }

  lemma NoneLeft(ways: Ways, m: NodeMap, remaining: set<WayID>)
    requires MapOk(ways, m, remaining, true) && m == map[]
    ensures remaining == {}
  {
  }

  // ----- Closed ways -----

  lemma {:induction false} PieceCounted(pieces: seq<Piece>, i: nat)
    requires i < |pieces|
    ensures Ids(pieces)[pieces[i].way] >= 1
  {
    if i > 0 {
      PieceCounted(pieces[1..], i - 1);
    }
  }

  lemma {:induction false} TwoPiecesCounted(pieces: seq<Piece>, i: nat, j: nat)
    requires i < j < |pieces| && pieces[i].way == pieces[j].way
    ensures Ids(pieces)[pieces[i].way] >= 2
  {
    if i == 0 {
      PieceCounted(pieces[1..], j - 1);
    } else {
      TwoPiecesCounted(pieces[1..], i - 1, j - 1);
    }
  }

  lemma {:induction false} PartCounted(parts: seq<seq<Piece>>, k: nat, w: WayID)
    requires k < |parts|
    ensures Ids(parts[k])[w] <= Total(parts)[w]
  {
    hide Ids;
    if k > 0 {
      PartCounted(parts[1..], k - 1, w);
    }
  }

  lemma {:induction false} TwoPartsCounted(parts: seq<seq<Piece>>, j: nat, k: nat, w: WayID)
    requires j < k < |parts|
    ensures Ids(parts[j])[w] + Ids(parts[k])[w] <= Total(parts)[w]
  {
    hide Ids;
    if j > 0 {
      TwoPartsCounted(parts[1..], j - 1, k - 1, w);
    } else {
      PartCounted(parts[1..], k - 1, w);
    }
  }

  lemma {:induction false} InSomePart(parts: seq<seq<Piece>>, w: WayID) returns (k: nat, i: nat)
    requires Total(parts)[w] >= 1
    ensures k < |parts| && i < |parts[k]| && parts[k][i].way == w
  {
    if Ids(parts[0])[w] >= 1 {
      i := InPieces(parts[0], w);
      k := 0;
    } else {
      k, i := InSomePart(parts[1..], w);
      k := k + 1;
    }
  }

  lemma {:induction false} InPieces(pieces: seq<Piece>, w: WayID) returns (i: nat)
    requires Ids(pieces)[w] >= 1
    ensures i < |pieces| && pieces[i].way == w
  {
    if pieces[0].way == w {
      i := 0;
    } else {
      i := InPieces(pieces[1..], w);
      i := i + 1;
    }
  }

  /** A way that touches way w, and is not w. */
  ghost predicate Touches(ways: Ways, v: WayID, w: WayID) {
    v != w && v in ways && ways[v] != [] && w in ways && ways[w] != [] &&
    (First(ways[v]) == First(ways[w]) || Last(ways[v]) == First(ways[w]))
  }

  /** A closed way is a result of its own, as it was, if no other available way ends at
      its node. */
  lemma RingAlone(ways: Ways, results: seq<seq<LatpLon>>, parts: seq<seq<Piece>>, available: set<WayID>, w: WayID) returns (k: nat)
    requires AllBuilt(ways, results, parts) && Total(parts) == multiset(available)
    requires w in available && w in ways && ways[w] != [] && !Open(ways[w])
    requires forall v :: v in available ==> !Touches(ways, v, w)
    ensures k < |results| && parts[k] == [Piece(w, false)] && results[k] == ways[w]
  {
    hide Total, Ids, AllBuilt, Touches;
    SameCount(ways, results, parts);
    var i: nat;
    k, i := InSomePart(parts, w);
    BuiltAt(ways, results, parts, k);
    if |parts[k]| > 1 {
      var n := if i > 0 then i - 1 else i + 1;
      NeighbourTouches(ways, results[k], parts[k], i, n);
      PieceCounted(parts[k], n);
      PartCounted(parts, k, parts[k][n].way);
      if parts[k][n].way == w {
        TwoPiecesCounted(parts[k], if i < n then i else n, if i < n then n else i);
        PartCounted(parts, k, w);
      }
      assert false;
    }
    SingleIs(ways, results, parts, k);
  }

  lemma NeighbourTouches(ways: Ways, result: seq<LatpLon>, pieces: seq<Piece>, i: nat, n: nat)
    requires Built(ways, result, pieces) && i < |pieces| && n < |pieces| && (n + 1 == i || n == i + 1)
    requires pieces[i].way in ways && ways[pieces[i].way] != [] && !Open(ways[pieces[i].way])
    ensures pieces[n].way != pieces[i].way ==> Touches(ways, pieces[n].way, pieces[i].way)
  {
    hide Reverse, Joined;
    OrientedEnds(ways, pieces[i].way, pieces[i].reversed);
    OrientedEnds(ways, pieces[n].way, pieces[n].reversed);
  }

  lemma SingleIs(ways: Ways, results: seq<seq<LatpLon>>, parts: seq<seq<Piece>>, k: nat)
    requires AllBuilt(ways, results, parts) && k < |results| && |parts[k]| == 1
    ensures parts[k][0].way in ways && parts[k] == [Piece(parts[k][0].way, false)] && results[k] == ways[parts[k][0].way]
  {
    hide Reverse;
    assert parts[k][1..] == [];
    assert Joined(ways, parts[k][1..]) == [];
    assert ways[parts[k][0].way] + [] == ways[parts[k][0].way];
  }

  lemma {:induction false} IdsSize(pieces: seq<Piece>)
    ensures |Ids(pieces)| == |pieces|
  {
    if pieces != [] {
      IdsSize(pieces[1..]);
    }
  }

  lemma {:induction false} TotalSize(parts: seq<seq<Piece>>)
    requires forall k :: 0 <= k < |parts| ==> parts[k] != []
    ensures |Total(parts)| >= |parts|
  {
    hide Ids;
    if parts != [] {
      IdsSize(parts[0]);
      TotalSize(parts[1..]);
    }
  }

  /** Two ways make one result of both, or a result each. */
  lemma TwoWays(parts: seq<seq<Piece>>, v: WayID, w: WayID)
    requires Total(parts) == multiset{v, w} && v != w && StartsWith(parts, v)
    requires forall k :: 0 <= k < |parts| ==> parts[k] != []
    ensures (|parts| == 1 && |parts[0]| == 2) ||
            (|parts| == 2 && |parts[0]| == |parts[1]| == 1 && parts[0][0].way == v && parts[1][0].way == w)
  {
    hide Ids;
    TotalSize(parts);
    IdsSize(parts[0]);
    var i: nat :| i < |parts[0]| && parts[0][i] == Piece(v, false);
    PieceCounted(parts[0], i);
    assert Total(parts) == Ids(parts[0]) + Total(parts[1..]);
    if |parts| > 1 {
      IdsSize(parts[1]);
      assert Total(parts[1..]) == Ids(parts[1]) + Total(parts[1..][1..]);
      PieceCounted(parts[1], 0);
      TwoPartsCounted(parts, 0, 1, parts[1][0].way);
    }
  }

  /** Not so if one does: with an open way first, and a closed way that touches it, the two
      become one result. */
  lemma RingIsJoined(ways: Ways, results: seq<seq<LatpLon>>, parts: seq<seq<Piece>>, v: WayID, w: WayID)
    requires AllBuilt(ways, results, parts) && Total(parts) == multiset{v, w} && AllApart(results)
    requires StartsWith(parts, v) && Touches(ways, v, w) && Open(ways[v]) && !Open(ways[w])
    ensures |results| == 1 && |parts[0]| == 2
  {
    hide Total, AllBuilt, Built;
    SameCount(ways, results, parts);
    forall k | 0 <= k < |parts| ensures parts[k] != [] {
      BuiltAt(ways, results, parts, k);
    }
    TwoWays(parts, v, w);
    if |parts| == 2 {
      assert Apart(results[0], results[1]);
      SingleIs(ways, results, parts, 0);
      SingleIs(ways, results, parts, 1);
    }
  }

  /** A ring b, c, b in a list after the way a, b: the ring is not kept, but becomes part
      of an open result. */
  method RingInAList(a: LatpLon, b: LatpLon, c: LatpLon) returns (results: seq<seq<LatpLon>>)
    requires a != b
    ensures |results| == 1 && [b, c, b] !in results
  {
    hide AllBuilt, Total, AllApart, StartsWith, IsFirst, Usable, Built, Touches, Open, Accounted, MapOk;
    var ways := map[1 := [a, b], 2 := [b, c, b]];
    var merger := new WayMerger(ways, {});
    merger.MergeMultiPolygonWays([1, 2]);
    FirstIsOne(ways);
    ARing(ways, a, b, c);
    RingIsJoined(ways, merger.results, merger.parts, 1, 2);
    BuiltAt(ways, merger.results, merger.parts, 0);
    JoinedIsLonger(ways, merger.results[0], merger.parts[0]);
    results := merger.results;
  }

  lemma FirstIsOne(ways: Ways)
    requires 1 in ways && 2 in ways
    ensures forall w :: IsFirst([1, 2], ways, {}, w) ==> w == 1
    ensures Usable([1, 2], ways, {}) == {1, 2} && multiset({1, 2}) == multiset{1, 2}
  {
    assert [1, 2][0] == 1 && [1, 2][1] == 2;
    assert 1 in Usable([1, 2], ways, {});
  }

  lemma ARing(ways: Ways, a: LatpLon, b: LatpLon, c: LatpLon)
    requires a != b && ways == map[1 := [a, b], 2 := [b, c, b]]
    ensures WaysOk(ways) && Touches(ways, 1, 2) && Open(ways[1]) && !Open(ways[2])
  {
  }

  lemma JoinedIsLonger(ways: Ways, result: seq<LatpLon>, pieces: seq<Piece>)
    requires Built(ways, result, pieces) && |pieces| == 2 && forall w :: w in ways ==> |ways[w]| >= 2
    ensures |result| >= 4
  {
    hide Reverse;
    assert Joined(ways, pieces) == Oriented(ways, pieces[0]) + Joined(ways, pieces[1..]);
    assert Joined(ways, pieces[1..]) == Oriented(ways, pieces[1]) + Joined(ways, pieces[1..][1..]);
  }

  /** The way t, s, r, q in a list after the way p, q: it is turned round, all its points. */
  method TurnedRound(p: LatpLon, q: LatpLon, r: LatpLon, s: LatpLon, t: LatpLon) returns (results: seq<seq<LatpLon>>)
    requires p != q && q != t && t != p
    ensures results == [[p, q, q, r, s, t]]
  {
    hide AllBuilt, Total, AllApart, StartsWith, IsFirst, Usable, Built, Open, Accounted, MapOk, FollowsWays, WaysOk;
    var ways := map[1 := [p, q], 2 := [t, s, r, q]];
    var merger := new WayMerger(ways, {});
    TwoOpenWays(ways, p, q, r, s, t);
    merger.MergeMultiPolygonWays([1, 2]);
    FirstIsOne(ways);
    SecondIsTurned(ways, merger.results, merger.parts, p, q, r, s, t);
    results := merger.results;
  }

  lemma TwoOpenWays(ways: Ways, p: LatpLon, q: LatpLon, r: LatpLon, s: LatpLon, t: LatpLon)
    requires ways == map[1 := [p, q], 2 := [t, s, r, q]]
    ensures WaysOk(ways)
  {
  }

  lemma SecondIsTurned(ways: Ways, results: seq<seq<LatpLon>>, parts: seq<seq<Piece>>,
                       p: LatpLon, q: LatpLon, r: LatpLon, s: LatpLon, t: LatpLon)
    requires p != q && q != t && t != p && ways == map[1 := [p, q], 2 := [t, s, r, q]]
    requires AllBuilt(ways, results, parts) && Total(parts) == multiset{1, 2} && AllApart(results) && StartsWith(parts, 1)
    requires |parts| == |results| && forall k :: 0 <= k < |results| ==> FollowsWays(ways, results[k], parts[k])
    ensures results == [[p, q, q, r, s, t]]
  {
    hide Total, AllBuilt, Built, FollowsWays;
    forall k | 0 <= k < |parts| ensures parts[k] != [] {
      BuiltAt(ways, results, parts, k);
    }
    TwoWays(parts, 1, 2);
    if |parts| == 2 {
      SingleIs(ways, results, parts, 0);
      SingleIs(ways, results, parts, 1);
      NotApart(results, p, q, r, s, t);
      assert false;
    }
    OnlyPart(parts);
    BothPieces(parts[0], 1, 2);
    BuiltAt(ways, results, parts, 0);
    PiecesInOrder(ways, results[0], parts[0], p, q, r, s, t);
    assert FollowsWays(ways, results[0], parts[0]);
    PointsInOrder(ways, results[0], p, q, r, s, t);
  }

  lemma NotApart(results: seq<seq<LatpLon>>, p: LatpLon, q: LatpLon, r: LatpLon, s: LatpLon, t: LatpLon)
    requires p != q && |results| == 2 && results[0] == [p, q] && results[1] == [t, s, r, q]
    ensures !AllApart(results)
  {
    assert !Apart(results[0], results[1]);
  }

  lemma OnlyPart(parts: seq<seq<Piece>>)
    requires |parts| == 1
    ensures Total(parts) == Ids(parts[0])
  {
    hide Ids;
    assert parts[1..] == [];
  }

  /** One of the pieces is the first way as it is, the other the second way. */
  ghost predicate Either(pieces: seq<Piece>, v: WayID, w: WayID) {
    |pieces| == 2 &&
    ((pieces[0] == Piece(v, false) && pieces[1].way == w) || (pieces[0].way == w && pieces[1] == Piece(v, false)))
  }

  lemma BothPieces(pieces: seq<Piece>, v: WayID, w: WayID)
    requires |pieces| == 2 && v != w && Ids(pieces) == multiset{v, w} && Piece(v, false) in pieces
    ensures Either(pieces, v, w)
  {
    assert pieces == [pieces[0], pieces[1]];
    assert pieces[1..] == [pieces[1]] && pieces[1..][1..] == [];
    assert Ids(pieces) == multiset{pieces[0].way, pieces[1].way};
    assert pieces[0].way in multiset{v, w} && pieces[1].way in multiset{v, w};
    assert multiset{v, w}[v] == 1;
  }

  lemma PiecesInOrder(ways: Ways, result: seq<LatpLon>, pieces: seq<Piece>,
                      p: LatpLon, q: LatpLon, r: LatpLon, s: LatpLon, t: LatpLon)
    requires p != q && q != t && t != p && ways == map[1 := [p, q], 2 := [t, s, r, q]]
    requires Built(ways, result, pieces) && Either(pieces, 1, 2)
    ensures pieces == [Piece(1, false), Piece(2, true)]
  {
    hide Joined, Reverse;
    assert Last(Oriented(ways, pieces[0])) == First(Oriented(ways, pieces[1]));
    OrientedEnds(ways, pieces[0].way, pieces[0].reversed);
    OrientedEnds(ways, pieces[1].way, pieces[1].reversed);
  }

  lemma PointsInOrder(ways: Ways, result: seq<LatpLon>, p: LatpLon, q: LatpLon, r: LatpLon, s: LatpLon, t: LatpLon)
    requires ways == map[1 := [p, q], 2 := [t, s, r, q]]
    requires FollowsWays(ways, result, [Piece(1, false), Piece(2, true)])
    ensures result == [p, q, q, r, s, t]
  {
    var pieces := [Piece(1, false), Piece(2, true)];
    assert pieces[1..] == [Piece(2, true)] && pieces[1..][1..] == [];
    assert PointsBefore(ways, pieces, 0) == 0 && PointsBefore(ways, pieces, 1) == 2;
    PieceAfter(ways, pieces, 1);
    assert StandsAt(ways, result, 0, pieces[0]) && StandsAt(ways, result, 2, pieces[1]);
    assert result[0] == p && result[1] == q;
    assert result[2] == q && result[3] == r && result[4] == s && result[5] == t;
  }
}
