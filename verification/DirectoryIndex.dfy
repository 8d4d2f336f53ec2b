/** Looking tile ids up in directories: the binary search, the run-length encoded
    list a writer builds, and the split of that list into a root and leaves. */
module DirectoryIndex {
  import opened Wrappers
  import opened Varint
  import opened Directory

  const NULL_ENTRY: Entry := Entry(0, 0, 0, 0)

  ghost predicate Sorted(es: seq<Entry>) {
    forall i, j :: 0 <= i < j < |es| ==> es[i].tileId < es[j].tileId
  }

  /** The last entry that does not start after id. */
  ghost function LastAtMost(es: seq<Entry>, id: nat): Option<Entry> {
    if es == [] then None
    else if es[|es| - 1].tileId <= id then Some(es[|es| - 1])
    else LastAtMost(es[..|es| - 1], id)
  }

  /** What a directory answers for an id: a run that covers it, a pointer to a leaf
      directory, or the null entry. */
  ghost function Found(es: seq<Entry>, id: nat): Entry {
    match LastAtMost(es, id)
    case None => NULL_ENTRY
    case Some(e) => if Covers(e, id) then e else NULL_ENTRY
  }

  lemma {:induction false} LastAtMostIs(es: seq<Entry>, id: nat, n: nat)
    requires n < |es| && es[n].tileId <= id
    requires forall i :: n < i < |es| ==> id < es[i].tileId
    ensures LastAtMost(es, id) == Some(es[n])
  {
    if n < |es| - 1 {
      LastAtMostIs(es[..|es| - 1], id, n);
    }
  }

  lemma {:induction false} LastAtMostNone(es: seq<Entry>, id: nat)
    requires forall i :: 0 <= i < |es| ==> id < es[i].tileId
    ensures LastAtMost(es, id) == None
  {
    if es != [] {
      LastAtMostNone(es[..|es| - 1], id);
    }
  }

  lemma {:induction false} LastAtMostSome(es: seq<Entry>, id: nat)
    requires es != [] && es[0].tileId <= id
    ensures LastAtMost(es, id).Some?
  {
    if es[|es| - 1].tileId > id {
      LastAtMostSome(es[..|es| - 1], id);
    }
  }

  lemma {:induction false} LastAtMostInList(es: seq<Entry>, id: nat)
    ensures LastAtMost(es, id).Some? ==> LastAtMost(es, id).value in es && LastAtMost(es, id).value.tileId <= id
  {
    if es != [] {
      LastAtMostInList(es[..|es| - 1], id);
    }
  }

  lemma {:induction false} LastAtMostConcat(a: seq<Entry>, b: seq<Entry>, id: nat)
    ensures LastAtMost(a + b, id) == if LastAtMost(b, id).Some? then LastAtMost(b, id) else LastAtMost(a, id)
  {
    if b == [] {
      assert a + b == a;
    } else {
      assert (a + b)[..|a + b| - 1] == a + b[..|b| - 1];
      LastAtMostConcat(a, b[..|b| - 1], id);
    }
  }

  /** The entry is a pointer at or before id, or a run that covers it. */
  predicate Covers(e: Entry, id: nat) {
    e.tileId <= id && (e.runLength == 0 || id - e.tileId < e.runLength)
  }

  /** find_tile takes the order of the entries for granted. In a list out of order it
      may miss, but what it returns is for the id. */
  method FindTile(entries: seq<Entry>, tileId: uint64) returns (r: Entry)
    ensures Sorted(entries) ==> r == Found(entries, tileId)
    ensures r == NULL_ENTRY || (r in entries && Covers(r, tileId))
  {
    var m, n: int := 0, |entries| - 1;
    while m <= n
      invariant 0 <= m <= n + 1 <= |entries|
      invariant 0 < m ==> entries[m - 1].tileId < tileId
      invariant n + 1 < |entries| ==> tileId < entries[n + 1].tileId
      decreases n - m
    {
      var k := (n + m) / 2;
      if tileId > entries[k].tileId {
        m := k + 1;
      } else if tileId < entries[k].tileId {
        n := k - 1;
      } else {
        if Sorted(entries) {
          SearchEnds(entries, tileId, k);
        }
        return entries[k];
      }
    }
    if Sorted(entries) {
      SearchEnds(entries, tileId, n);
    }
    if n >= 0 {
      if entries[n].runLength == 0 {
        return entries[n];
      }
      if tileId - entries[n].tileId < entries[n].runLength {
        return entries[n];
      }
    }
    r := NULL_ENTRY;
  }

  lemma SearchEnds(es: seq<Entry>, id: nat, n: int)
    requires Sorted(es) && -1 <= n < |es|
    requires 0 <= n ==> es[n].tileId <= id
    requires n + 1 < |es| && (0 <= n ==> es[n].tileId < id) ==> id < es[n + 1].tileId
    ensures LastAtMost(es, id) == if n < 0 then None else Some(es[n])
  {
    if n < 0 {
      LastAtMostNone(es, id);
    } else {
      LastAtMostIs(es, id, n);
    }
  }

  // ----- Run-length encoding -----

  /** Where a tile's bytes are: 40 bits of offset, 24 bits of length. */
  datatype TileOffset = TileOffset(offset: nat, length: nat)

  /** The last entry that does not start after id covers it exactly if the map has it. */
  ghost predicate Agrees(es: seq<Entry>, m: map<nat, TileOffset>, id: nat) {
    var e := LastAtMost(es, id);
    if id in m then
      e.Some? && id < e.value.tileId + e.value.runLength && m[id] == TileOffset(e.value.offset, e.value.length)
    else e.None? || e.value.tileId + e.value.runLength <= id
  }

  /** A list of runs that stands for a map. */
  ghost predicate Runs(es: seq<Entry>, m: map<nat, TileOffset>) {
    && Sorted(es)
    && (forall i :: 0 <= i < |es| ==> 1 <= es[i].runLength)
    && (forall i :: 0 <= i < |es| ==> es[i].tileId in m)
    && (forall id: nat :: Agrees(es, m, id))
  }

  predicate Extends(last: Entry, e: Entry) {
    last.offset == e.offset && last.tileId == Wrapped(e.tileId as int - last.runLength as int)
  }

  /** run_length++ on 32 bits. */
  function OneLonger(e: Entry): Entry {
    e.(runLength := (e.runLength as int + 1) % 0x1_0000_0000)
  }

  /** The list with one more tile. */
  ghost function WithTile(es: seq<Entry>, e: Entry): (r: seq<Entry>)
    ensures |es| <= |r| <= |es| + 1
  {
    if es == [] || !Extends(es[|es| - 1], e) then es + [e]
    else es[..|es| - 1] + [OneLonger(es[|es| - 1])]
  }

  method AppendWithRLE(entries: seq<Entry>, entry: Entry) returns (r: seq<Entry>)
    ensures r == WithTile(entries, entry)
  {
    if |entries| == 0 ||
       entries[|entries| - 1].offset != entry.offset ||
       entries[|entries| - 1].tileId != Wrapped(entry.tileId as int - entries[|entries| - 1].runLength as int) {
      return entries + [entry];
    }
    var last := entries[|entries| - 1];
    r := entries[..|entries| - 1] + [last.(runLength := (last.runLength as int + 1) % 0x1_0000_0000)];
  }

  /** 2^32 consecutive ids with the same offset: more than 32 bits can count. */
  ghost predicate LongRun(m: map<nat, TileOffset>, first: nat) {
    first in m && forall id: nat :: first <= id < first + 0x1_0000_0000 ==> id in m && m[id].offset == m[first].offset
  }

  /** A run that reaches 2^32 tiles, and no shorter one, turns into what a reader
      takes for a pointer to a leaf directory. */
  lemma HugeRunBecomesPointer(e: Entry, id: nat)
    requires e.tileId <= id && 0 < e.length && 0 < e.runLength
    ensures Found([OneLonger(e)], id) != NULL_ENTRY && Found([OneLonger(e)], id).runLength == 0
            <==> e.runLength == 0xFFFF_FFFF
  {
    LastAtMostIs([OneLonger(e)], id, 0);
  }

  ghost predicate AllBelow(m: map<nat, TileOffset>, id: nat) {
    forall k :: k in m ==> k < id
  }

  lemma AgreesAppend(es: seq<Entry>, m: map<nat, TileOffset>, e: Entry, id: nat)
    requires Agrees(es, m, id) && AllBelow(m, e.tileId) && e.runLength == 1
    ensures Agrees(es + [e], m[e.tileId as nat := TileOffset(e.offset, e.length)], id)
  {
    assert (es + [e])[..|es|] == es;
  }

  lemma SortedAppend(es: seq<Entry>, m: map<nat, TileOffset>, e: Entry)
    requires Sorted(es) && AllBelow(m, e.tileId)
    requires forall i :: 0 <= i < |es| ==> es[i].tileId in m
    ensures Sorted(es + [e])
  {
    forall i, j | 0 <= i < j < |es + [e]| ensures (es + [e])[i].tileId < (es + [e])[j].tileId {
      assert es[i].tileId in m;
    }
  }

  lemma RunsAppendNew(es: seq<Entry>, m: map<nat, TileOffset>, e: Entry)
    requires Runs(es, m) && AllBelow(m, e.tileId) && e.runLength == 1
    ensures Runs(es + [e], m[e.tileId as nat := TileOffset(e.offset, e.length)])
  {
    hide Agrees;
    hide LastAtMost;
    var m' := m[e.tileId as nat := TileOffset(e.offset, e.length)];
    MapGrows(m, e.tileId, TileOffset(e.offset, e.length));
    forall id: nat ensures Agrees(es + [e], m', id) {
      AgreesAppend(es, m, e, id);
    }
    SortedAppend(es, m, e);
    forall i | 0 <= i < |es + [e]|
      ensures 1 <= (es + [e])[i].runLength && (es + [e])[i].tileId in m'
    {
      if i < |es| {
        assert es[i].tileId in m;
      }
    }
  }

  lemma MapGrows(m: map<nat, TileOffset>, id: nat, o: TileOffset)
    requires AllBelow(m, id)
    ensures |m[id := o]| == |m| + 1
    ensures forall k :: k in m ==> k in m[id := o]
  {
    assert m[id := o].Keys == m.Keys + {id};
  }

  lemma RunsExtendLast(es: seq<Entry>, m: map<nat, TileOffset>, e: Entry)
    requires Runs(es, m) && AllBelow(m, e.tileId)
    requires es != [] && Extends(es[|es| - 1], e) && es[|es| - 1].length == e.length
    requires es[|es| - 1].runLength < 0xFFFF_FFFF
    ensures Runs(es[..|es| - 1] + [OneLonger(es[|es| - 1])], m[e.tileId as nat := TileOffset(e.offset, e.length)])
  {
    var n := |es| - 1;
    var last := es[n];
    var m' := m[e.tileId as nat := TileOffset(e.offset, e.length)];
    var longer := OneLonger(last);
    var es' := es[..n] + [longer];
    assert longer.runLength == last.runLength + 1;
    assert last.tileId as nat in m;
    RunEndsBefore(es, m, e.tileId);
    assert last.tileId + last.runLength == e.tileId;
    forall id: nat ensures Agrees(es', m', id) {
      assert Agrees(es, m, id);
      assert es'[..n] == es[..n];
    }
  }

  /** All ids of the last run are in the map, so the run ends at or before any id
      above them. */
  lemma RunEndsBefore(es: seq<Entry>, m: map<nat, TileOffset>, id: nat)
    requires Runs(es, m) && es != [] && AllBelow(m, id)
    ensures es[|es| - 1].tileId + es[|es| - 1].runLength <= id
  {
    assert es[|es| - 1].tileId in m;
    assert Agrees(es, m, id);
  }

  /** The last run, which e extends, stands for ids of equal offset: if it had reached
      the end of its counter, e would be the last of 2^32 of them. */
  lemma LastRunIsShort(es: seq<Entry>, m: map<nat, TileOffset>, e: Entry)
    requires Runs(es, m) && AllBelow(m, e.tileId) && es != [] && Extends(es[|es| - 1], e)
    requires !LongRun(m[e.tileId as nat := TileOffset(e.offset, e.length)], es[|es| - 1].tileId)
    ensures es[|es| - 1].runLength < 0xFFFF_FFFF
  {
    var last := es[|es| - 1];
    var m' := m[e.tileId as nat := TileOffset(e.offset, e.length)];
    RunIsInMap(es, m, |es| - 1);
    RunEndsBefore(es, m, e.tileId);
    if last.runLength == 0xFFFF_FFFF {
      forall id: nat | last.tileId <= id < last.tileId as nat + 0x1_0000_0000
        ensures id in m' && m'[id].offset == m'[last.tileId as nat].offset
      {
        LastAtMostIs(es, id, |es| - 1);
        assert Agrees(es, m, id);
      }
    }
  }

  lemma RunIsInMap(es: seq<Entry>, m: map<nat, TileOffset>, i: nat)
    requires Runs(es, m) && i < |es|
    ensures es[i].tileId in m && m[es[i].tileId as nat] == TileOffset(es[i].offset, es[i].length)
  {
    var id: nat := es[i].tileId;
    LastAtMostIs(es, id, i);
    assert Agrees(es, m, id);
  }

  /** Entering the tiles in ascending order keeps a list of runs that stands for the
      tiles so far, when equal offsets come with equal lengths. */
  lemma WithTileKeepsRuns(front: seq<Entry>, es: seq<Entry>, m: map<nat, TileOffset>, e: Entry)
    requires Runs(front + es, m) && AllBelow(m, e.tileId) && e.runLength == 1
    requires forall id :: id in m && m[id].offset == e.offset ==> m[id].length == e.length
    requires es != [] ==> !LongRun(m[e.tileId as nat := TileOffset(e.offset, e.length)], es[|es| - 1].tileId)
    ensures Runs(front + WithTile(es, e), m[e.tileId as nat := TileOffset(e.offset, e.length)])
  {
    hide Runs;
    hide AllBelow;
    if es == [] || !Extends(es[|es| - 1], e) {
      assert front + WithTile(es, e) == (front + es) + [e];
      RunsAppendNew(front + es, m, e);
    } else {
      var all := front + es;
      var n := |all| - 1;
      assert all[n] == es[|es| - 1];
      RunIsInMap(all, m, n);
      LastRunIsShort(all, m, e);
      RunsExtendLast(all, m, e);
      assert front + WithTile(es, e) == all[..n] + [OneLonger(all[n])];
    }
  }

  /** The list answers for id as the map does: with the tile's region, or with nothing. */
  ghost predicate Answers(es: seq<Entry>, m: map<nat, TileOffset>, id: nat) {
    var e := Found(es, id);
    if id in m then 0 < e.runLength && m[id] == TileOffset(e.offset, e.length) else e == NULL_ENTRY
  }

  lemma FoundInRuns(es: seq<Entry>, m: map<nat, TileOffset>, id: nat)
    requires Runs(es, m)
    ensures Answers(es, m, id)
  {
    assert Agrees(es, m, id);
    LastAtMostInList(es, id);
  }

  // ----- Leaves -----

  ghost function Flatten(leaves: seq<seq<Entry>>): seq<Entry> {
    if leaves == [] then [] else Flatten(leaves[..|leaves| - 1]) + leaves[|leaves| - 1]
  }

  /** The pointers name the leaves by their first ids. */
  ghost predicate PointAt(pointers: seq<Entry>, leaves: seq<seq<Entry>>) {
    && |pointers| == |leaves|
    && forall i :: 0 <= i < |leaves| ==>
         leaves[i] != [] && pointers[i].tileId == leaves[i][0].tileId && pointers[i].runLength == 0 && 0 < pointers[i].length
  }

  lemma {:induction false} LeafSorted(leaves: seq<seq<Entry>>, j: nat)
    requires j < |leaves| && Sorted(Flatten(leaves))
    ensures Sorted(leaves[j])
  {
    var n := |leaves| - 1;
    SortedParts(Flatten(leaves[..n]), leaves[n]);
    if j < n {
      LeafSorted(leaves[..n], j);
    }
  }

  /** The flat list is found by way of the pointers: where they lead nowhere it has
      nothing either, and otherwise the leaf holds its answer. */
  lemma {:induction false} ThroughPointers(pointers: seq<Entry>, leaves: seq<seq<Entry>>, id: nat)
    requires PointAt(pointers, leaves) && Sorted(Flatten(leaves))
    ensures LastAtMost(pointers, id).None? ==> LastAtMost(Flatten(leaves), id).None?
    ensures LastAtMost(pointers, id).Some? ==>
      exists j :: 0 <= j < |leaves| && LastAtMost(pointers, id) == Some(pointers[j]) &&
        LastAtMost(leaves[j], id).Some? && LastAtMost(Flatten(leaves), id) == LastAtMost(leaves[j], id)
  {
    if leaves != [] {
      var n := |leaves| - 1;
      var front := Flatten(leaves[..n]);
      SortedParts(front, leaves[n]);
      LastAtMostConcat(front, leaves[n], id);
      if leaves[n][0].tileId <= id {
        LastAtMostSome(leaves[n], id);
        assert LastAtMost(pointers, id) == Some(pointers[n]);
      } else {
        LastAtMostNone(leaves[n], id);
        ThroughPointers(pointers[..n], leaves[..n], id);
      }
    }
  }

  lemma SortedParts(a: seq<Entry>, b: seq<Entry>)
    requires Sorted(a + b)
    ensures Sorted(a) && Sorted(b)
    ensures forall x, y :: x in a && y in b ==> x.tileId < y.tileId
  {
    var c := a + b;
    forall i, j | 0 <= i < j < |a| ensures a[i].tileId < a[j].tileId {
      assert c[i] == a[i] && c[j] == a[j];
    }
    forall i, j | 0 <= i < j < |b| ensures b[i].tileId < b[j].tileId {
      assert c[|a| + i] == b[i] && c[|a| + j] == b[j];
    }
    forall x, y | x in a && y in b ensures x.tileId < y.tileId {
      var i :| 0 <= i < |a| && a[i] == x;
      var j :| 0 <= j < |b| && b[j] == y;
      assert c[i] == x && c[|a| + j] == y;
    }
  }

  lemma {:induction false} FlattenAppend(leaves: seq<seq<Entry>>, l: seq<Entry>)
    ensures Flatten(leaves + [l]) == Flatten(leaves) + l
  {
    assert (leaves + [l])[..|leaves|] == leaves;
  }

  lemma {:induction false} PointersSorted(pointers: seq<Entry>, leaves: seq<seq<Entry>>)
    requires PointAt(pointers, leaves) && Sorted(Flatten(leaves))
    ensures Sorted(pointers)
    ensures forall p :: p in pointers ==> exists e :: e in Flatten(leaves) && e.tileId == p.tileId
  {
    if leaves != [] {
      var n := |leaves| - 1;
      var front := Flatten(leaves[..n]);
      SortedParts(front, leaves[n]);
      PointersSorted(pointers[..n], leaves[..n]);
      assert leaves[n][0] in leaves[n];
      assert pointers == pointers[..n] + [pointers[n]];
      forall i, j | 0 <= i < j < |pointers| ensures pointers[i].tileId < pointers[j].tileId {
        if j == n {
          assert pointers[i] in pointers[..n];
          var e :| e in front && e.tileId == pointers[i].tileId;
        } else {
          assert pointers[..n][i] == pointers[i] && pointers[..n][j] == pointers[j];
        }
      }
      forall p | p in pointers ensures exists e :: e in Flatten(leaves) && e.tileId == p.tileId {
        if p in pointers[..n] {
          var e :| e in front && e.tileId == p.tileId;
          assert e in Flatten(leaves);
        } else {
          assert leaves[n][0] in Flatten(leaves);
        }
      }
    }
  }
}
