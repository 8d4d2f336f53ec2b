/** The run-length encoding of a whole list of tiles, and exactly when its 32-bit run
    lengths suffice. */
module RunLengths {
  import opened Varint
  import opened Directory
  import opened DirectoryIndex

  /** Tiles in the order in which close enters them. Equal offsets come with equal
      lengths, as the saved tiles' do. */
  ghost predicate Ascending(tiles: seq<Entry>) {
    && Sorted(tiles)
    && (forall i :: 0 <= i < |tiles| ==> tiles[i].runLength == 1)
    && (forall i, j :: 0 <= i < |tiles| && 0 <= j < |tiles| && tiles[i].offset == tiles[j].offset ==>
          tiles[i].length == tiles[j].length)
  }

  /** The list after one call of appendWithRLE for each tile. */
  ghost function Encoded(tiles: seq<Entry>): seq<Entry> {
    if tiles == [] then [] else WithTile(Encoded(tiles[..|tiles| - 1]), tiles[|tiles| - 1])
  }

  ghost function TileMap(tiles: seq<Entry>): map<nat, TileOffset> {
    if tiles == [] then map[] else WithEntry(TileMap(tiles[..|tiles| - 1]), tiles[|tiles| - 1])
  }

  ghost function WithEntry(m: map<nat, TileOffset>, e: Entry): map<nat, TileOffset> {
    m[e.tileId as nat := TileOffset(e.offset, e.length)]
  }

  ghost predicate HasLongRun(m: map<nat, TileOffset>) {
    exists first: nat :: LongRun(m, first)
  }

  /** A counter that has wrapped, which find_tile takes for a pointer. */
  ghost predicate HasWrapped(es: seq<Entry>) {
    exists i :: 0 <= i < |es| && es[i].runLength == 0
  }

  /** Runs do not overlap, and where one ends and the next begins the offset changes. */
  ghost predicate Separate(es: seq<Entry>) {
    forall i :: 0 <= i < |es| - 1 ==> SeparateAt(es[i], es[i + 1])
  }

  ghost predicate SeparateAt(e: Entry, next: Entry) {
    && e.tileId + e.runLength <= next.tileId
    && (e.tileId + e.runLength == next.tileId ==> e.offset != next.offset)
  }

  /** The encoded list answers for every id as the tiles do if and only if no 2^32
      consecutive ids share an offset. */
  lemma EncodingIsExact(tiles: seq<Entry>)
    requires Ascending(tiles)
    ensures (forall id: nat :: Answers(Encoded(tiles), TileMap(tiles), id)) <==> !HasLongRun(TileMap(tiles))
  {
    var es, m := Encoded(tiles), TileMap(tiles);
    hide *;
    EncodedIs(tiles);
    WrappedParts(es, m);
    if HasWrapped(es) {
      WrappedAnswersWrong(es, m);
    } else {
      forall id: nat ensures Answers(es, m, id) {
        FoundInRuns(es, m, id);
      }
    }
  }

  /** What holds of the list at all times. */
  ghost predicate Headed(es: seq<Entry>, m: map<nat, TileOffset>) {
    Sorted(es) && forall i :: 0 <= i < |es| ==> es[i].tileId as nat in m
  }

  /** As long as no counter has wrapped, the list stands for the tiles, in the longest
      runs there are. */
  ghost predicate GoodSoFar(es: seq<Entry>, m: map<nat, TileOffset>) {
    && Headed(es, m)
    && (!HasWrapped(es) ==> Runs(es, m) && Separate(es))
    && (HasWrapped(es) <==> HasLongRun(m))
  }

  lemma {:induction false} EncodedIs(tiles: seq<Entry>)
    requires Ascending(tiles)
    ensures GoodSoFar(Encoded(tiles), TileMap(tiles))
  {
    if tiles == [] {
      hide Runs, GoodSoFar;
      NothingEncoded();
    } else {
      var n := |tiles| - 1;
      var front, e := tiles[..n], tiles[n];
      assert Ascending(front);
      hide GoodSoFar, LongRun, WithTile;
      EncodedIs(front);
      TilesBelow(front, e.tileId);
      TileLengths(front, e);
      Step(Encoded(front), TileMap(front), e);
    }
  }

  lemma NothingEncoded()
    ensures GoodSoFar([], map[])
  {
    var nothing: map<nat, TileOffset> := map[];
    forall first: nat ensures !LongRun(nothing, first) {
      assert first !in nothing;
    }
  }

  lemma {:induction false} TilesBelow(tiles: seq<Entry>, bound: nat)
    requires forall i :: 0 <= i < |tiles| ==> tiles[i].tileId < bound
    ensures AllBelow(TileMap(tiles), bound)
  {
    if tiles != [] {
      TilesBelow(tiles[..|tiles| - 1], bound);
    }
  }

  lemma {:induction false} TileLengths(tiles: seq<Entry>, e: Entry)
    requires forall i :: 0 <= i < |tiles| && tiles[i].offset == e.offset ==> tiles[i].length == e.length
    ensures forall id :: id in TileMap(tiles) && TileMap(tiles)[id].offset == e.offset ==> TileMap(tiles)[id].length == e.length
  {
    if tiles != [] {
      TileLengths(tiles[..|tiles| - 1], e);
    }
  }

  /** One more tile. */
  lemma Step(es: seq<Entry>, m: map<nat, TileOffset>, e: Entry)
    requires GoodSoFar(es, m) && AllBelow(m, e.tileId) && e.runLength == 1
    requires forall id :: id in m && m[id].offset == e.offset ==> m[id].length == e.length
    ensures GoodSoFar(WithTile(es, e), WithEntry(m, e))
  {
    hide Runs, Separate, HasLongRun, HasWrapped, WithTile, AllBelow;
    HeadedStep(es, m, e);
    if HasWrapped(es) {
      WrapStays(es, m, e);
      LongGrows(m, e);
    } else if es == [] || !Extends(es[|es| - 1], e) {
      NewRun(es, m, e);
    } else {
      LongerRun(es, m, e);
    }
  }

  lemma HeadedStep(es: seq<Entry>, m: map<nat, TileOffset>, e: Entry)
    requires Headed(es, m) && AllBelow(m, e.tileId)
    ensures Headed(WithTile(es, e), WithEntry(m, e))
  {
    SortedAppend(es, m, e);
  }

  /** A wrapped run is not lengthened again: a later tile cannot begin where it does. */
  lemma WrapStays(es: seq<Entry>, m: map<nat, TileOffset>, e: Entry)
    requires Headed(es, m) && AllBelow(m, e.tileId) && HasWrapped(es)
    ensures HasWrapped(WithTile(es, e))
  {
    var i :| 0 <= i < |es| && es[i].runLength == 0;
    assert es[i].tileId as nat in m;
    assert WithTile(es, e)[i].runLength == 0;
  }

  lemma LongGrows(m: map<nat, TileOffset>, e: Entry)
    requires AllBelow(m, e.tileId) && HasLongRun(m)
    ensures HasLongRun(WithEntry(m, e))
  {
    var first: nat :| LongRun(m, first);
    var m' := WithEntry(m, e);
    assert m'[first] == m[first];
    forall id: nat | first <= id < first + 0x1_0000_0000 ensures id in m' && m'[id].offset == m'[first].offset {
      assert id in m;
    }
    assert LongRun(m', first);
  }

  lemma NewRun(es: seq<Entry>, m: map<nat, TileOffset>, e: Entry)
    requires Runs(es, m) && Separate(es) && !HasWrapped(es) && !HasLongRun(m)
    requires AllBelow(m, e.tileId) && e.runLength == 1
    requires es == [] || !Extends(es[|es| - 1], e)
    ensures !HasWrapped(WithTile(es, e)) && !HasLongRun(WithEntry(m, e))
    ensures Runs(WithTile(es, e), WithEntry(m, e)) && Separate(WithTile(es, e))
  {
    hide Runs, LongRun, AllBelow;
    RunsAppendNew(es, m, e);
    if es != [] {
      RunEndsBefore(es, m, e.tileId);
    }
    NoLongerThanLast(es, m, e);
  }

  lemma LongerRun(es: seq<Entry>, m: map<nat, TileOffset>, e: Entry)
    requires Runs(es, m) && Separate(es) && !HasWrapped(es) && !HasLongRun(m)
    requires AllBelow(m, e.tileId) && e.runLength == 1
    requires forall id :: id in m && m[id].offset == e.offset ==> m[id].length == e.length
    requires es != [] && Extends(es[|es| - 1], e)
    ensures HasWrapped(WithTile(es, e)) <==> HasLongRun(WithEntry(m, e))
    ensures !HasWrapped(WithTile(es, e)) ==> Runs(WithTile(es, e), WithEntry(m, e)) && Separate(WithTile(es, e))
  {
    hide Runs, LongRun, AllBelow;
    var n := |es| - 1;
    RunIsInMap(es, m, n);
    if es[n].runLength == 0xFFFF_FFFF {
      assert WithTile(es, e)[n].runLength == 0;
      if !LongRun(WithEntry(m, e), es[n].tileId) {
        LastRunIsShort(es, m, e);
      }
    } else {
      RunsExtendLast(es, m, e);
      RunEndsBefore(es, m, e.tileId);
      NoLongerThanLast(es, m, e);
    }
  }

  /** The ids from first up to e share e's offset. */
  ghost predicate Alike(m: map<nat, TileOffset>, first: nat, e: Entry) {
    first < e.tileId && forall id: nat :: first <= id < e.tileId ==> id in m && m[id].offset == e.offset
  }

  /** Runs being the longest there are, the last one holds all ids like e before e. */
  lemma LastRunHolds(es: seq<Entry>, m: map<nat, TileOffset>, e: Entry, first: nat)
    requires Runs(es, m) && Separate(es) && AllBelow(m, e.tileId) && Alike(m, first, e)
    ensures es != [] && Extends(es[|es| - 1], e)
    ensures es[|es| - 1].tileId <= first && es[|es| - 1].tileId + es[|es| - 1].runLength == e.tileId
  {
    var id: nat := e.tileId - 1;
    assert id in m && Agrees(es, m, id);
    LastAtMostInList(es, id);
    var n := |es| - 1;
    assert es[n].tileId as nat in m;
    LastAtMostIs(es, id, n);
    RunEndsBefore(es, m, e.tileId);
    assert 0 < n ==> SeparateAt(es[n - 1], es[n]);
    if first < es[n].tileId {
      var before: nat := es[n].tileId - 1;
      assert before in m && Agrees(es, m, before);
      if n == 0 {
        LastAtMostNone(es, before);
      } else {
        LastAtMostIs(es, before, n - 1);
      }
    }
  }

  /** A long run that e completes makes the last run's counter full. */
  lemma NoLongerThanLast(es: seq<Entry>, m: map<nat, TileOffset>, e: Entry)
    requires Runs(es, m) && Separate(es) && AllBelow(m, e.tileId) && !HasLongRun(m)
    requires es == [] || !Extends(es[|es| - 1], e) || es[|es| - 1].runLength < 0xFFFF_FFFF
    ensures !HasLongRun(WithEntry(m, e))
  {
    hide Runs, Separate;
    if HasLongRun(WithEntry(m, e)) {
      var first: nat :| LongRun(WithEntry(m, e), first);
      CompletedBy(m, e, first);
      LastRunHolds(es, m, e, first);
    }
  }

  lemma CompletedBy(m: map<nat, TileOffset>, e: Entry, first: nat)
    requires AllBelow(m, e.tileId) && !HasLongRun(m) && LongRun(WithEntry(m, e), first)
    ensures first + 0xFFFF_FFFF == e.tileId && Alike(m, first, e)
  {
    var m' := WithEntry(m, e);
    assert first + 0xFFFF_FFFF in m';
    if first + 0xFFFF_FFFF != e.tileId {
      assert first in m';
      forall id: nat | first <= id < first + 0x1_0000_0000 ensures id in m && m[id].offset == m[first].offset {
        assert id in m';
      }
      assert LongRun(m, first);
    } else {
      assert e.tileId as nat in m';
      forall id: nat | first <= id < e.tileId ensures id in m && m[id].offset == e.offset {
        assert id in m';
      }
    }
  }

  /** The question for a wrapped run's own first tile is passed on to a directory that
      does not exist. */
  lemma WrappedAnswersWrong(es: seq<Entry>, m: map<nat, TileOffset>)
    requires Headed(es, m) && HasWrapped(es)
    ensures exists id: nat :: !Answers(es, m, id)
  {
    var i :| 0 <= i < |es| && es[i].runLength == 0;
    LastAtMostIs(es, es[i].tileId, i);
    assert !Answers(es, m, es[i].tileId);
  }

  lemma WrappedParts(es: seq<Entry>, m: map<nat, TileOffset>)
    requires GoodSoFar(es, m)
    ensures Headed(es, m)
    ensures !HasWrapped(es) ==> Runs(es, m)
    ensures HasWrapped(es) <==> HasLongRun(m)
  {
    hide Headed, HasWrapped, Runs, HasLongRun;
  }
}
