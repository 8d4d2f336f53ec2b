/** The way store's published groups: publishing one, and looking ways up. */
module SortedWayStore {
  import opened Wrappers
  import opened BitMask
  import opened IntCodec
  import opened Memory
  import opened SortedStoreProtocol
  import opened SortedStoreFinalize
  import opened SortedStoreAnswers
  import opened Chunks
  import opened WayCodec
  import opened WayGroup
  import opened WayGroupWriter

  /** Room for ids below 2^31. */
  const MAX_GROUPS: nat := 32768

  lemma RoomForIds(id: nat)
    ensures Group(id) < MAX_GROUPS <==> id < 0x8000_0000
  {
  }

  ghost predicate GroupsOk(ic: IntCodec, compress: bool, groups: seq<Option<seq<octet>>>, published: map<nat, Ways>) {
    && |groups| == MAX_GROUPS
    && (forall g :: g in published ==> g < MAX_GROUPS && GroupList(published[g], g) && AllEncoded(ic, compress, published[g]))
    && (forall g :: 0 <= g < MAX_GROUPS ==>
         groups[g] == if g in published then Some(Layout(ic, compress, published[g])) else None)
  }

  /** A way comes back as its bytes keep it. */
  ghost function Read(way: Option<seq<NodeId>>): Option<seq<nat>> {
    match way
    case Some(nodes) => Some(Kept(nodes))
    case None => None
  }

  /** A group that is not refused before its ways are encoded. */
  predicate CanEncode(ways: Ways) {
    ways != [] && Group(ways[0].id) < MAX_GROUPS && |ways| <= GROUP
  }

  class SortedWayStore {
    const ic: IntCodec
    const compressWays: bool
    var groups: seq<Option<seq<octet>>>
    var failed: bool
    // A way's deltas were written past the scratch buffer. What the program does from
    // then on is undefined.
    ghost var overran: bool
    ghost var published: map<nat, Ways>

    ghost predicate Valid()
      reads this
    {
      GoodIntCodec(ic) && GroupsOk(ic, compressWays, groups, published)
    }

    constructor (ic: IntCodec, compressWays: bool)
      requires GoodIntCodec(ic)
      ensures Valid() && published == map[] && !failed && !overran
      ensures this.ic == ic && this.compressWays == compressWays
    {
      this.ic := ic;
      this.compressWays := compressWays;
      groups := seq(MAX_GROUPS, _ => None);
      published, failed, overran := map[], false, false;
    }

    /** Besides the exceptions that nodes have too, a way may be too long, empty, or have
        ids too high to be encoded. */
    method PublishGroup(ways: Ways, ghost g: nat)
      requires Valid() && GroupList(ways, g)
      modifies this
      ensures Valid()
      ensures var overruns := CanEncode(ways) && Encodings(ic, compressWays, ways) == Overran;
              overran == (old(overran) || overruns) &&
              if CanPublish(MAX_GROUPS, old(published), ways) && AllEncoded(ic, compressWays, ways)
              then published == old(published)[g := ways] && failed == old(failed)
              else published == old(published) && (overruns || failed)
    {
      hide Layout;
      hide GoodIntCodec;
      hide AllEncoded;
      hide Encodings;
      hide ChunkOf;
      if |ways| == 0 {
        failed := true;
        return;
      }
      var groupIndex := Group(ways[0].id);
      assert groupIndex == g;
      if groupIndex >= |groups| {
        failed := true;
        return;
      }
      if |ways| > 256 * 256 {
        failed := true;
        return;
      }
      var r, bytes, space := WriteWays(ic, compressWays, ways);
      EncodingsDone(ic, compressWays, ways);
      if r == Overran {
        overran := true;
        return;
      }
      if r == Failed {
        failed := true;
        return;
      }
      if groups[groupIndex].Some? {
        failed := true;
        return;
      }
      groups := groups[groupIndex := Some(bytes)];
      published := published[groupIndex := ways];
    }

    /** The node ids of a way; None where the program throws. As with nodes, ids past
        the table of groups are not checked. */
    method At(id: nat) returns (r: Option<seq<nat>>)
      requires Valid() && id < 0x8000_0000
      ensures r == Read(Answer(published, id))
    {
      hide *;
      RoomForIds(id);
      GroupRoom();
      GroupIs(ic, compressWays, groups, published, id);
      var groupPtr := groups[Group(id)];
      if groupPtr.None? {
        return None;
      }
      var m := groupPtr.value;
      var place := Locate(m, id);
      ReadIs(ic, m, id);
      if place.None? {
        return None;
      }
      var nodes := DecodeWay(ic, HalfAt(m, place.value), From(m, place.value + 2));
      r := Some(nodes);
    }

    method Contains(id: nat) returns (r: bool)
      requires Valid() && id < 0x8000_0000
      ensures r <==> Answer(published, id).Some?
    {
      hide *;
      RoomForIds(id);
      GroupRoom();
      GroupIs(ic, compressWays, groups, published, id);
      var groupPtr := groups[Group(id)];
      if groupPtr.None? {
        return false;
      }
      var m := groupPtr.value;
      var chunk, slot := ChunkOf(id), Slot(id);
      var mask := MaskAt(m, 0);
      var chunkOffset := Rank(mask, chunk);
      if !IsSet(mask, chunk) {
        FindIs(m, id, 0);
        return false;
      }
      var base := WordAt(m, 32 + 4 * chunkOffset);
      FindIs(m, id, chunkOffset);
      MasksDecide(m, base, slot);
      if IsSet(MaskAt(m, base), slot) {
        return true;
      }
      r := IsSet(MaskAt(m, base as int + 32), slot);
    }

    lemma GroupRoom()
      requires Valid()
      ensures GoodIntCodec(ic) && GroupsOk(ic, compressWays, groups, published) && |groups| == MAX_GROUPS
    {
      hide GoodIntCodec;
    }
  }

  /** at's search through the masks. */
  method Locate(m: seq<octet>, id: nat) returns (place: Option<nat>)
    ensures place == FindWay(m, id)
  {
    hide IsSet;
    hide Rank;
    hide PopCount;
    hide MaskAt;
    hide HalfAt;
    hide WordAt;
    var chunk, slot := ChunkOf(id), Slot(id);
    var mask := MaskAt(m, 0);
    var chunkOffset := Rank(mask, chunk);
    if !IsSet(mask, chunk) {
      return None;
    }
    var base: nat := WordAt(m, 32 + 4 * chunkOffset);
    var smallWayMask, bigWayMask := MaskAt(m, base), MaskAt(m, base + 32);
    var numWays := PopCount(smallWayMask, 32) + PopCount(bigWayMask, 32);
    var endOfWayOffset := base + 64 + 2 * numWays;
    if IsSet(smallWayMask, slot) {
      place := Some(endOfWayOffset + HalfAt(m, base + 64 + 2 * Rank(smallWayMask, slot)));
      return;
    }
    var wayOffset := PopCount(smallWayMask, 32) + Rank(bigWayMask, slot);
    if !IsSet(bigWayMask, slot) {
      return None;
    }
    place := Some(endOfWayOffset + HalfAt(m, base + 64 + 2 * wayOffset) * 64);
  }

  lemma MasksDecide(m: seq<octet>, base: nat, slot: index)
    ensures FindInChunk(m, base, slot).Some? <==> IsSet(MaskAt(m, base), slot) || IsSet(MaskAt(m, base + 32), slot)
  {
    hide IsSet;
    hide Rank;
    hide PopCount;
    hide MaskAt;
    hide HalfAt;
  }

  lemma GroupIs(ic: IntCodec, compress: bool, groups: seq<Option<seq<octet>>>, published: map<nat, Ways>, id: nat)
    requires GoodIntCodec(ic) && GroupsOk(ic, compress, groups, published) && Group(id) < MAX_GROUPS
    ensures |groups| == MAX_GROUPS
    ensures groups[Group(id)].None? ==> Answer(published, id) == None
    ensures Read(None) == None
    ensures groups[Group(id)].Some? ==>
      var m := groups[Group(id)].value;
      Read(Answer(published, id)) == ReadWay(ic, m, id) && (FindWay(m, id).Some? <==> Answer(published, id).Some?) &&
      (FindWay(m, id).Some? ==> 1 <= LengthOf(HalfAt(m, FindWay(m, id).value)) <= MAX_NODES)
  {
    hide GoodIntCodec;
    hide Layout;
    hide ReadWay;
    hide FindWay;
    hide HalfAt;
    hide LengthOf;
    hide GroupList;
    hide Lookup;
    hide AllEncoded;
    hide Group;
    hide Kept;
    var g := Group(id);
    if g in published {
      LayoutIsHeld(Layout(ic, compress, published[g]));
      LayoutReads(ic, compress, published[g], g, Layout(ic, compress, published[g]), id);
    }
  }

  lemma LayoutIsHeld(m: seq<octet>)
    ensures HoldsAt(m, 0, m)
  {
  }

  /** With node ids below 2^35, a published way is read back as it was inserted. */
  lemma ReadsBack(ic: IntCodec, compress: bool, published: map<nat, Ways>, id: nat)
    requires Answer(published, id).Some? && EncodedWay(ic, compress, Answer(published, id).value).Ok?
    requires forall k :: 0 <= k < |Answer(published, id).value| ==> Answer(published, id).value[k] < 0x8_0000_0000
    ensures Read(Answer(published, id)) == Answer(published, id)
  {
    hide Kept;
    hide Encoded;
    hide Answer;
    var way := Answer(published, id).value;
    KeptIsWay(ic, way, compress && |way| >= 4);
  }

  // ----- A store filled with ways -----

  /** Neither empty nor too long, of ids below 2^35, and with deltas that fit in the scratch
      buffer if they are compressed: up to 1,928 points they do. */
  ghost predicate Storable(compress: bool, way: seq<NodeId>) {
    && way != [] && |way| <= 2000 && Fits(way, compress && |way| >= 4)
    && forall k :: 0 <= k < |way| ==> way[k] < 0x8_0000_0000
  }

  /** However the ways came in, no group published is refused, and each way is read back
      as it was inserted, and no other. */
  lemma FilledStoreReads(ic: IntCodec, compress: bool, i: Input<seq<NodeId>>,
                         runs: seq<Run<seq<NodeId>>>, steps: seq<Step>, id: nat)
    requires GoodIntCodec(ic) && IsRun(i, runs, steps) && AllRead(i, runs[|steps|].progress)
    requires forall k :: 0 <= k < |i.stream| ==> Storable(compress, i.stream[k].value)
    ensures var s := Finalized(runs[|steps|].store);
            !s.failed &&
            (forall g :: g in s.published ==>
              s.published[g] != [] && GroupList(s.published[g], g) && AllEncoded(ic, compress, s.published[g])) &&
            Read(Answer(s.published, id)) == Lookup(i.stream, id)
  {
    hide *;
    RunInput(i, runs, steps);
    EverythingPublishedOnce(i, runs, steps);
    FilledStoreAnswers(i, runs, steps, id);
    var published := Finalized(runs[|steps|].store).published;
    forall g | g in published
      ensures published[g] != [] && GroupList(published[g], g) && AllEncoded(ic, compress, published[g])
    {
      MembersEncoded(ic, compress, i.stream, g);
    }
    StorableReads(ic, compress, i.stream, published, id);
  }

  lemma MembersEncoded(ic: IntCodec, compress: bool, stream: Ways, g: nat)
    requires GoodIntCodec(ic) && Ascending(stream) && forall k :: 0 <= k < |stream| ==> Storable(compress, stream[k].value)
    ensures GroupList(Members(stream, g), g) && AllEncoded(ic, compress, Members(stream, g))
  {
    hide Encoded, Members, Storable, Group;
    MembersElements(stream, g);
    var m := Members(stream, g);
    forall k | 0 <= k < |m| ensures EncodedWay(ic, compress, m[k].value).Ok? {
      assert m[k] in SetOf(m);
      var j :| 0 <= j < |stream| && stream[j] == m[k];
      StorableEncodes(ic, compress, stream[j].value);
    }
  }

  lemma StorableEncodes(ic: IntCodec, compress: bool, way: seq<NodeId>)
    requires GoodIntCodec(ic) && Storable(compress, way)
    ensures EncodedWay(ic, compress, way).Ok?
  {
    hide Encoded;
    SmallIdsFit(ic, way, compress && |way| >= 4);
  }

  lemma StorableReads(ic: IntCodec, compress: bool, stream: Ways, published: map<nat, Ways>, id: nat)
    requires GoodIntCodec(ic) && Answer(published, id) == Lookup(stream, id)
    requires forall k :: 0 <= k < |stream| ==> Storable(compress, stream[k].value)
    ensures Read(Answer(published, id)) == Lookup(stream, id)
  {
    hide Encoded, Kept, Answer;
    if Answer(published, id).Some? {
      var k :| 0 <= k < |stream| && stream[k].value == Answer(published, id).value;
      StorableEncodes(ic, compress, stream[k].value);
      ReadsBack(ic, compress, published, id);
    }
  }
}
