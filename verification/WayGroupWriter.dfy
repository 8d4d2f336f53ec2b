/** Writing a group of ways into memory: encode and group by chunk, compute the space,
    then place masks, offsets and ways. */
module WayGroupWriter {
  import opened BitMask
  import opened IntCodec
  import opened Memory
  import opened SortedStoreProtocol
  import opened Chunks
  import opened WayCodec
  import opened WayGroup

  /** The ways of a chunk, encoded. */
  datatype ChunkData = ChunkData(id: index, wayIds: seq<index>, wayFlags: seq<nat>, encodedWays: seq<seq<octet>>)

  const STREAMVBYTE_PADDING: nat := 16

  predicate WellFormed(d: ChunkData) {
    |d.wayIds| == |d.wayFlags| == |d.encodedWays| && forall k :: 0 <= k < |d.wayFlags| ==> d.wayFlags[k] < 0x1_0000
  }

  ghost function ItemsIn(d: ChunkData): (r: seq<Item>)
    requires WellFormed(d)
    ensures |r| == |d.wayIds|
  {
    seq(|d.wayIds|, k requires 0 <= k < |d.wayIds| => Item(d.wayIds[k], Bytes2(d.wayFlags[k]) + d.encodedWays[k]))
  }

  ghost predicate AllWellFormed(ds: seq<ChunkData>) {
    forall c :: 0 <= c < |ds| ==> WellFormed(ds[c])
  }

  ghost function AllItems(ds: seq<ChunkData>): (r: seq<seq<Item>>)
    requires AllWellFormed(ds)
    ensures |r| == |ds|
  {
    seq(|ds|, c requires 0 <= c < |ds| => ItemsIn(ds[c]))
  }

  function Numbers(ds: seq<ChunkData>): (r: seq<index>)
    ensures |r| == |ds|
  {
    seq(|ds|, c requires 0 <= c < |ds| => ds[c].id)
  }

  // ----- 1. Encoding -----

  /** ds holds the ways of these chunks, encoded. */
  ghost predicate Encodes(ic: IntCodec, compress: bool, ds: seq<ChunkData>, cs: seq<Ways>) {
    |ds| == |cs| && forall c :: 0 <= c < |cs| ==> EncodesChunk(ic, compress, ds[c], cs[c])
  }

  ghost predicate EncodesChunk(ic: IntCodec, compress: bool, d: ChunkData, c: Ways) {
    WellFormed(d) && d.id == ChunkNumber(c) && ItemsIn(d) == Items(ic, compress, c)
  }

  lemma EncodesOneMore(ic: IntCodec, compress: bool, d: ChunkData, c: Ways, e: Element<seq<NodeId>>, flags: nat, output: seq<octet>)
    requires EncodesChunk(ic, compress, d, c) && c != [] && flags < 0x1_0000
    requires WayBytes(ic, compress, e.value) == Bytes2(flags) + output
    ensures EncodesChunk(ic, compress,
              d.(wayIds := d.wayIds + [Slot(e.id)], wayFlags := d.wayFlags + [flags], encodedWays := d.encodedWays + [output]), c + [e])
  {
    hide WayBytes;
    hide Bytes2;
    hide ChunkOf;
    var d' := d.(wayIds := d.wayIds + [Slot(e.id)], wayFlags := d.wayFlags + [flags], encodedWays := d.encodedWays + [output]);
    var items, items' := Items(ic, compress, c), Items(ic, compress, c + [e]);
    assert |ItemsIn(d)| == |d.wayIds|;
    forall k | 0 <= k < |items'| ensures ItemsIn(d')[k] == items'[k] {
      if k < |items| {
        assert ItemsIn(d)[k] == items[k];
      }
    }
  }

  lemma EncodesFirst(ic: IntCodec, compress: bool, e: Element<seq<NodeId>>, flags: nat, output: seq<octet>)
    requires flags < 0x1_0000 && WayBytes(ic, compress, e.value) == Bytes2(flags) + output
    ensures EncodesChunk(ic, compress, ChunkData(ChunkOf(e.id), [Slot(e.id)], [flags], [output]), [e])
  {
    hide WayBytes;
    hide Bytes2;
  }

  method EncodeChunks(ic: IntCodec, compress: bool, ways: Ways) returns (r: Outcome, chunks: seq<ChunkData>)
    ensures r == Encodings(ic, compress, ways)
    ensures r.Done? ==> Encodes(ic, compress, chunks, Split(ways))
  {
    hide *;
    r, chunks := Done, [];
    NothingEncoded(ic, compress, ways);
    for i := 0 to |ways|
      invariant Encodings(ic, compress, ways[..i]).Done? && Encodes(ic, compress, chunks, Split(ways[..i]))
    {
      var currentChunk := ChunkOf(ways[i].id);
      EncodedGrows(ic, compress, ways, i);
      GrownIs(ic, compress, chunks, ways, i);
      var flags, output;
      var e := EncodeWay(ic, ways[i].value, compress && |ways[i].value| >= 4);
      EncodedWayIs(ic, compress, ways[i].value);
      if !e.Ok? {
        EncodingsStop(ic, compress, ways, i + 1);
        return OutcomeOf(e), [];
      }
      flags, output := e.flags, e.output;
      WayBytesParts(ic, compress, ways[i].value);
      ghost var before := chunks;
      if |chunks| == 0 || chunks[|chunks| - 1].id != currentChunk {
        EncodesFirst(ic, compress, ways[i], flags, output);
        chunks := chunks + [ChunkData(currentChunk, [Slot(ways[i].id)], [flags], [output])];
        EncodesNew(ic, compress, before, chunks[|chunks| - 1], ways, i);
      } else {
        var last := chunks[|chunks| - 1];
        EncodesOneMore(ic, compress, last, LastChunk(ways, i), ways[i], flags, output);
        last := last.(wayIds := last.wayIds + [Slot(ways[i].id)], wayFlags := last.wayFlags + [flags],
                      encodedWays := last.encodedWays + [output]);
        chunks := chunks[..|chunks| - 1] + [last];
        EncodesExtended(ic, compress, before, last, ways, i);
      }
    }
    assert ways[..|ways|] == ways;
  }

  lemma NothingEncoded(ic: IntCodec, compress: bool, ways: Ways)
    ensures Encodings(ic, compress, ways[..0]).Done? && Encodes(ic, compress, [], Split(ways[..0]))
  {
  }

  lemma EncodedGrows(ic: IntCodec, compress: bool, ways: Ways, i: nat)
    requires i < |ways| && Encodings(ic, compress, ways[..i]).Done?
    ensures Encodings(ic, compress, ways[..i + 1]) == OutcomeOf(EncodedWay(ic, compress, ways[i].value))
    ensures forall e: EncodeResult :: e.Ok? <==> OutcomeOf(e).Done?
  {
    hide EncodedWay;
    assert ways[..i + 1][..i] == ways[..i];
  }

  lemma EncodedWayIs(ic: IntCodec, compress: bool, way: seq<NodeId>)
    ensures EncodedWay(ic, compress, way) == Encoded(ic, way, compress && |way| >= 4)
  {
  }

  ghost function LastChunk(ways: Ways, i: nat): Ways
    requires i <= |ways|
  {
    var cs: seq<Ways> := Split(ways[..i]);
    if cs == [] then [] else cs[|cs| - 1]
  }

  lemma GrownIs(ic: IntCodec, compress: bool, chunks: seq<ChunkData>, ways: Ways, i: nat)
    requires i < |ways| && Encodes(ic, compress, chunks, Split(ways[..i]))
    ensures chunks == [] <==> Split(ways[..i]) == []
    ensures chunks != [] ==>
      LastChunk(ways, i) != [] && EncodesChunk(ic, compress, chunks[|chunks| - 1], LastChunk(ways, i)) &&
      chunks[|chunks| - 1].id == ChunkNumber(LastChunk(ways, i))
    ensures Split(ways[..i + 1]) ==
      if chunks != [] && chunks[|chunks| - 1].id == ChunkOf(ways[i].id)
      then Split(ways[..i])[..|chunks| - 1] + [LastChunk(ways, i) + [ways[i]]]
      else Split(ways[..i]) + [[ways[i]]]
  {
    hide ChunkOf;
    hide ItemsIn;
    assert ways[..i + 1][..i] == ways[..i];
  }

  lemma EncodesNew(ic: IntCodec, compress: bool, before: seq<ChunkData>, d: ChunkData, ways: Ways, i: nat)
    requires i < |ways| && Encodes(ic, compress, before, Split(ways[..i])) && EncodesChunk(ic, compress, d, [ways[i]])
    requires Split(ways[..i + 1]) == Split(ways[..i]) + [[ways[i]]]
    ensures Encodes(ic, compress, before + [d], Split(ways[..i + 1]))
  {
    hide EncodesChunk;
    hide Split;
  }

  lemma EncodesExtended(ic: IntCodec, compress: bool, before: seq<ChunkData>, d: ChunkData, ways: Ways, i: nat)
    requires i < |ways| && Encodes(ic, compress, before, Split(ways[..i])) && before != []
    requires EncodesChunk(ic, compress, d, LastChunk(ways, i) + [ways[i]])
    requires Split(ways[..i + 1]) == Split(ways[..i])[..|before| - 1] + [LastChunk(ways, i) + [ways[i]]]
    ensures Encodes(ic, compress, before[..|before| - 1] + [d], Split(ways[..i + 1]))
  {
    hide EncodesChunk;
    hide Split;
    hide LastChunk;
  }

  // ----- 2. Space -----

  lemma SizedGrows(items: seq<Item>, i: nat, small: bool)
    requires i < |items|
    ensures Sized(items[..i + 1], small) ==
      if |items[i].bytes| < 256 <==> small then Sized(items[..i], small) + [items[i]] else Sized(items[..i], small)
    ensures items[..|items|] == items && Sized(items[..0], small) == []
  {
    assert items[..i + 1][..i] == items[..i];
  }

  lemma AreaGrows(items: seq<Item>, it: Item, small: bool)
    ensures Area(items + [it], small) == Area(items, small) + if small then it.bytes else Pad64(it.bytes)
    ensures Area([], small) == []
  {
    hide Pad64;
    var places := Places(items + [it], small);
    assert places[..|items|] == Places(items, small);
  }

  function SpaceFor(waySize: nat): nat
    requires waySize > 0
  {
    ((waySize - 1) / LARGE_WAY_ALIGNMENT + 1) * LARGE_WAY_ALIGNMENT
  }

  lemma SpaceOf(waySize: nat, b: seq<octet>)
    requires |b| == waySize > 0
    ensures SpaceFor(waySize) == |Pad64(b)|
  {
  }

  method SpaceNeeded(chunks: seq<ChunkData>) returns (groupSpace: nat)
    requires AllWellFormed(chunks)
    ensures groupSpace == |GroupBytes(Numbers(chunks), AllItems(chunks))| + 16
  {
    hide *;
    groupSpace := 32 + |chunks| * 4 + |chunks| * 64;
    Start(chunks);
    for c := 0 to |chunks|
      invariant groupSpace == 32 + 4 * |chunks| + 64 * (|chunks| - c) + |Concat(AllChunks(AllItems(chunks))[..c])|
    {
      ghost var items := ItemsAt(chunks, c);
      groupSpace := groupSpace + |chunks[c].wayIds| * 2;
      var smallWaySize: nat, largeWaySize: nat := 0, 0;
      AreaGrows([], Item(0, []), true);
      AreaGrows([], Item(0, []), false);
      Empties(items);
      for i := 0 to |chunks[c].wayIds|
        invariant smallWaySize == |Area(Sized(items[..i], true), true)|
        invariant largeWaySize == |Area(Sized(items[..i], false), false)|
      {
        var waySize := |chunks[c].encodedWays[i]| + 2;
        ItemAt(chunks[c], i);
        SizedGrows(items, i, true);
        SizedGrows(items, i, false);
        AreaGrows(Sized(items[..i], true), items[i], true);
        AreaGrows(Sized(items[..i], false), items[i], false);
        if waySize < 256 {
          smallWaySize := smallWaySize + waySize;
        } else {
          SpaceOf(waySize, items[i].bytes);
          largeWaySize := largeWaySize + SpaceFor(waySize);
        }
      }
      assert items[..|items|] == items;
      SmallAreaSize(items);
      ChunkBytesSize(items);
      OneMoreChunk(chunks, c);
      groupSpace := groupSpace + smallWaySize;
      if smallWaySize % 64 != 0 {
        groupSpace := groupSpace + (64 - smallWaySize % 64);
      }
      groupSpace := groupSpace + largeWaySize;
    }
    End(chunks);
    groupSpace := groupSpace + 16;
  }

  ghost function ItemsAt(chunks: seq<ChunkData>, c: nat): (r: seq<Item>)
    requires AllWellFormed(chunks) && c < |chunks|
    ensures |r| == |chunks[c].wayIds| == |chunks[c].wayFlags| == |chunks[c].encodedWays|
    ensures WellFormed(chunks[c]) && r == ItemsIn(chunks[c])
  {
    ItemsIn(chunks[c])
  }

  lemma Empties(items: seq<Item>)
    ensures Sized(items[..0], true) == [] && Sized(items[..0], false) == []
  {
  }

  lemma ItemAt(d: ChunkData, i: nat)
    requires WellFormed(d) && i < |d.wayIds|
    ensures d.wayFlags[i] < 0x1_0000 && ItemsIn(d)[i] == Item(d.wayIds[i], Bytes2(d.wayFlags[i]) + d.encodedWays[i])
    ensures |ItemsIn(d)[i].bytes| == |d.encodedWays[i]| + 2
  {
    hide Bytes2;
  }

  lemma SmallAreaSize(items: seq<Item>)
    ensures var n := |Area(Sized(items, true), true)|;
            |SmallArea(items)| == if n % 64 != 0 then n + (64 - n % 64) else n
  {
    hide Area;
    hide Sized;
  }

  lemma {:induction false} SizedCount(items: seq<Item>)
    ensures |Sized(items, true)| + |Sized(items, false)| == |items|
  {
    if items != [] {
      SizedCount(items[..|items| - 1]);
    }
  }

  lemma ChunkBytesSize(items: seq<Item>)
    ensures |ChunkBytes(items)| == 64 + 2 * |items| + |SmallArea(items)| + |Area(Sized(items, false), false)|
  {
    hide Area;
    hide Sized;
    hide SmallArea;
    hide MaskFor;
    hide SmallOffsets;
    hide BigOffsets;
    SizedCount(items);
    ConcatOfEqual(OffsetTable(SmallOffsets(items) + BigOffsets(items)), 2);
  }

  lemma Start(chunks: seq<ChunkData>)
    requires AllWellFormed(chunks)
    ensures Concat(AllChunks(AllItems(chunks))[..0]) == [] && |AllChunks(AllItems(chunks))| == |chunks|
  {
  }

  lemma OneMoreChunk(chunks: seq<ChunkData>, c: nat)
    requires AllWellFormed(chunks) && c < |chunks|
    ensures |AllChunks(AllItems(chunks))| == |chunks|
    ensures Concat(AllChunks(AllItems(chunks))[..c + 1]) == Concat(AllChunks(AllItems(chunks))[..c]) + ChunkBytes(ItemsIn(chunks[c]))
  {
    hide ChunkBytes;
    var all := AllChunks(AllItems(chunks));
    assert all[..c + 1][..c] == all[..c];
  }

  lemma End(chunks: seq<ChunkData>)
    requires AllWellFormed(chunks)
    ensures |AllChunks(AllItems(chunks))| == |chunks|
    ensures |GroupBytes(Numbers(chunks), AllItems(chunks))| == 32 + 4 * |chunks| + |Concat(AllChunks(AllItems(chunks))[..|chunks|])|
    ensures STREAMVBYTE_PADDING == 16
  {
    hide ChunkBytes;
    hide MaskFor;
    var all := AllChunks(AllItems(chunks));
    assert all[..|chunks|] == all;
    TableEntries4(AllItems(chunks));
    ConcatOfEqual(ChunkTable(AllItems(chunks)), 4);
  }

  // ----- 3. Placing -----

  method PopulateMask(ids: seq<index>) returns (mask: Mask)
    ensures mask == MaskFor(ids)
  {
    mask := EmptyMask();
    for i := 0 to |ids|
      invariant mask == MaskFor(ids[..i])
    {
      assert ids[..i + 1][..i] == ids[..i];
      mask := Including(mask, ids[i]);
    }
    assert ids[..|ids|] == ids;
  }

  ghost function BigOffsetsFrom(start: nat, bigs: seq<Item>): (r: seq<nat>)
    ensures |r| == |bigs|
  {
    seq(|bigs|, k requires 0 <= k < |bigs| => (start + |Area(bigs[..k], false)|) / 64)
  }

  lemma SmallOffsetsGrow(items: seq<Item>, i: nat)
    requires i < |items|
    ensures |items[i].bytes| < 256 ==>
      SmallOffsets(items[..i + 1]) == SmallOffsets(items[..i]) + [|Area(Sized(items[..i], true), true)|]
    ensures |items[i].bytes| >= 256 ==> SmallOffsets(items[..i + 1]) == SmallOffsets(items[..i])
  {
    hide Area;
    SizedGrows(items, i, true);
    var before, after := Sized(items[..i], true), Sized(items[..i + 1], true);
    hide Sized;
    forall k | 0 <= k <= |before| ensures k <= |after| && after[..k] == before[..k] {
    }
    assert before[..|before|] == before;
  }

  lemma BigOffsetsGrow(start: nat, bigs: seq<Item>, it: Item)
    ensures BigOffsetsFrom(start, bigs + [it]) == BigOffsetsFrom(start, bigs) + [(start + |Area(bigs, false)|) / 64]
  {
    hide Area;
    forall k | 0 <= k <= |bigs| ensures (bigs + [it])[..k] == bigs[..k] {
    }
    assert bigs[..|bigs|] == bigs;
  }

  /** One chunk. The exception about the alignment of a big way cannot occur. */
  method WriteChunk(d: ChunkData) returns (aligned: bool, bytes: seq<octet>)
    requires WellFormed(d)
    ensures aligned && bytes == ChunkBytes(ItemsIn(d))
  {
    hide *;
    ghost var items := ItemsIn(d);
    aligned := true;
    Lengths(d);
    var numWays := |d.wayIds|;
    var smallWays: seq<index>, bigWays: seq<index> := [], [];
    Empties(items);
    SlotsGrow([], Item(0, []));
    for i := 0 to numWays
      invariant smallWays == SlotsOf(Sized(items[..i], true)) && bigWays == SlotsOf(Sized(items[..i], false))
    {
      ItemAt(d, i);
      SizedGrows(items, i, true);
      SizedGrows(items, i, false);
      SlotsGrow(Sized(items[..i], true), items[i]);
      SlotsGrow(Sized(items[..i], false), items[i]);
      var waySize := |d.encodedWays[i]| + 2;
      if waySize < 256 {
        smallWays := smallWays + [d.wayIds[i]];
      } else {
        bigWays := bigWays + [d.wayIds[i]];
      }
    }
    assert items[..|items|] == items;
    var smallWayMask := PopulateMask(smallWays);
    var bigWayMask := PopulateMask(bigWays);
    var area, wayOffsets := WriteSmallWays(d);
    var moreArea, moreOffsets;
    aligned, moreArea, moreOffsets := WriteBigWays(d, |area|);
    var masks: seq<octet> := smallWayMask;
    bytes := masks + bigWayMask + OffsetBytes(wayOffsets + moreOffsets) + area + moreArea;
    Assembled(items);
  }

  lemma Lengths(d: ChunkData)
    requires WellFormed(d)
    ensures |d.wayIds| == |d.wayFlags| == |d.encodedWays| == |ItemsIn(d)|
  {
  }

  lemma SlotsGrow(items: seq<Item>, it: Item)
    ensures SlotsOf(items + [it]) == SlotsOf(items) + [it.slot] && SlotsOf([]) == []
  {
  }

  /** The table of the 16-bit offsets. */
  function OffsetBytes(offsets: seq<nat>): seq<octet> {
    Concat(OffsetTable(offsets))
  }

  lemma Assembled(items: seq<Item>)
    ensures ChunkBytes(items) ==
      MaskFor(SlotsOf(Sized(items, true))) + MaskFor(SlotsOf(Sized(items, false)))
      + OffsetBytes(SmallOffsets(items) + BigOffsetsFrom(|SmallArea(items)|, Sized(items, false)))
      + SmallArea(items) + Area(Sized(items, false), false)
  {
    hide Area;
    hide Sized;
    hide MaskFor;
    hide SmallArea;
    hide SmallOffsets;
    hide OffsetTable;
    hide Concat;
    assert BigOffsets(items) == BigOffsetsFrom(|SmallArea(items)|, Sized(items, false));
  }

  method WriteSmallWays(d: ChunkData) returns (area: seq<octet>, wayOffsets: seq<nat>)
    requires WellFormed(d)
    ensures area == SmallArea(ItemsIn(d)) && wayOffsets == SmallOffsets(ItemsIn(d))
  {
    hide *;
    ghost var items := ItemsIn(d);
    Lengths(d);
    area, wayOffsets := [], [];
    Empties(items);
    AreaGrows([], Item(0, []), true);
    NoOffsets(items);
    for i := 0 to |d.wayIds|
      invariant area == Area(Sized(items[..i], true), true) && wayOffsets == SmallOffsets(items[..i])
    {
      ItemAt(d, i);
      SizedGrows(items, i, true);
      AreaGrows(Sized(items[..i], true), items[i], true);
      SmallOffsetsGrow(items, i);
      var waySize := |d.encodedWays[i]| + 2;
      if waySize < 256 {
        wayOffsets := wayOffsets + [|area|];
        area := area + (Bytes2(d.wayFlags[i]) + d.encodedWays[i]);
      }
    }
    assert items[..|items|] == items;
    PadIs(items);
    area := area + seq(if |area| % 64 != 0 then 64 - |area| % 64 else 0, _ => 0);
  }

  lemma NoOffsets(items: seq<Item>)
    ensures SmallOffsets(items[..0]) == []
  {
  }

  lemma PadIs(items: seq<Item>)
    ensures var area := Area(Sized(items, true), true);
            SmallArea(items) == area + seq(if |area| % 64 != 0 then 64 - |area| % 64 else 0, _ => 0)
  {
    hide Area;
    hide Sized;
  }

  method WriteBigWays(d: ChunkData, start: nat) returns (aligned: bool, area: seq<octet>, wayOffsets: seq<nat>)
    requires WellFormed(d) && start == |SmallArea(ItemsIn(d))|
    ensures aligned && area == Area(Sized(ItemsIn(d), false), false)
    ensures wayOffsets == BigOffsetsFrom(start, Sized(ItemsIn(d), false))
  {
    hide *;
    ghost var items := ItemsIn(d);
    Lengths(d);
    aligned, area, wayOffsets := true, [], [];
    Empties(items);
    AreaGrows([], Item(0, []), false);
    NoBigOffsets(start);
    for i := 0 to |d.wayIds|
      invariant area == Area(Sized(items[..i], false), false)
      invariant wayOffsets == BigOffsetsFrom(start, Sized(items[..i], false))
    {
      ItemAt(d, i);
      SizedGrows(items, i, false);
      AreaGrows(Sized(items[..i], false), items[i], false);
      BigOffsetsGrow(start, Sized(items[..i], false), items[i]);
      Aligned(items, start, Sized(items[..i], false));
      var waySize := |d.encodedWays[i]| + 2;
      if waySize >= 256 {
        SpaceOf(waySize, items[i].bytes);
        var spaceNeeded := SpaceFor(waySize);
        var offset := start + |area|;
        if offset % 64 != 0 {
          return false, [], [];
        }
        wayOffsets := wayOffsets + [offset / 64];
        var way := Bytes2(d.wayFlags[i]) + d.encodedWays[i];
        PaddedIs(way, spaceNeeded);
        area := area + (way + seq(spaceNeeded - waySize, _ => 0));
      }
    }
    assert items[..|items|] == items;
  }

  lemma NoBigOffsets(start: nat)
    ensures BigOffsetsFrom(start, []) == []
  {
  }

  lemma Aligned(items: seq<Item>, start: nat, bigs: seq<Item>)
    requires start == |SmallArea(items)|
    ensures (start + |Area(bigs, false)|) % 64 == 0
  {
    hide Sized;
    PadAligned(Area(Sized(items, true), true));
    var places := Places(bigs, false);
    forall k | 0 <= k < |places| ensures |places[k]| % 64 == 0 {
      PadAligned(bigs[k].bytes);
    }
    ConcatAligned(places);
  }

  lemma PaddedIs(way: seq<octet>, space: nat)
    requires |Pad64(way)| == space
    ensures |way| <= space && Pad64(way) == way + seq(space - |way|, _ => 0)
  {
  }

  /** The whole group. */
  method WriteGroup(chunks: seq<ChunkData>) returns (ok: bool, bytes: seq<octet>)
    requires AllWellFormed(chunks)
    ensures ok && bytes == GroupBytes(Numbers(chunks), AllItems(chunks))
  {
    hide *;
    ok := true;
    var chunkMask := PopulateMask(Numbers(chunks));
    ghost var items := AllItems(chunks);
    var table: seq<octet>, all: seq<octet> := [], [];
    Start(chunks);
    NoTable(items);
    for c := 0 to |chunks|
      invariant all == Concat(AllChunks(items)[..c]) && table == Concat(ChunkTable(items)[..c])
    {
      OneMoreChunk(chunks, c);
      OneMoreOffset(items, c);
      WellFormedOne(chunks, c);
      var chunkOffset := 32 + 4 * |chunks| + |all|;
      table := table + Bytes4(chunkOffset % 0x1_0000_0000);
      var aligned, chunkBytes := WriteChunk(chunks[c]);
      if !aligned {
        return false, [];
      }
      all := all + chunkBytes;
    }
    Whole(chunks);
    var mask: seq<octet> := chunkMask;
    bytes := mask + table + all;
  }

  lemma WellFormedOne(chunks: seq<ChunkData>, c: nat)
    requires AllWellFormed(chunks) && c < |chunks|
    ensures WellFormed(chunks[c])
  {
  }

  lemma NoTable(items: seq<seq<Item>>)
    ensures Concat(ChunkTable(items)[..0]) == [] && |ChunkTable(items)| == |AllChunks(items)| == |items|
  {
  }

  lemma OneMoreOffset(items: seq<seq<Item>>, c: nat)
    requires c < |items|
    ensures |AllChunks(items)| == |ChunkTable(items)| == |items|
    ensures Concat(ChunkTable(items)[..c + 1]) ==
      Concat(ChunkTable(items)[..c]) + Bytes4((32 + 4 * |items| + |Concat(AllChunks(items)[..c])|) % 0x1_0000_0000)
  {
    hide Bytes4;
    hide AllChunks;
    assert ChunkTable(items)[..c + 1][..c] == ChunkTable(items)[..c];
  }

  lemma Whole(chunks: seq<ChunkData>)
    requires AllWellFormed(chunks)
    ensures var items := AllItems(chunks);
            |AllChunks(items)| == |ChunkTable(items)| == |chunks| &&
            GroupBytes(Numbers(chunks), items) ==
              MaskFor(Numbers(chunks)) + Concat(ChunkTable(items)[..|chunks|]) + Concat(AllChunks(items)[..|chunks|])
  {
    hide MaskFor;
    hide Concat;
    hide ChunkBytes;
    hide Bytes4;
    var items := AllItems(chunks);
    assert ChunkTable(items)[..|chunks|] == ChunkTable(items) && AllChunks(items)[..|chunks|] == AllChunks(items);
  }

  // ----- publishGroup -----

  lemma EncodedLayout(ic: IntCodec, compress: bool, chunks: seq<ChunkData>, ways: Ways)
    requires Encodes(ic, compress, chunks, Split(ways))
    ensures AllWellFormed(chunks) && GroupBytes(Numbers(chunks), AllItems(chunks)) == Layout(ic, compress, ways)
  {
    hide Split;
    hide GroupBytes;
    hide ChunkNumber;
    hide Items;
    hide ItemsIn;
    hide WellFormed;
    var cs: seq<Ways> := Split(ways);
    forall c | 0 <= c < |cs| ensures WellFormed(chunks[c]) && chunks[c].id == ChunkNumber(cs[c]) && ItemsIn(chunks[c]) == Items(ic, compress, cs[c]) {
    }
    assert Numbers(chunks) == ChunkNumbers(cs);
    assert AllItems(chunks) == ItemsOf(ic, compress, cs);
  }

  /** The bytes of a group and the space asked for them, unless some way cannot be
      encoded. What is written is what was asked for, less the padding. */
  method WriteWays(ic: IntCodec, compress: bool, ways: Ways) returns (r: Outcome, bytes: seq<octet>, space: nat)
    ensures r == Encodings(ic, compress, ways)
    ensures r.Done? ==> bytes == Layout(ic, compress, ways) && |bytes| == space - 16
  {
    hide *;
    bytes, space := [], 0;
    var chunks;
    r, chunks := EncodeChunks(ic, compress, ways);
    if !r.Done? {
      return;
    }
    EncodedLayout(ic, compress, chunks, ways);
    space := SpaceNeeded(chunks);
    var aligned;
    aligned, bytes := WriteGroup(chunks);
  }
}
