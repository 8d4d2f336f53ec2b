/** The memory layout of a published group of ways: a mask and 32-bit offsets of its
    chunks, and each chunk with two masks of its ways, 16-bit offsets, the small ways
    packed, and the big ones on multiples of 64 bytes. */
module WayGroup {
  import opened Wrappers
  import opened BitMask
  import opened IntCodec
  import opened Memory
  import opened SortedStoreProtocol
  import opened Chunks
  import opened WayCodec

  type Ways = seq<Element<seq<NodeId>>>

  const LARGE_WAY_ALIGNMENT: nat := 64

  // ----- The layout -----

  /** publishGroup compresses ways of four nodes or more, if at all. */
  ghost function EncodedWay(ic: IntCodec, compress: bool, way: seq<NodeId>): EncodeResult {
    Encoded(ic, way, compress && |way| >= 4)
  }

  /** Ways of three nodes or fewer stay plain. */
  lemma ShortWaysArePlain(ic: IntCodec, compress: bool, way: seq<NodeId>)
    ensures EncodedWay(ic, compress, way) == Encoded(ic, way, compress && 4 <= |way|)
  {
  }

  /** The flags and the data. */
  ghost function WayBytes(ic: IntCodec, compress: bool, way: seq<NodeId>): (r: seq<octet>)
  {
    var e := EncodedWay(ic, compress, way);
    if e.Ok? then Bytes2(e.flags % 0x1_0000) + e.output else []
  }

  /** A way of a chunk: its place in the masks, and its bytes. */
  datatype Item = Item(slot: index, bytes: seq<octet>)

  ghost function Items(ic: IntCodec, compress: bool, c: Ways): (r: seq<Item>)
    ensures |r| == |c|
  {
    seq(|c|, k requires 0 <= k < |c| => Item(Slot(c[k].id), WayBytes(ic, compress, c[k].value)))
  }

  function SlotsOf(items: seq<Item>): (r: seq<index>)
    ensures |r| == |items|
  {
    seq(|items|, k requires 0 <= k < |items| => items[k].slot)
  }

  /** The small ones, or the others. */
  function Sized(items: seq<Item>, small: bool): (r: seq<Item>)
    ensures |r| <= |items|
  {
    if items == [] then []
    else
      var n := |items| - 1;
      Sized(items[..n], small) + if |items[n].bytes| < 256 <==> small then [items[n]] else []
  }

  /** The small ones take less than 256 bytes, and the others at least as many. */
  lemma {:induction false} SizedAre(items: seq<Item>, it: Item)
    ensures multiset(Sized(items, true))[it] == if |it.bytes| < 256 then multiset(items)[it] else 0
    ensures multiset(Sized(items, false))[it] == if |it.bytes| < 256 then 0 else multiset(items)[it]
  {
    if items != [] {
      var n := |items| - 1;
      SizedAre(items[..n], it);
      assert items == items[..n] + [items[n]];
    }
  }

  function RoundUp64(n: nat): (r: nat)
    ensures n <= r < n + 64 && r % 64 == 0
  {
    if n % 64 != 0 then n + (64 - n % 64) else n
  }

  function Pad64(b: seq<octet>): (r: seq<octet>)
    ensures |r| == RoundUp64(|b|) && b <= r
  {
    b + seq(RoundUp64(|b|) - |b|, _ => 0)
  }

  /** Each way's stretch of memory. */
  function Places(items: seq<Item>, small: bool): (r: seq<seq<octet>>)
    ensures |r| == |items|
  {
    seq(|items|, k requires 0 <= k < |items| => if small then items[k].bytes else Pad64(items[k].bytes))
  }

  function Area(items: seq<Item>, small: bool): seq<octet> {
    Concat(Places(items, small))
  }

  function SmallArea(items: seq<Item>): seq<octet> {
    Pad64(Area(Sized(items, true), true))
  }

  /** Offsets from the end of the table of offsets: in bytes for the small ways, in
      multiples of 64 for the big ones, which come after all small ones. */
  function SmallOffsets(items: seq<Item>): (r: seq<nat>)
    ensures |r| == |Sized(items, true)|
  {
    var smalls := Sized(items, true);
    seq(|smalls|, k requires 0 <= k < |smalls| => |Area(smalls[..k], true)|)
  }

  function BigOffsets(items: seq<Item>): (r: seq<nat>)
    ensures |r| == |Sized(items, false)|
  {
    var bigs := Sized(items, false);
    seq(|bigs|, k requires 0 <= k < |bigs| => (|SmallArea(items)| + |Area(bigs[..k], false)|) / 64)
  }

  /** Offsets as they are stored, in 16 bits. */
  function OffsetTable(offsets: seq<nat>): (r: seq<seq<octet>>)
    ensures |r| == |offsets|
  {
    seq(|offsets|, k requires 0 <= k < |offsets| => Bytes2(offsets[k] % 0x1_0000))
  }

  function ChunkBytes(items: seq<Item>): seq<octet> {
    MaskFor(SlotsOf(Sized(items, true))) + MaskFor(SlotsOf(Sized(items, false)))
    + Concat(OffsetTable(SmallOffsets(items) + BigOffsets(items))) + SmallArea(items) + Area(Sized(items, false), false)
  }

  function AllChunks(chunks: seq<seq<Item>>): (r: seq<seq<octet>>)
    ensures |r| == |chunks|
  {
    seq(|chunks|, c requires 0 <= c < |chunks| => ChunkBytes(chunks[c]))
  }

  /** Offsets of the chunks from the beginning of the group, stored in 32 bits. */
  function ChunkOffset(chunks: seq<seq<Item>>, c: nat): nat
    requires c <= |chunks|
  {
    32 + 4 * |chunks| + |Concat(AllChunks(chunks)[..c])|
  }

  function ChunkTable(chunks: seq<seq<Item>>): (r: seq<seq<octet>>)
    ensures |r| == |chunks|
  {
    seq(|chunks|, c requires 0 <= c < |chunks| => Bytes4(ChunkOffset(chunks, c) % 0x1_0000_0000))
  }

  function GroupBytes(numbers: seq<index>, chunks: seq<seq<Item>>): seq<octet>
  {
    MaskFor(numbers) + Concat(ChunkTable(chunks)) + Concat(AllChunks(chunks))
  }

  ghost function ItemsOf(ic: IntCodec, compress: bool, cs: seq<Ways>): (r: seq<seq<Item>>)
    ensures |r| == |cs|
  {
    seq(|cs|, c requires 0 <= c < |cs| => Items(ic, compress, cs[c]))
  }

  ghost function Layout(ic: IntCodec, compress: bool, ways: Ways): seq<octet> {
    GroupBytes(ChunkNumbers(Split(ways)), ItemsOf(ic, compress, Split(ways)))
  }

  // ----- Reading -----

  /** Where a way is, if it is there. */
  function FindInChunk(m: seq<octet>, base: nat, slot: index): Option<nat> {
    var smallMask, bigMask := MaskAt(m, base), MaskAt(m, base + 32);
    var numWays := PopCount(smallMask, 32) + PopCount(bigMask, 32);
    var table := base + 64;
    var end := table + 2 * numWays;
    if IsSet(smallMask, slot) then Some(end + HalfAt(m, table + 2 * Rank(smallMask, slot)))
    else if !IsSet(bigMask, slot) then None
    else Some(end + HalfAt(m, table + 2 * (PopCount(smallMask, 32) + Rank(bigMask, slot))) * LARGE_WAY_ALIGNMENT)
  }

  function FindWay(m: seq<octet>, id: nat): Option<nat> {
    var mask := MaskAt(m, 0);
    if !IsSet(mask, ChunkOf(id)) then None
    else FindInChunk(m, WordAt(m, 32 + 4 * Rank(mask, ChunkOf(id))), Slot(id))
  }

  /** None where the program throws "missing". */
  function ReadWay(ic: IntCodec, m: seq<octet>, id: nat): Option<seq<nat>> {
    match FindWay(m, id)
    case None => None
    case Some(at) =>
      var flags := HalfAt(m, at);
      if LengthOf(flags) == 0 then None else Some(Decoded(ic, flags, From(m, at + 2)))
  }

  // ----- Sizes -----

  /** An encoded way takes at most 9,504 bytes. */
  lemma WaySize(ic: IntCodec, compress: bool, way: seq<NodeId>)
    requires GoodIntCodec(ic)
    ensures |WayBytes(ic, compress, way)| <= 9504
  {
    hide *;
    EncodedSize(ic, way, compress && |way| >= 4);
    WayBytesAre(ic, compress, way);
  }

  lemma WayBytesAre(ic: IntCodec, compress: bool, way: seq<NodeId>)
    ensures var e := Encoded(ic, way, compress && |way| >= 4);
            WayBytes(ic, compress, way) == if e.Ok? then Bytes2(e.flags % 0x1_0000) + e.output else []
    ensures forall h :: 0 <= h < 0x1_0000 ==> |Bytes2(h)| == 2
  {
    hide Encoded;
    hide Bytes2;
  }

  ghost predicate GoodItems(items: seq<Item>) {
    && Positions(SlotsOf(items)) && |items| <= 256
    && forall k :: 0 <= k < |items| ==> |items[k].bytes| <= 9504
  }

  lemma PadSize(b: seq<octet>)
    requires |b| <= 9504
    ensures |Pad64(b)| <= 9536
  {
  }

  lemma AreaSize(items: seq<Item>, small: bool)
    requires forall k :: 0 <= k < |items| ==> |items[k].bytes| <= if small then 255 else 9504
    ensures |Area(items, small)| <= (if small then 255 else 9536) * |items|
    ensures !small ==> |Area(items, small)| % 64 == 0
  {
    hide Pad64;
    var places := Places(items, small);
    if small {
      ConcatAtMost(places, 255);
    } else {
      forall k | 0 <= k < |places| ensures |places[k]| <= 9536 && |places[k]| % 64 == 0 {
        PadSize(items[k].bytes);
        PadAligned(items[k].bytes);
      }
      ConcatAtMost(places, 9536);
      ConcatAligned(places);
    }
  }

  lemma PadAligned(b: seq<octet>)
    ensures |Pad64(b)| % 64 == 0 && |Pad64(b)| < |b| + 64
  {
  }

  lemma {:induction false} SizedAll(items: seq<Item>, small: bool)
    requires forall k :: 0 <= k < |items| ==> |items[k].bytes| <= 9504
    ensures forall k :: 0 <= k < |Sized(items, small)| ==>
      |Sized(items, small)[k].bytes| <= if small then 255 else 9504
    ensures |Sized(items, true)| + |Sized(items, false)| == |items|
  {
    if items != [] {
      SizedAll(items[..|items| - 1], small);
    }
  }

  /** No offset overflows its 16 bits, and scaling the offsets of the big ways loses
      nothing. */
  lemma OffsetsFit(items: seq<Item>)
    requires GoodItems(items)
    ensures forall k :: 0 <= k < |SmallOffsets(items)| ==> SmallOffsets(items)[k] <= 65025
    ensures forall k :: 0 <= k < |BigOffsets(items)| ==>
      BigOffsets(items)[k] <= 37996 &&
      BigOffsets(items)[k] * 64 == |SmallArea(items)| + |Area(Sized(items, false)[..k], false)|
  {
    hide Sized;
    hide Area;
    hide Pad64;
    var smalls, bigs := Sized(items, true), Sized(items, false);
    SizedAll(items, true);
    SizedAll(items, false);
    forall k | 0 <= k < |smalls| ensures |Area(smalls[..k], true)| <= 255 * 255 {
      AreaSize(smalls[..k], true);
    }
    AreaSize(smalls, true);
    PadAligned(Area(smalls, true));
    forall k | 0 <= k < |bigs|
      ensures BigOffsets(items)[k] <= 37996
      ensures BigOffsets(items)[k] * 64 == |SmallArea(items)| + |Area(bigs[..k], false)|
    {
      AreaSize(bigs[..k], false);
      BigOffsetBound(|SmallArea(items)|, |Area(bigs[..k], false)|, |smalls|, k);
    }
  }

  lemma BigOffsetBound(small: nat, big: nat, s: nat, k: nat)
    requires small < 255 * s + 64 && big <= 9536 * k && s + k <= 255 && small % 64 == 0 && big % 64 == 0
    ensures (small + big) / 64 <= 37996 && (small + big) / 64 * 64 == small + big
  {
  }

  /** Nor do the offsets of the chunks overflow 32 bits. */
  lemma ChunkSize(items: seq<Item>)
    requires GoodItems(items)
    ensures |ChunkBytes(items)| <= 3_000_000
  {
    hide Sized;
    hide Area;
    hide Pad64;
    hide MaskFor;
    hide SmallOffsets;
    hide BigOffsets;
    SizedAll(items, true);
    SizedAll(items, false);
    AreaSize(Sized(items, true), true);
    AreaSize(Sized(items, false), false);
    PadAligned(Area(Sized(items, true), true));
    ConcatOfEqual(OffsetTable(SmallOffsets(items) + BigOffsets(items)), 2);
  }

  ghost predicate GoodChunkItems(chunks: seq<seq<Item>>) {
    |chunks| <= 256 && forall c :: 0 <= c < |chunks| ==> GoodItems(chunks[c])
  }

  lemma ChunkOffsetFits(chunks: seq<seq<Item>>, c: nat)
    requires GoodChunkItems(chunks) && c <= |chunks|
    ensures ChunkOffset(chunks, c) < 0x1_0000_0000
  {
    hide ChunkBytes;
    hide GoodItems;
    var some := AllChunks(chunks)[..c];
    forall k | 0 <= k < |some| ensures |some[k]| <= 3_000_000 {
      ChunkSize(chunks[k]);
    }
    ConcatAtMost(some, 3_000_000);
  }

  // ----- A chunk answers for its ways -----

  lemma {:induction false} SizedPositions(items: seq<Item>, small: bool)
    requires Positions(SlotsOf(items))
    ensures Positions(SlotsOf(Sized(items, small)))
    ensures forall k :: 0 <= k < |Sized(items, small)| ==> Sized(items, small)[k] in items
  {
    if items != [] {
      var n := |items| - 1;
      var front := items[..n];
      assert SlotsOf(front) == SlotsOf(items)[..n];
      SizedPositions(front, small);
      forall k | 0 <= k < |Sized(front, small)| ensures Sized(front, small)[k].slot < items[n].slot {
        var j :| 0 <= j < |front| && front[j] == Sized(front, small)[k];
        assert SlotsOf(items)[j] < SlotsOf(items)[n];
      }
      var now := SlotsOf(Sized(items, small));
      forall j, k | 0 <= j < k < |now| ensures now[j] < now[k] {
        if k < |Sized(front, small)| {
          assert SlotsOf(Sized(front, small))[j] < SlotsOf(Sized(front, small))[k];
        }
      }
      forall k | 0 <= k < |Sized(items, small)| ensures Sized(items, small)[k] in items {
        if k < |Sized(front, small)| {
          assert Sized(front, small)[k] in front;
        }
      }
    }
  }

  lemma {:induction false} InSized(items: seq<Item>, k: nat) returns (j: nat)
    requires k < |items|
    ensures var small := |items[k].bytes| < 256; j < |Sized(items, small)| && Sized(items, small)[j] == items[k]
  {
    var n := |items| - 1;
    if k < n {
      j := InSized(items[..n], k);
    } else {
      j := |Sized(items[..n], |items[k].bytes| < 256)|;
    }
  }

  lemma PlaceHolds(items: seq<Item>, small: bool, k: nat)
    requires k < |items|
    ensures HoldsAt(Area(items, small), |Area(items[..k], small)|, items[k].bytes)
  {
    hide Pad64;
    hide Concat;
    var places := Places(items, small);
    ConcatHolds(places, k);
    assert places[..k] == Places(items[..k], small);
    if !small {
      Unpadded(items[k].bytes);
      HoldsWithin(Area(items, small), |Area(items[..k], small)|, places[k], 0, items[k].bytes);
    }
  }

  lemma Unpadded(b: seq<octet>)
    ensures HoldsAt(Pad64(b), 0, b)
  {
  }

  lemma TableReads(m: seq<octet>, at: nat, offsets: seq<nat>, k: nat)
    requires HoldsAt(m, at, Concat(OffsetTable(offsets))) && k < |offsets|
    ensures HalfAt(m, at + 2 * k) == offsets[k] % 0x1_0000
  {
    hide Concat;
    hide Bytes2;
    var table := OffsetTable(offsets);
    ConcatHolds(table, k);
    ConcatOfEqual(table[..k], 2);
    HoldsWithin(m, at, Concat(table), 2 * k, table[k]);
    HoldsHalf(m, at + 2 * k, offsets[k] % 0x1_0000);
  }

  /** The parts of a chunk in memory. */
  lemma ChunkParts(m: seq<octet>, base: nat, items: seq<Item>)
    requires HoldsAt(m, base, ChunkBytes(items))
    ensures MaskAt(m, base) == MaskFor(SlotsOf(Sized(items, true))) && MaskAt(m, base + 32) == MaskFor(SlotsOf(Sized(items, false)))
    ensures HoldsAt(m, base + 64, Concat(OffsetTable(SmallOffsets(items) + BigOffsets(items))))
    ensures var end := base + 64 + 2 * (|Sized(items, true)| + |Sized(items, false)|);
            HoldsAt(m, end, Area(Sized(items, true), true)) &&
            HoldsAt(m, end + |SmallArea(items)|, Area(Sized(items, false), false))
  {
    hide Sized;
    hide Area;
    hide Pad64;
    hide MaskFor;
    hide MaskAt;
    hide OffsetTable;
    hide Concat;
    hide SmallOffsets;
    hide BigOffsets;
    hide SlotsOf;
    hide HoldsAt;
    var a: seq<octet>, b: seq<octet> := MaskFor(SlotsOf(Sized(items, true))), MaskFor(SlotsOf(Sized(items, false)));
    var t := Concat(OffsetTable(SmallOffsets(items) + BigOffsets(items)));
    var s, l := SmallArea(items), Area(Sized(items, false), false);
    ConcatOfEqual(OffsetTable(SmallOffsets(items) + BigOffsets(items)), 2) by {
      TableEntries(SmallOffsets(items) + BigOffsets(items));
    }
    assert ChunkBytes(items) == [] + a + (b + t + s + l);
    HoldsInside(m, base, [], a, b + t + s + l);
    HoldsMask(m, base, a);
    assert ChunkBytes(items) == a + b + (t + s + l);
    HoldsInside(m, base, a, b, t + s + l);
    HoldsMask(m, base + 32, b);
    assert ChunkBytes(items) == (a + b) + t + (s + l);
    HoldsInside(m, base, a + b, t, s + l);
    assert ChunkBytes(items) == (a + b + t) + s + l;
    HoldsInside(m, base, a + b + t, s, l);
    assert ChunkBytes(items) == (a + b + t + s) + l + [];
    HoldsInside(m, base, a + b + t + s, l, []);
    Unpadded(Area(Sized(items, true), true));
    HoldsWithin(m, base + |a + b + t|, s, 0, Area(Sized(items, true), true));
  }

  lemma TableEntries(offsets: seq<nat>)
    ensures forall k :: 0 <= k < |OffsetTable(offsets)| ==> |OffsetTable(offsets)[k]| == 2
  {
  }

  /** The masks send a way to its place, small or big. */
  lemma ChunkFinds(m: seq<octet>, base: nat, items: seq<Item>, k: nat)
    requires GoodItems(items) && HoldsAt(m, base, ChunkBytes(items)) && k < |items|
    ensures FindInChunk(m, base, items[k].slot).Some?
    ensures HoldsAt(m, FindInChunk(m, base, items[k].slot).value, items[k].bytes)
  {
    hide *;
    Facts(items);
    ChunkParts(m, base, items);
    var smalls, bigs := Sized(items, true), Sized(items, false);
    var end := base + 64 + 2 * (|smalls| + |bigs|);
    SizedPositions(items, true);
    SizedPositions(items, false);
    MaskForIs(SlotsOf(smalls));
    MaskForIs(SlotsOf(bigs));
    PopCountOfMask(MaskFor(SlotsOf(smalls)), SlotsOf(smalls));
    PopCountOfMask(MaskFor(SlotsOf(bigs)), SlotsOf(bigs));
    var j := InSized(items, k);
    var offsets := SmallOffsets(items) + BigOffsets(items);
    OffsetsFit(items);
    if |items[k].bytes| < 256 {
      RankOfPosition(MaskFor(SlotsOf(smalls)), SlotsOf(smalls), j);
      TableReads(m, base + 64, offsets, j);
      SlotIs(smalls, j);
      SmallFound(m, base, items[k].slot, j);
      PlaceHolds(smalls, true, j);
      HoldsWithin(m, end, Area(smalls, true), |Area(smalls[..j], true)|, items[k].bytes);
      OffsetIs(items, true, j);
    } else {
      RankOfPosition(MaskFor(SlotsOf(bigs)), SlotsOf(bigs), j);
      TableReads(m, base + 64, offsets, |smalls| + j);
      SlotIs(bigs, j);
      NotSmall(items, k);
      MaskSets(MaskFor(SlotsOf(smalls)), SlotsOf(smalls), items[k].slot);
      BigFound(m, base, items[k].slot, |smalls|, j);
      PlaceHolds(bigs, false, j);
      HoldsWithin(m, end + |SmallArea(items)|, Area(bigs, false), |Area(bigs[..j], false)|, items[k].bytes);
      OffsetIs(items, false, j);
    }
  }

  lemma Facts(items: seq<Item>)
    requires GoodItems(items)
    ensures Positions(SlotsOf(items)) && |SlotsOf(items)| == |items|
    ensures |SmallOffsets(items)| == |Sized(items, true)| && |BigOffsets(items)| == |Sized(items, false)|
    ensures |SlotsOf(Sized(items, true))| == |Sized(items, true)| && |SlotsOf(Sized(items, false))| == |Sized(items, false)|
  {
  }

  lemma SlotIs(items: seq<Item>, j: nat)
    requires j < |items|
    ensures j < |SlotsOf(items)| && SlotsOf(items)[j] == items[j].slot
  {
  }

  lemma OffsetIs(items: seq<Item>, small: bool, j: nat)
    requires j < |Sized(items, small)|
    ensures small ==> SmallOffsets(items)[j] == |Area(Sized(items, true)[..j], true)|
    ensures !small ==> BigOffsets(items)[j] == (|SmallArea(items)| + |Area(Sized(items, false)[..j], false)|) / 64
  {
  }

  /** A big way has no bit in the mask of the small ones. */
  lemma NotSmall(items: seq<Item>, k: nat)
    requires Positions(SlotsOf(items)) && k < |items| && |items[k].bytes| >= 256
    ensures items[k].slot !in SlotsOf(Sized(items, true))
  {
    hide Sized;
    var smalls := Sized(items, true);
    SizedPositions(items, true);
    SmallOnes(items);
    forall j | 0 <= j < |smalls| ensures SlotsOf(smalls)[j] != items[k].slot {
      var i :| 0 <= i < |items| && items[i] == smalls[j];
      assert SlotsOf(items)[i] == items[i].slot && SlotsOf(items)[k] == items[k].slot;
      assert i < k ==> SlotsOf(items)[i] < SlotsOf(items)[k];
      assert k < i ==> SlotsOf(items)[k] < SlotsOf(items)[i];
    }
  }

  lemma {:induction false} SmallOnes(items: seq<Item>)
    ensures forall j :: 0 <= j < |Sized(items, true)| ==> |Sized(items, true)[j].bytes| < 256
  {
    if items != [] {
      SmallOnes(items[..|items| - 1]);
    }
  }

  lemma SmallFound(m: seq<octet>, base: nat, slot: index, j: nat)
    requires IsSet(MaskAt(m, base), slot) && Rank(MaskAt(m, base), slot) == j
    ensures FindInChunk(m, base, slot) ==
      Some(base + 64 + 2 * (PopCount(MaskAt(m, base), 32) + PopCount(MaskAt(m, base + 32), 32)) + HalfAt(m, base + 64 + 2 * j))
  {
    hide IsSet;
    hide Rank;
    hide MaskAt;
    hide PopCount;
    hide HalfAt;
  }

  lemma BigFound(m: seq<octet>, base: nat, slot: index, n: nat, j: nat)
    requires !IsSet(MaskAt(m, base), slot) && IsSet(MaskAt(m, base + 32), slot)
    requires PopCount(MaskAt(m, base), 32) == n && Rank(MaskAt(m, base + 32), slot) == j
    ensures FindInChunk(m, base, slot) ==
      Some(base + 64 + 2 * (n + PopCount(MaskAt(m, base + 32), 32)) + HalfAt(m, base + 64 + 2 * (n + j)) * 64)
  {
    hide IsSet;
    hide Rank;
    hide MaskAt;
    hide PopCount;
    hide HalfAt;
  }

  lemma ChunkLacks(m: seq<octet>, base: nat, items: seq<Item>, slot: index)
    requires Positions(SlotsOf(items)) && HoldsAt(m, base, ChunkBytes(items)) && slot !in SlotsOf(items)
    ensures FindInChunk(m, base, slot) == None
  {
    hide *;
    ChunkParts(m, base, items);
    NotInSized(items, true, slot);
    NotInSized(items, false, slot);
    NothingFound(m, base, slot);
  }

  lemma NotInSized(items: seq<Item>, small: bool, slot: index)
    requires Positions(SlotsOf(items)) && slot !in SlotsOf(items)
    ensures !IsSet(MaskFor(SlotsOf(Sized(items, small))), slot)
  {
    hide Sized;
    hide IsSet;
    hide MaskFor;
    var some := Sized(items, small);
    SizedPositions(items, small);
    MaskForIs(SlotsOf(some));
    MaskSets(MaskFor(SlotsOf(some)), SlotsOf(some), slot);
    forall j | 0 <= j < |some| ensures SlotsOf(some)[j] != slot {
      var i :| 0 <= i < |items| && items[i] == some[j];
      assert SlotsOf(items)[i] == items[i].slot;
    }
  }

  lemma NothingFound(m: seq<octet>, base: nat, slot: index)
    requires !IsSet(MaskAt(m, base), slot) && !IsSet(MaskAt(m, base + 32), slot)
    ensures FindInChunk(m, base, slot) == None
  {
    hide IsSet;
    hide MaskAt;
    hide PopCount;
  }

  // ----- The group -----

  lemma TableEntries4(chunks: seq<seq<Item>>)
    ensures forall c :: 0 <= c < |ChunkTable(chunks)| ==> |ChunkTable(chunks)[c]| == 4
  {
    hide ChunkOffset;
  }

  lemma GroupParts(m: seq<octet>, numbers: seq<index>, chunks: seq<seq<Item>>)
    requires HoldsAt(m, 0, GroupBytes(numbers, chunks))
    ensures MaskAt(m, 0) == MaskFor(numbers) && HoldsAt(m, 32, Concat(ChunkTable(chunks)))
    ensures HoldsAt(m, 32 + 4 * |chunks|, Concat(AllChunks(chunks)))
  {
    hide MaskFor;
    hide MaskAt;
    hide ChunkTable;
    hide AllChunks;
    hide Concat;
    hide HoldsAt;
    var a: seq<octet>, t, l := MaskFor(numbers), Concat(ChunkTable(chunks)), Concat(AllChunks(chunks));
    TableEntries4(chunks);
    ConcatOfEqual(ChunkTable(chunks), 4);
    assert GroupBytes(numbers, chunks) == [] + a + (t + l) == a + t + l == (a + t) + l + [];
    HoldsInside(m, 0, [], a, t + l);
    HoldsMask(m, 0, a);
    HoldsInside(m, 0, a, t, l);
    HoldsInside(m, 0, a + t, l, []);
  }

  lemma ChunkIsReached(m: seq<octet>, numbers: seq<index>, chunks: seq<seq<Item>>, c: nat)
    requires HoldsAt(m, 0, GroupBytes(numbers, chunks)) && GoodChunkItems(chunks) && c < |chunks|
    ensures WordAt(m, 32 + 4 * c) == ChunkOffset(chunks, c) && HoldsAt(m, ChunkOffset(chunks, c), ChunkBytes(chunks[c]))
  {
    hide *;
    GroupParts(m, numbers, chunks);
    var table, all := ChunkTable(chunks), AllChunks(chunks);
    TableEntries4(chunks);
    ConcatHolds(table, c);
    ConcatOfEqual(table[..c], 4);
    HoldsWithin(m, 32, Concat(table), 4 * c, table[c]);
    ChunkOffsetFits(chunks, c);
    TableEntry(chunks, c);
    HoldsWord(m, 32 + 4 * c, ChunkOffset(chunks, c));
    ConcatHolds(all, c);
    HoldsWithin(m, 32 + 4 * |chunks|, Concat(all), |Concat(all[..c])|, all[c]);
  }

  lemma TableEntry(chunks: seq<seq<Item>>, c: nat)
    requires c < |chunks|
    ensures ChunkTable(chunks)[c] == Bytes4(ChunkOffset(chunks, c) % 0x1_0000_0000)
    ensures ChunkOffset(chunks, c) == 32 + 4 * |chunks| + |Concat(AllChunks(chunks)[..c])|
    ensures AllChunks(chunks)[c] == ChunkBytes(chunks[c])
    ensures ChunkOffset(chunks, c) < 0x1_0000_0000 ==> ChunkOffset(chunks, c) % 0x1_0000_0000 == ChunkOffset(chunks, c)
  {
    hide Bytes4;
    hide Concat;
    hide ChunkBytes;
  }

  lemma FindIs(m: seq<octet>, id: nat, c: nat)
    ensures !IsSet(MaskAt(m, 0), ChunkOf(id)) ==> FindWay(m, id) == None
    ensures IsSet(MaskAt(m, 0), ChunkOf(id)) && Rank(MaskAt(m, 0), ChunkOf(id)) == c ==>
      FindWay(m, id) == FindInChunk(m, WordAt(m, 32 + 4 * c), Slot(id))
  {
    hide IsSet;
    hide Rank;
    hide MaskAt;
    hide WordAt;
    hide FindInChunk;
    hide ChunkOf;
  }

  ghost predicate AllEncoded(ic: IntCodec, compress: bool, ways: Ways) {
    forall k :: 0 <= k < |ways| ==> EncodedWay(ic, compress, ways[k].value).Ok?
  }

  /** How encoding a list of ways ends: with the first that cannot be encoded. Overran is
      the undefined write past the scratch buffer. */
  datatype Outcome = Done | Failed | Overran

  function OutcomeOf(e: EncodeResult): Outcome {
    match e
    case Ok(_, _) => Done
    case Thrown(_) => Failed
    case Overrun => Overran
  }

  ghost function Encodings(ic: IntCodec, compress: bool, ways: Ways): Outcome {
    if ways == [] then Done
    else
      var before := Encodings(ic, compress, ways[..|ways| - 1]);
      if before.Done? then OutcomeOf(EncodedWay(ic, compress, ways[|ways| - 1].value)) else before
  }

  lemma {:induction false} EncodingsDone(ic: IntCodec, compress: bool, ways: Ways)
    ensures Encodings(ic, compress, ways).Done? <==> AllEncoded(ic, compress, ways)
  {
    hide EncodedWay;
    if ways != [] {
      EncodingsDone(ic, compress, ways[..|ways| - 1]);
      if AllEncoded(ic, compress, ways[..|ways| - 1]) && EncodedWay(ic, compress, ways[|ways| - 1].value).Ok? {
        forall k | 0 <= k < |ways| ensures EncodedWay(ic, compress, ways[k].value).Ok? {
          assert k < |ways| - 1 ==> ways[..|ways| - 1][k] == ways[k];
        }
      }
    }
  }

  /** The first failure decides. */
  lemma {:induction false} EncodingsStop(ic: IntCodec, compress: bool, ways: Ways, i: nat)
    requires i <= |ways| && !Encodings(ic, compress, ways[..i]).Done?
    ensures Encodings(ic, compress, ways) == Encodings(ic, compress, ways[..i])
  {
    hide EncodedWay;
    if i == |ways| {
      assert ways[..i] == ways;
    } else {
      assert ways[..|ways| - 1][..i] == ways[..i];
      EncodingsStop(ic, compress, ways[..|ways| - 1], i);
    }
  }

  lemma ItemsAreGood(ic: IntCodec, compress: bool, cs: seq<Ways>, g: nat)
    requires GoodIntCodec(ic) && GoodChunks(cs, g)
    ensures NonEmpty(cs) && GoodChunkItems(ItemsOf(ic, compress, cs)) && Positions(ChunkNumbers(cs))
    ensures forall c :: 0 <= c < |cs| ==> SlotsOf(Items(ic, compress, cs[c])) == Slots(cs[c]) && Positions(Slots(cs[c]))
    ensures forall c :: 0 <= c < |cs| ==> GoodItems(Items(ic, compress, cs[c]))
  {
    hide GoodIntCodec;
    hide WayBytes;
    hide Positions;
    ChunkPositions(cs, g);
    forall c | 0 <= c < |cs|
      ensures GoodItems(Items(ic, compress, cs[c])) && SlotsOf(Items(ic, compress, cs[c])) == Slots(cs[c]) && Positions(Slots(cs[c]))
    {
      SlotPositions(cs[c], g);
      assert SlotsOf(Items(ic, compress, cs[c])) == Slots(cs[c]);
      forall k | 0 <= k < |cs[c]| ensures |WayBytes(ic, compress, cs[c][k].value)| <= 9504 {
        WaySize(ic, compress, cs[c][k].value);
      }
    }
  }

  /** The bytes found decode to the way. */
  lemma WayDecodes(ic: IntCodec, compress: bool, m: seq<octet>, at: nat, way: seq<NodeId>)
    requires GoodIntCodec(ic) && EncodedWay(ic, compress, way).Ok? && HoldsAt(m, at, WayBytes(ic, compress, way))
    ensures 1 <= LengthOf(HalfAt(m, at)) <= MAX_NODES && Decoded(ic, HalfAt(m, at), From(m, at + 2)) == Kept(way)
  {
    hide *;
    var e := EncodedWay(ic, compress, way);
    WayBytesParts(ic, compress, way);
    var rest := From(m, at + 2 + |e.output|);
    DecodedIsKept(ic, way, compress && |way| >= 4, rest);
    assert Bytes2(e.flags) + e.output == [] + Bytes2(e.flags) + e.output;
    HoldsInside(m, at, [], Bytes2(e.flags), e.output);
    HoldsHalf(m, at, e.flags);
    assert Bytes2(e.flags) + e.output == Bytes2(e.flags) + e.output + [];
    HoldsInside(m, at, Bytes2(e.flags), e.output, []);
    BehindIs(m, at + 2, e.output);
  }

  lemma WayBytesParts(ic: IntCodec, compress: bool, way: seq<NodeId>)
    requires EncodedWay(ic, compress, way).Ok?
    ensures var e := EncodedWay(ic, compress, way);
            e == Encoded(ic, way, compress && |way| >= 4) && e.flags < 0x1_0000 && |Bytes2(e.flags)| == 2 &&
            WayBytes(ic, compress, way) == Bytes2(e.flags) + e.output
  {
    hide LowBytes;
    hide UpperBytes;
    hide UpperFits;
    hide Uniform;
    hide Bytes2;
    FlagParts(|Points(way)|, compress && |way| >= 4, IsClosed(way), Uniform(way));
  }

  lemma BehindIs(m: seq<octet>, at: nat, s: seq<octet>)
    requires HoldsAt(m, at, s)
    ensures From(m, at) == s + From(m, at + |s|)
  {
    assert m[at..] == m[at..at + |s|] + m[at + |s|..];
  }

  /** at finds exactly the ways of the group, with their node ids. */
  lemma LayoutReads(ic: IntCodec, compress: bool, ways: Ways, g: nat, m: seq<octet>, id: nat)
    requires GoodIntCodec(ic) && GroupList(ways, g) && Group(id) == g && AllEncoded(ic, compress, ways)
    requires HoldsAt(m, 0, Layout(ic, compress, ways))
    ensures ReadWay(ic, m, id) == match Lookup(ways, id) case Some(way) => Some(Kept(way)) case None => None
    ensures FindWay(m, id).Some? <==> Lookup(ways, id).Some?
    ensures FindWay(m, id).Some? ==> 1 <= LengthOf(HalfAt(m, FindWay(m, id).value)) <= MAX_NODES
  {
    hide *;
    SplitIsGood(ways, g);
    var cs: seq<Ways> := Split(ways);
    ItemsAreGood(ic, compress, cs, g);
    if j: nat :| j < |ways| && ways[j].id == id {
      var c, k := InSomeChunk(cs, j);
      PresentReads(ic, compress, ways, g, m, c, k);
      EncodedOne(ic, compress, ways, j);
      LookupIs(ways, g, j);
      WayDecodes(ic, compress, m, FindWay(m, id).value, ways[j].value);
      ReadIs(ic, m, id);
    } else {
      AbsentReads(ic, compress, ways, g, m, id);
      LookupNone(ways, id);
      ReadIs(ic, m, id);
    }
  }

  lemma EncodedOne(ic: IntCodec, compress: bool, ways: Ways, j: nat)
    requires AllEncoded(ic, compress, ways) && j < |ways|
    ensures EncodedWay(ic, compress, ways[j].value).Ok?
  {
  }

  lemma ReadIs(ic: IntCodec, m: seq<octet>, id: nat)
    ensures FindWay(m, id) == None ==> ReadWay(ic, m, id) == None
    ensures FindWay(m, id).Some? && LengthOf(HalfAt(m, FindWay(m, id).value)) > 0 ==>
      ReadWay(ic, m, id) == Some(Decoded(ic, HalfAt(m, FindWay(m, id).value), From(m, FindWay(m, id).value + 2)))
  {
    hide FindWay;
    hide Decoded;
    hide HalfAt;
    hide LengthOf;
    hide From;
  }

  lemma LayoutIs(ic: IntCodec, compress: bool, ways: Ways, c: nat)
    ensures Layout(ic, compress, ways) == GroupBytes(ChunkNumbers(Split(ways)), ItemsOf(ic, compress, Split(ways)))
    ensures c < |Split(ways)| ==> ItemsOf(ic, compress, Split(ways))[c] == Items(ic, compress, Split(ways)[c]) && ChunkNumbers(Split(ways))[c] == ChunkNumber(Split(ways)[c])
  {
    hide Split;
    hide Items;
    hide GroupBytes;
    hide ChunkNumber;
  }

  lemma ItemIs(ic: IntCodec, compress: bool, c: Ways, k: nat)
    requires k < |c|
    ensures Items(ic, compress, c)[k] == Item(Slot(c[k].id), WayBytes(ic, compress, c[k].value))
    ensures Slots(c)[k] == Slot(c[k].id)
  {
    hide WayBytes;
  }

  lemma GetsToChunk(ic: IntCodec, compress: bool, ways: Ways, g: nat, m: seq<octet>, c: nat, id: nat)
    requires GoodIntCodec(ic) && GoodChunks(Split(ways), g) && c < |Split(ways)| && ChunkNumber(Split(ways)[c]) == ChunkOf(id)
    requires HoldsAt(m, 0, Layout(ic, compress, ways))
    ensures var items := Items(ic, compress, Split(ways)[c]);
            var base := WordAt(m, 32 + 4 * c);
            HoldsAt(m, base, ChunkBytes(items)) && FindWay(m, id) == FindInChunk(m, base, Slot(id))
  {
    hide *;
    var cs: seq<Ways> := Split(ways);
    var numbers := ChunkNumbers(cs);
    ItemsAreGood(ic, compress, cs, g);
    LayoutIs(ic, compress, ways, c);
    GroupParts(m, numbers, ItemsOf(ic, compress, cs));
    ChunkIsReached(m, numbers, ItemsOf(ic, compress, cs), c);
    MaskForIs(numbers);
    RankOfPosition(MaskFor(numbers), numbers, c);
    FindIs(m, id, c);
  }

  lemma PresentReads(ic: IntCodec, compress: bool, ways: Ways, g: nat, m: seq<octet>, c: nat, k: nat)
    requires GoodIntCodec(ic) && GoodChunks(Split(ways), g) && c < |Split(ways)| && k < |Split(ways)[c]|
    requires HoldsAt(m, 0, Layout(ic, compress, ways))
    ensures var e := Split(ways)[c][k];
            FindWay(m, e.id).Some? && HoldsAt(m, FindWay(m, e.id).value, WayBytes(ic, compress, e.value))
  {
    hide *;
    var cs: seq<Ways> := Split(ways);
    var e: Element<seq<NodeId>> := cs[c][k];
    NumberOf(cs, g, c, k);
    GetsToChunk(ic, compress, ways, g, m, c, e.id);
    ItemsAreGood(ic, compress, cs, g);
    ItemIs(ic, compress, cs[c], k);
    ChunkFinds(m, WordAt(m, 32 + 4 * c), Items(ic, compress, cs[c]), k);
  }

  lemma NumberOf(cs: seq<Ways>, g: nat, c: nat, k: nat)
    requires GoodChunks(cs, g) && c < |cs| && k < |cs[c]|
    ensures ChunkOf(cs[c][k].id) == ChunkNumber(cs[c]) && Group(cs[c][k].id) == g
  {
    hide ChunkOf;
    hide Group;
    assert GoodChunk(cs[c], g);
  }

  lemma AbsentReads(ic: IntCodec, compress: bool, ways: Ways, g: nat, m: seq<octet>, id: nat)
    requires GoodIntCodec(ic) && GoodChunks(Split(ways), g) && Joined(Split(ways)) == ways && Group(id) == g
    requires forall j :: 0 <= j < |ways| ==> ways[j].id != id
    requires HoldsAt(m, 0, Layout(ic, compress, ways))
    ensures FindWay(m, id) == None
  {
    hide *;
    var cs: seq<Ways> := Split(ways);
    ItemsAreGood(ic, compress, cs, g);
    if c: nat :| c < |cs| && ChunkNumber(cs[c]) == ChunkOf(id) {
      GetsToChunk(ic, compress, ways, g, m, c, id);
      forall k | 0 <= k < |Slots(cs[c])| ensures Slots(cs[c])[k] != Slot(id) {
        var j := ChunkInJoined(cs, c, k);
        PlaceIsId(cs, g, c, k, id);
      }
      ChunkLacks(m, WordAt(m, 32 + 4 * c), Items(ic, compress, cs[c]), Slot(id));
    } else {
      var numbers := ChunkNumbers(cs);
      LayoutIs(ic, compress, ways, 0);
      GroupParts(m, numbers, ItemsOf(ic, compress, cs));
      MaskForIs(numbers);
      NoNumber(cs, ChunkOf(id));
      MaskSets(MaskFor(numbers), numbers, ChunkOf(id));
      FindIs(m, id, 0);
    }
  }

  lemma NoNumber(cs: seq<Ways>, n: index)
    requires forall c: nat :: c < |cs| ==> ChunkNumber(cs[c]) != n
    ensures n !in ChunkNumbers(cs)
  {
    hide ChunkNumber;
  }
}
