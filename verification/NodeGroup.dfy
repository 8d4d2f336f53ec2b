/** The memory layout of a published group of nodes: a mask of its chunks, a scaled
    16-bit offset for each chunk, and the chunks one after the other, aligned, each
    with a mask of its nodes and the coordinates plain or compressed. */
module NodeGroup {
  import opened Wrappers
  import opened Coordinates
  import opened BitMask
  import opened IntCodec
  import opened Memory
  import opened SortedStoreProtocol
  import opened Chunks

  const CHUNK_ALIGNMENT: nat := 16
  const RAW: nat := 0xFFFF_FFFF
  const CHUNK_INFO_SIZE: nat := 36
  const COMPRESSED_INFO_SIZE: nat := 44

  /** area is what lies behind the offsets; chunk addresses are relative to it. */
  datatype GroupInfo = GroupInfo(chunkMask: Mask, chunkOffsets: seq<nat>, area: seq<octet>)

  // ----- The layout -----

  ghost function Latps(c: seq<Element<LatpLon>>): (r: seq<int32>)
    ensures |r| == |c|
  {
    seq(|c|, k requires 0 <= k < |c| => c[k].value.latp)
  }

  ghost function Lons(c: seq<Element<LatpLon>>): (r: seq<int32>)
    ensures |r| == |c|
  {
    seq(|c|, k requires 0 <= k < |c| => c[k].value.lon)
  }

  /** Compression is used when it is allowed, saves space, and both sizes fit in the
      ten bits reserved for them. */
  ghost predicate Compresses(ic: IntCodec, compress: bool, c: seq<Element<LatpLon>>)
  {
    var latps, lons := |Deltas(ic, Latps(c))|, |Deltas(ic, Lons(c))|;
    compress && c != [] && latps + lons + 8 < 8 * |c| && latps < 1024 && lons < 1024
  }

  function NodeBytes(v: LatpLon): (b: seq<octet>)
    ensures |b| == 8
  {
    Bytes4(Unsigned(v.latp)) + Bytes4(Unsigned(v.lon))
  }

  ghost function NodesBytes(c: seq<Element<LatpLon>>): (b: seq<octet>)
    ensures |b| == 8 * |c|
  {
    if c == [] then [] else NodesBytes(c[..|c| - 1]) + NodeBytes(c[|c| - 1].value)
  }

  function Flags(latps: nat, lons: nat): word
    requires latps < 1024 && lons < 1024
  {
    0x8000_0000 + latps * 1024 + lons
  }

  ghost function ChunkBytes(ic: IntCodec, compress: bool, c: seq<Element<LatpLon>>): seq<octet> {
    var latps, lons := Deltas(ic, Latps(c)), Deltas(ic, Lons(c));
    if Compresses(ic, compress, c) then
      Bytes4(Flags(|latps|, |lons|)) + MaskFor(Slots(c)) + Bytes4(Unsigned(Latps(c)[0])) + Bytes4(Unsigned(Lons(c)[0]))
      + latps + lons
    else
      Bytes4(0) + MaskFor(Slots(c)) + NodesBytes(c)
  }

  function RoundUp(n: nat): (r: nat)
    ensures n <= r < n + CHUNK_ALIGNMENT && r % CHUNK_ALIGNMENT == 0
  {
    if n % CHUNK_ALIGNMENT != 0 then n + (CHUNK_ALIGNMENT - n % CHUNK_ALIGNMENT) else n
  }

  function Padded(b: seq<octet>): (r: seq<octet>)
    ensures |r| == RoundUp(|b|) && b <= r
  {
    b + seq(RoundUp(|b|) - |b|, _ => 0)
  }

  ghost function Area(ic: IntCodec, compress: bool, cs: seq<seq<Element<LatpLon>>>): seq<octet> {
    if cs == [] then []
    else Area(ic, compress, cs[..|cs| - 1]) + Padded(ChunkBytes(ic, compress, cs[|cs| - 1]))
  }

  ghost function Offset(ic: IntCodec, compress: bool, cs: seq<seq<Element<LatpLon>>>, c: nat): nat
    requires c <= |cs|
  {
    |Area(ic, compress, cs[..c])| / CHUNK_ALIGNMENT
  }

  ghost function Layout(ic: IntCodec, compress: bool, cs: seq<seq<Element<LatpLon>>>): GroupInfo {
    GroupInfo(MaskFor(ChunkNumbers(cs)),
              seq(|cs|, c requires 0 <= c < |cs| => Offset(ic, compress, cs, c)),
              Area(ic, compress, cs))
  }

  // ----- Reading -----

  function NodeMaskAt(area: seq<octet>, base: nat): Mask {
    if base + CHUNK_INFO_SIZE <= |area| then area[base + 4..base + CHUNK_INFO_SIZE] else EmptyMask()
  }

  /** The decoded coordinates of a compressed chunk. */
  function DecodedChunk(ic: IntCodec, area: seq<octet>, base: nat): (seq<int32>, seq<int32>) {
    var latpSize := WordAt(area, base) as int / 1024 % 1024;
    var ones := PopCount(NodeMaskAt(area, base), 32);
    var n := if ones == 0 then 0 else ones - 1;
    (Undelta(ic, Signed(WordAt(area, base + 36)), From(area, base + COMPRESSED_INFO_SIZE), n),
     Undelta(ic, Signed(WordAt(area, base + 40)), From(area, base + COMPRESSED_INFO_SIZE + latpSize), n))
  }

  predicate IsCompressedAt(area: seq<octet>, base: nat) {
    WordAt(area, base) >= 0x8000_0000
  }

  function Pick(decoded: (seq<int32>, seq<int32>), k: nat): Option<LatpLon> {
    if k < |decoded.0| && k < |decoded.1| then Some(LatpLon(decoded.0[k], decoded.1[k])) else None
  }

  function ReadSlot(ic: IntCodec, area: seq<octet>, base: nat, slot: index): Option<LatpLon> {
    var mask := NodeMaskAt(area, base);
    if !IsSet(mask, slot) then None
    else
      var k := Rank(mask, slot);
      if IsCompressedAt(area, base) then Pick(DecodedChunk(ic, area, base), k)
      else Some(LatpLon(Signed(WordAt(area, base + 36 + 8 * k)), Signed(WordAt(area, base + 40 + 8 * k))))
  }

  /** None stands for the exceptions "no chunk" and "no node". */
  function ReadNode(ic: IntCodec, g: GroupInfo, id: nat): Option<LatpLon> {
    if !IsSet(g.chunkMask, ChunkOf(id)) then None
    else
      var k := Rank(g.chunkMask, ChunkOf(id));
      if k < |g.chunkOffsets| then ReadSlot(ic, g.area, g.chunkOffsets[k] * CHUNK_ALIGNMENT, Slot(id)) else None
  }

  // ----- Reading gives back what was laid out -----

  lemma {:induction false} NodeInBytes(c: seq<Element<LatpLon>>, k: nat)
    requires k < |c|
    ensures WordAt(NodesBytes(c), 8 * k) == Unsigned(c[k].value.latp)
    ensures WordAt(NodesBytes(c), 8 * k + 4) == Unsigned(c[k].value.lon)
  {
    hide WordAt;
    hide Bytes4;
    hide Unsigned;
    var n := |c| - 1;
    var front, last := NodesBytes(c[..n]), NodeBytes(c[n].value);
    if k < n {
      NodeInBytes(c[..n], k);
      assert [] + front + last == NodesBytes(c);
      WordInside([], front, last, 8 * k);
      WordInside([], front, last, 8 * k + 4);
    } else {
      var latp, lon := Bytes4(Unsigned(c[n].value.latp)), Bytes4(Unsigned(c[n].value.lon));
      assert NodesBytes(c) == front + latp + lon;
      WordRoundTrip(front, Unsigned(c[n].value.latp), lon);
      assert NodesBytes(c) == (front + latp) + lon + [];
      WordRoundTrip(front + latp, Unsigned(c[n].value.lon), []);
    }
  }

  lemma HeaderReads(area: seq<octet>, base: nat, flags: word, mask: Mask, rest: seq<octet>)
    requires HoldsAt(area, base, Bytes4(flags) + mask + rest)
    ensures WordAt(area, base) == flags && NodeMaskAt(area, base) == mask
  {
    hide WordAt;
    hide Bytes4;
    var bytes := Bytes4(flags) + mask + rest;
    forall j | 0 <= j < 32 ensures area[base + 4..base + 36][j] == mask[j] {
      assert area[base + 4 + j] == area[base..base + |bytes|][4 + j] == bytes[4 + j];
    }
    assert bytes == [] + Bytes4(flags) + (mask + rest);
    WordRoundTrip([], flags, mask + rest);
    WordOf(area, base, bytes, 0);
  }

  /** A word behind the header. */
  lemma BodyWord(area: seq<octet>, base: nat, header: seq<octet>, mask: Mask, body: seq<octet>, k: nat)
    requires |header| == 4 && HoldsAt(area, base, header + mask + body) && k + 4 <= |body|
    ensures WordAt(area, base + 36 + k) == WordAt(body, k)
  {
    hide WordAt;
    var bytes := header + mask + body;
    assert bytes == (header + mask) + body + [];
    WordInside(header + mask, body, [], k);
    WordOf(area, base, bytes, 36 + k);
  }

  lemma BodyBehind(area: seq<octet>, base: nat, header: seq<octet>, mask: Mask, body: seq<octet>, k: nat)
    requires |header| == 4 && HoldsAt(area, base, header + mask + body) && k <= |body|
    ensures From(area, base + 36 + k) == body[k..] + From(area, base + 36 + |body|)
  {
    var bytes := header + mask + body;
    var at := base + 36 + k;
    var end := base + |bytes|;
    assert area[at..] == area[at..end] + area[end..];
    assert area[base..end] == bytes;
    forall j | 0 <= j < |body| - k ensures area[at..end][j] == body[k..][j] {
      assert area[at + j] == area[base..end][36 + k + j] == bytes[36 + k + j];
    }
    assert area[at..end] == body[k..];
  }

  lemma UnsetIsNone(ic: IntCodec, area: seq<octet>, base: nat, slot: index)
    requires !IsSet(NodeMaskAt(area, base), slot)
    ensures ReadSlot(ic, area, base, slot) == None
  {
    hide IsSet;
    hide NodeMaskAt;
  }

  lemma PlainSlot(ic: IntCodec, area: seq<octet>, base: nat, slot: index, k: nat)
    requires IsSet(NodeMaskAt(area, base), slot) && WordAt(area, base) < 0x8000_0000
    requires Rank(NodeMaskAt(area, base), slot) == k
    ensures ReadSlot(ic, area, base, slot) ==
      Some(LatpLon(Signed(WordAt(area, base + 36 + 8 * k)), Signed(WordAt(area, base + 36 + (8 * k + 4)))))
  {
    hide IsSet;
    hide NodeMaskAt;
    hide Rank;
    hide Signed;
    hide WordAt;
  }

  lemma PackedSlot(ic: IntCodec, area: seq<octet>, base: nat, slot: index, k: nat)
    requires IsSet(NodeMaskAt(area, base), slot) && WordAt(area, base) >= 0x8000_0000
    requires Rank(NodeMaskAt(area, base), slot) == k
    ensures ReadSlot(ic, area, base, slot) == Pick(DecodedChunk(ic, area, base), k)
  {
    hide IsSet;
    hide NodeMaskAt;
    hide Rank;
    hide WordAt;
    hide DecodedChunk;
  }

  lemma PlainReads(ic: IntCodec, area: seq<octet>, base: nat, c: seq<Element<LatpLon>>, k: nat)
    requires k < |c| && Positions(Slots(c))
    requires MaskOf(MaskFor(Slots(c)), Slots(c))
    requires HoldsAt(area, base, Bytes4(0) + MaskFor(Slots(c)) + NodesBytes(c))
    ensures ReadSlot(ic, area, base, Slots(c)[k]) == Some(c[k].value)
  {
    hide *;
    var mask, nodes := MaskFor(Slots(c)), NodesBytes(c);
    HeaderReads(area, base, 0, mask, nodes);
    RankOfPosition(mask, Slots(c), k);
    PlainSlot(ic, area, base, Slots(c)[k], k);
    NodeInBytes(c, k);
    BodyWord(area, base, Bytes4(0), mask, nodes, 8 * k);
    BodyWord(area, base, Bytes4(0), mask, nodes, 8 * k + 4);
    SignedRoundTrip(c[k].value.latp);
    SignedRoundTrip(c[k].value.lon);
  }

  /** The body of a compressed chunk: two first values, then the two codes. */
  ghost function PackedBody(ic: IntCodec, c: seq<Element<LatpLon>>): seq<octet> {
    if c == [] then [] else
    Bytes4(Unsigned(Latps(c)[0])) + Bytes4(Unsigned(Lons(c)[0])) + Deltas(ic, Latps(c)) + Deltas(ic, Lons(c))
  }

  lemma PackedWords(ic: IntCodec, c: seq<Element<LatpLon>>)
    requires c != []
    ensures Signed(WordAt(PackedBody(ic, c), 0)) == Latps(c)[0]
    ensures Signed(WordAt(PackedBody(ic, c), 4)) == Lons(c)[0]
    ensures |PackedBody(ic, c)| == 8 + |Deltas(ic, Latps(c))| + |Deltas(ic, Lons(c))|
    ensures PackedBody(ic, c)[8..] == Deltas(ic, Latps(c)) + Deltas(ic, Lons(c))
    ensures PackedBody(ic, c)[8 + |Deltas(ic, Latps(c))|..] == Deltas(ic, Lons(c))
  {
    hide WordAt;
    hide Bytes4;
    hide Signed;
    hide Unsigned;
    hide Deltas;
    hide Latps;
    hide Lons;
    var latp, lon := Latps(c)[0], Lons(c)[0];
    var rest := Deltas(ic, Latps(c)) + Deltas(ic, Lons(c));
    var body := PackedBody(ic, c);
    assert body == [] + Bytes4(Unsigned(latp)) + (Bytes4(Unsigned(lon)) + rest);
    WordRoundTrip([], Unsigned(latp), Bytes4(Unsigned(lon)) + rest);
    assert body == Bytes4(Unsigned(latp)) + Bytes4(Unsigned(lon)) + rest;
    WordRoundTrip(Bytes4(Unsigned(latp)), Unsigned(lon), rest);
    SignedRoundTrip(latp);
    SignedRoundTrip(lon);
  }

  lemma PackedDecodes(ic: IntCodec, area: seq<octet>, base: nat, c: seq<Element<LatpLon>>, flags: word)
    requires GoodIntCodec(ic) && c != [] && Positions(Slots(c))
    requires MaskOf(MaskFor(Slots(c)), Slots(c))
    requires flags as int / 1024 % 1024 == |Deltas(ic, Latps(c))|
    requires HoldsAt(area, base, Bytes4(flags) + MaskFor(Slots(c)) + PackedBody(ic, c))
    ensures DecodedChunk(ic, area, base) == (Latps(c), Lons(c))
  {
    hide *;
    var latps, lons := Deltas(ic, Latps(c)), Deltas(ic, Lons(c));
    var mask, body := MaskFor(Slots(c)), PackedBody(ic, c);
    HeaderReads(area, base, flags, mask, body);
    PackedWords(ic, c);
    BodyWord(area, base, Bytes4(flags), mask, body, 0);
    BodyWord(area, base, Bytes4(flags), mask, body, 4);
    PopCountOfMask(mask, Slots(c));
    var tail := From(area, base + 36 + |body|);
    BodyBehind(area, base, Bytes4(flags), mask, body, 8);
    BodyBehind(area, base, Bytes4(flags), mask, body, 8 + |latps|);
    assert latps + lons + tail == latps + (lons + tail);
    DeltasRoundTrip(ic, Latps(c), lons + tail);
    DeltasRoundTrip(ic, Lons(c), tail);
    DecodedIs(ic, area, base, |latps|, |c|);
  }

  /** One turn of the definition. */
  lemma DecodedIs(ic: IntCodec, area: seq<octet>, base: nat, latpSize: nat, ones: nat)
    requires WordAt(area, base) as int / 1024 % 1024 == latpSize
    requires PopCount(NodeMaskAt(area, base), 32) == ones > 0
    ensures DecodedChunk(ic, area, base) ==
      (Undelta(ic, Signed(WordAt(area, base + 36 + 0)), From(area, base + 36 + 8), ones - 1),
       Undelta(ic, Signed(WordAt(area, base + 36 + 4)), From(area, base + 36 + (8 + latpSize)), ones - 1))
  {
    hide WordAt;
    hide NodeMaskAt;
    hide PopCount;
    hide Undelta;
    hide Signed;
    hide From;
  }

  lemma FlagParts(latps: nat, lons: nat)
    requires latps < 1024 && lons < 1024
    ensures Flags(latps, lons) as int / 1024 % 1024 == latps
  {
    var h := 0x20_0000 + latps;
    assert Flags(latps, lons) as int == 1024 * h + lons;
    assert (1024 * h + lons) / 1024 == h;
    assert h == 1024 * 2048 + latps;
  }

  /** Whether it was compressed or not, a chunk answers for its nodes and no others. */
  lemma ChunkReads(ic: IntCodec, compress: bool, area: seq<octet>, base: nat, c: seq<Element<LatpLon>>, slot: index)
    requires GoodIntCodec(ic) && c != [] && Positions(Slots(c))
    requires HoldsAt(area, base, ChunkBytes(ic, compress, c))
    ensures slot !in Slots(c) ==> ReadSlot(ic, area, base, slot) == None
    ensures forall k :: 0 <= k < |c| && Slots(c)[k] == slot ==> ReadSlot(ic, area, base, slot) == Some(c[k].value)
    ensures IsSet(NodeMaskAt(area, base), slot) <==> slot in Slots(c)
  {
    hide *;
    var slots := Slots(c);
    MaskForIs(slots);
    var mask := MaskFor(slots);
    MaskSets(mask, slots, slot);
    ChunkBytesAre(ic, compress, c);
    if Compresses(ic, compress, c) {
      var flags := Flags(|Deltas(ic, Latps(c))|, |Deltas(ic, Lons(c))|);
      FlagParts(|Deltas(ic, Latps(c))|, |Deltas(ic, Lons(c))|);
      HeaderReads(area, base, flags, mask, PackedBody(ic, c));
      PackedDecodes(ic, area, base, c, flags);
      forall k | 0 <= k < |c| && slots[k] == slot ensures ReadSlot(ic, area, base, slot) == Some(c[k].value) {
        RankOfPosition(mask, slots, k);
        PackedSlot(ic, area, base, slot, k);
        PickIs(c, k);
      }
    } else {
      HeaderReads(area, base, 0, mask, NodesBytes(c));
      forall k | 0 <= k < |c| && slots[k] == slot ensures ReadSlot(ic, area, base, slot) == Some(c[k].value) {
        PlainReads(ic, area, base, c, k);
      }
    }
    if slot !in slots {
      UnsetIsNone(ic, area, base, slot);
    }
  }

  lemma PickIs(c: seq<Element<LatpLon>>, k: nat)
    requires k < |c|
    ensures Pick((Latps(c), Lons(c)), k) == Some(c[k].value)
  {
  }

  lemma ChunkBytesAre(ic: IntCodec, compress: bool, c: seq<Element<LatpLon>>)
    requires c != []
    ensures !Compresses(ic, compress, c) ==> ChunkBytes(ic, compress, c) == Bytes4(0) + MaskFor(Slots(c)) + NodesBytes(c)
    ensures Compresses(ic, compress, c) ==>
      |Deltas(ic, Latps(c))| < 1024 && |Deltas(ic, Lons(c))| < 1024 &&
      var flags := Flags(|Deltas(ic, Latps(c))|, |Deltas(ic, Lons(c))|);
      flags >= 0x8000_0000 &&
      ChunkBytes(ic, compress, c) == Bytes4(flags) + MaskFor(Slots(c)) + PackedBody(ic, c)
  {
    hide MaskFor;
    hide Deltas;
    hide Bytes4;
    hide Latps;
    hide Lons;
    hide NodesBytes;
    var latps, lons := Deltas(ic, Latps(c)), Deltas(ic, Lons(c));
    if Compresses(ic, compress, c) {
      assert ChunkBytes(ic, compress, c) == Bytes4(Flags(|latps|, |lons|)) + MaskFor(Slots(c)) + PackedBody(ic, c);
    }
  }

  // ----- Sizes -----

  ghost predicate SmallChunks<V>(cs: seq<seq<Element<V>>>) {
    forall c :: 0 <= c < |cs| ==> |cs[c]| <= 256
  }

  /** Compression is used exactly where it is allowed, saves space, and both sizes fit in
      ten bits; this can be told from the coordinates. */
  lemma CompressesIs(ic: IntCodec, compress: bool, c: seq<Element<LatpLon>>)
    requires GoodIntCodec(ic) && c != []
    ensures var latps, lons := DeltasLength(Latps(c)), DeltasLength(Lons(c));
            var packed := compress && latps <= 1023 && lons <= 1023 && 44 + latps + lons < 36 + 8 * |c|;
            |ChunkBytes(ic, compress, c)| == if packed then 44 + latps + lons else 36 + 8 * |c|
  {
    DeltasSize(ic, Latps(c));
    DeltasSize(ic, Lons(c));
    hide GoodIntCodec, Deltas, DeltasLength, Latps, Lons, MaskFor, NodesBytes;
  }

  /** Two nodes or more that lie near each other are compressed, to one byte a delta. */
  lemma NearNodesAreShort(ic: IntCodec, c: seq<Element<LatpLon>>)
    requires GoodIntCodec(ic) && 2 <= |c| <= 256 && Near(Latps(c)) && Near(Lons(c))
    ensures Compresses(ic, true, c)
    ensures |ChunkBytes(ic, true, c)| == 44 + 2 * ((|c| + 2) / 4 + (|c| - 1)) < 36 + 8 * |c|
  {
    NarrowestDeltas(Latps(c));
    NarrowestDeltas(Lons(c));
    DeltasSize(ic, Latps(c));
    DeltasSize(ic, Lons(c));
    hide GoodIntCodec, Deltas, DeltasLength, Latps, Lons, Near;
    CompressesIs(ic, true, c);
  }

  /** No chunk takes more than 2,084 bytes. */
  lemma ChunkSize(ic: IntCodec, compress: bool, c: seq<Element<LatpLon>>)
    requires c != [] && |c| <= 256
    ensures |ChunkBytes(ic, compress, c)| <= 36 + 8 * |c| <= 2084
    ensures |Padded(ChunkBytes(ic, compress, c))| <= 2096
  {
    hide MaskFor;
    hide Deltas;
  }

  lemma {:induction false} AreaSize(ic: IntCodec, compress: bool, cs: seq<seq<Element<LatpLon>>>)
    requires NonEmpty(cs) && SmallChunks(cs)
    ensures |Area(ic, compress, cs)| <= 2096 * |cs|
    ensures |Area(ic, compress, cs)| % CHUNK_ALIGNMENT == 0
  {
    hide Area;
    hide ChunkBytes;
    hide Padded;
    AreaUnfold(ic, compress, cs);
    if cs != [] {
      var n := |cs| - 1;
      AreaSize(ic, compress, cs[..n]);
      ChunkSize(ic, compress, cs[n]);
      SumOfMultiples(|Area(ic, compress, cs[..n])|, |Padded(ChunkBytes(ic, compress, cs[n]))|);
    }
  }

  lemma AreaUnfold(ic: IntCodec, compress: bool, cs: seq<seq<Element<LatpLon>>>)
    ensures cs == [] ==> Area(ic, compress, cs) == []
    ensures cs != [] ==>
      Area(ic, compress, cs) == Area(ic, compress, cs[..|cs| - 1]) + Padded(ChunkBytes(ic, compress, cs[|cs| - 1]))
  {
    hide ChunkBytes;
    hide Padded;
  }

  lemma SumOfMultiples(a: nat, b: nat)
    requires a % CHUNK_ALIGNMENT == 0 && b % CHUNK_ALIGNMENT == 0
    ensures (a + b) % CHUNK_ALIGNMENT == 0
  {
  }

  /** Every scaled offset fits in 16 bits, and scaling loses nothing. */
  lemma OffsetFits(ic: IntCodec, compress: bool, cs: seq<seq<Element<LatpLon>>>, c: nat)
    requires c < |cs| <= 256
    requires NonEmpty(cs) && SmallChunks(cs)
    ensures Offset(ic, compress, cs, c) <= 65535
    ensures Offset(ic, compress, cs, c) * CHUNK_ALIGNMENT == |Area(ic, compress, cs[..c])|
  {
    AreaSize(ic, compress, cs[..c]);
  }

  lemma {:induction false} AreaHolds(ic: IntCodec, compress: bool, cs: seq<seq<Element<LatpLon>>>, c: nat)
    requires c < |cs|
    requires NonEmpty(cs)
    ensures HoldsAt(Area(ic, compress, cs), |Area(ic, compress, cs[..c])|, ChunkBytes(ic, compress, cs[c]))
  {
    hide ChunkBytes;
    var n := |cs| - 1;
    var front := Area(ic, compress, cs[..n]);
    if c < n {
      AreaHolds(ic, compress, cs[..n], c);
      assert cs[..n][..c] == cs[..c];
      HeldLonger(front, |Area(ic, compress, cs[..c])|, ChunkBytes(ic, compress, cs[c]), Padded(ChunkBytes(ic, compress, cs[n])));
    } else {
      HeldAtEnd(front, ChunkBytes(ic, compress, cs[n]));
    }
  }

  lemma HeldAtEnd(front: seq<octet>, bytes: seq<octet>)
    ensures HoldsAt(front + Padded(bytes), |front|, bytes)
  {
  }

  // ----- The group -----

  /** at finds exactly the nodes of the group, with their coordinates. */
  lemma LayoutReads(ic: IntCodec, compress: bool, es: seq<Element<LatpLon>>, g: nat, id: nat)
    requires GoodIntCodec(ic) && GroupList(es, g) && Group(id) == g
    ensures ReadNode(ic, Layout(ic, compress, Split(es)), id) == Lookup(es, id)
  {
    hide *;
    SplitIsGood(es, g);
    var cs := Split(es);
    if j: nat :| j < |es| && es[j].id == id {
      var c, k := InSomeChunk(cs, j);
      PresentReads(ic, compress, cs, g, c, k);
      LookupIs(es, g, j);
    } else {
      AbsentReads(ic, compress, cs, g, id);
      LookupNone(es, id);
    }
  }

  lemma GoodAreSmall<V>(cs: seq<seq<Element<V>>>, g: nat)
    requires GoodChunks(cs, g)
    ensures NonEmpty(cs) && SmallChunks(cs) && |cs| <= 256 && Positions(ChunkNumbers(cs))
    ensures forall c :: 0 <= c < |cs| ==> cs[c] != [] && Positions(Slots(cs[c]))
  {
    hide GroupList;
    hide Positions;
    ChunkPositions(cs, g);
    forall c | 0 <= c < |cs| ensures cs[c] != [] && |cs[c]| <= 256 && Positions(Slots(cs[c])) {
      SlotPositions(cs[c], g);
    }
  }

  /** How at gets to a chunk. */
  lemma ChunkIsReached(ic: IntCodec, compress: bool, cs: seq<seq<Element<LatpLon>>>, g: nat, c: nat, id: nat)
    requires GoodChunks(cs, g) && NonEmpty(cs) && c < |cs| && ChunkNumber(cs[c]) == ChunkOf(id)
    ensures var layout, base := Layout(ic, compress, cs), |Area(ic, compress, cs[..c])|;
            HoldsAt(layout.area, base, ChunkBytes(ic, compress, cs[c])) &&
            ReadNode(ic, layout, id) == ReadSlot(ic, layout.area, base, Slot(id)) &&
            IsSet(layout.chunkMask, ChunkOf(id)) && Rank(layout.chunkMask, ChunkOf(id)) == c < |layout.chunkOffsets| &&
            layout.chunkOffsets[c] * CHUNK_ALIGNMENT == base
  {
    hide ReadSlot;
    hide Rank;
    hide IsSet;
    hide Area;
    hide ChunkBytes;
    hide MaskFor;
    hide Positions;
    hide Slot;
    hide ChunkOf;
    hide GoodChunks;
    hide HoldsAt;
    hide NonEmpty;
    hide SmallChunks;
    hide MaskOf;
    GoodAreSmall(cs, g);
    var numbers := ChunkNumbers(cs);
    MaskForIs(numbers);
    RankOfPosition(MaskFor(numbers), numbers, c);
    OffsetFits(ic, compress, cs, c);
    AreaHolds(ic, compress, cs, c);
  }

  lemma PresentReads(ic: IntCodec, compress: bool, cs: seq<seq<Element<LatpLon>>>, g: nat, c: nat, k: nat)
    requires GoodIntCodec(ic) && GoodChunks(cs, g) && NonEmpty(cs) && c < |cs| && k < |cs[c]|
    ensures ReadNode(ic, Layout(ic, compress, cs), cs[c][k].id) == Some(cs[c][k].value)
  {
    hide *;
    var id := cs[c][k].id;
    GoodAreSmall(cs, g);
    ElementGroup(cs, g, c, k);
    PlaceIsId(cs, g, c, k, id);
    ChunkIsReached(ic, compress, cs, g, c, id);
    ChunkReads(ic, compress, Layout(ic, compress, cs).area, |Area(ic, compress, cs[..c])|, cs[c], Slot(id));
  }

  lemma ElementGroup(cs: seq<seq<Element<LatpLon>>>, g: nat, c: nat, k: nat)
    requires GoodChunks(cs, g) && c < |cs| && k < |cs[c]|
    ensures Group(cs[c][k].id) == g
  {
    hide Group;
    assert GoodChunk(cs[c], g);
  }

  lemma AbsentReads(ic: IntCodec, compress: bool, cs: seq<seq<Element<LatpLon>>>, g: nat, id: nat)
    requires GoodIntCodec(ic) && GoodChunks(cs, g) && NonEmpty(cs) && Group(id) == g
    requires forall j :: 0 <= j < |Joined(cs)| ==> Joined(cs)[j].id != id
    ensures ReadNode(ic, Layout(ic, compress, cs), id) == None
  {
    hide *;
    GoodAreSmall(cs, g);
    if c: nat :| c < |cs| && ChunkNumber(cs[c]) == ChunkOf(id) {
      ChunkIsReached(ic, compress, cs, g, c, id);
      forall k | 0 <= k < |Slots(cs[c])| ensures Slots(cs[c])[k] != Slot(id) {
        var j := ChunkInJoined(cs, c, k);
        PlaceIsId(cs, g, c, k, id);
      }
      ChunkReads(ic, compress, Layout(ic, compress, cs).area, |Area(ic, compress, cs[..c])|, cs[c], Slot(id));
    } else {
      NoChunk(ic, compress, cs, id);
    }
  }

  lemma NoChunk(ic: IntCodec, compress: bool, cs: seq<seq<Element<LatpLon>>>, id: nat)
    requires NonEmpty(cs) && Positions(ChunkNumbers(cs))
    requires forall c :: 0 <= c < |cs| ==> ChunkNumber(cs[c]) != ChunkOf(id)
    ensures ReadNode(ic, Layout(ic, compress, cs), id) == None
  {
    hide MaskFor;
    hide MaskOf;
    hide IsSet;
    hide Area;
    hide ChunkOf;
    hide ChunkNumber;
    hide Offset;
    var numbers := ChunkNumbers(cs);
    MaskForIs(numbers);
    MaskSets(MaskFor(numbers), numbers, ChunkOf(id));
  }
}
