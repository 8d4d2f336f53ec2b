/** Writing a group of nodes into memory, in two passes over the nodes. */
module NodeGroupWriter {
  import opened Coordinates
  import opened BitMask
  import opened IntCodec
  import opened Memory
  import opened SortedStoreProtocol
  import opened Chunks
  import opened NodeGroup

  type Nodes = seq<Element<LatpLon>>

  // ----- Walking the chunks of a group -----

  /** Before element i is looked at: the chunks that are finished, and the start of the
      one that is not. */
  ghost predicate Walked(nodes: Nodes, i: nat, done: seq<Nodes>, start: nat) {
    && start <= i <= |nodes|
    && (i > 0 ==> start < i)
    && (i > 0 ==> Split(nodes[..i]) == done + [nodes[start..i]])
    && (i == 0 ==> done == [])
  }

  lemma WalkOn(nodes: Nodes, g: nat, i: nat, done: seq<Nodes>, start: nat)
    requires GroupList(nodes, g) && i < |nodes| && Walked(nodes, i, done, start)
    ensures i > 0 && ChunkOf(nodes[i].id) == ChunkOf(nodes[i - 1].id) ==> Walked(nodes, i + 1, done, start)
    ensures i > 0 && ChunkOf(nodes[i].id) != ChunkOf(nodes[i - 1].id) ==> Walked(nodes, i + 1, done + [nodes[start..i]], i)
    ensures i == 0 ==> Walked(nodes, 1, [], 0)
  {
    hide ChunkOf;
    hide Split;
    hide GroupList;
    SplitUnfold(nodes, i);
    if i == 0 {
      assert nodes[..0] == [];
      assert nodes[0..1] == [nodes[0]];
    } else {
      LastNumber(nodes, g, i, done, start);
      assert nodes[start..i + 1] == nodes[start..i] + [nodes[i]];
      assert nodes[i..i + 1] == [nodes[i]];
    }
  }

  lemma SplitUnfold(nodes: Nodes, i: nat)
    requires i < |nodes|
    ensures Split(nodes[..i + 1]) == Grown(Split(nodes[..i]), nodes[i])
    ensures i == 0 ==> Split(nodes[..i]) == []
  {
    assert nodes[..i + 1][..i] == nodes[..i];
  }

  lemma LastNumber(nodes: Nodes, g: nat, i: nat, done: seq<Nodes>, start: nat)
    requires GroupList(nodes, g) && 0 < i <= |nodes| && Walked(nodes, i, done, start)
    ensures ChunkNumber(nodes[start..i]) == ChunkOf(nodes[i - 1].id)
    ensures |done| < 256 && i - start <= 256
    ensures GoodChunk(nodes[start..i], g)
  {
    hide ChunkOf;
    hide Group;
    hide Split;
    var front := nodes[..i];
    PrefixIsGroup(nodes, g, i);
    SplitIsGood(front, g);
    GoodAreSmall(Split(front), g);
    var c := nodes[start..i];
    assert c == Split(front)[|done|];
    assert GoodChunk(c, g);
    assert c[|c| - 1] == nodes[i - 1];
  }

  lemma PrefixIsGroup(nodes: Nodes, g: nat, i: nat)
    requires GroupList(nodes, g) && i <= |nodes|
    ensures GroupList(nodes[..i], g)
  {
    hide Group;
  }

  lemma WalkedAll(nodes: Nodes, done: seq<Nodes>, start: nat)
    requires nodes != [] && Walked(nodes, |nodes|, done, start)
    ensures Split(nodes) == done + [nodes[start..|nodes|]]
  {
    assert nodes[..|nodes|] == nodes;
  }

  // ----- First pass: sizes -----

  /** The compressed sizes of a chunk, or ~0 where it stays uncompressed. */
  ghost function LatpSize(ic: IntCodec, compress: bool, c: Nodes): nat {
    if Compresses(ic, compress, c) then |Deltas(ic, Latps(c))| else RAW
  }

  ghost function LonSize(ic: IntCodec, compress: bool, c: Nodes): nat {
    if Compresses(ic, compress, c) then |Deltas(ic, Lons(c))| else RAW
  }

  /** The entry that means "no chunk" never belongs to a chunk: two values or more
      compress to something, and a single one is not compressed. */
  lemma SizeIsNotTheSentinel(ic: IntCodec, compress: bool, c: Nodes)
    requires GoodIntCodec(ic) && c != []
    ensures LatpSize(ic, compress, c) != 0
    ensures LatpSize(ic, compress, c) == RAW <==> !Compresses(ic, compress, c)
  {
    hide Deltas;
    hide GoodIntCodec;
    DeltasSize(ic, Latps(c));
    DeltasSize(ic, Lons(c));
  }

  function ChunkSpace(latpSize: nat, lonSize: nat, nodes: nat): nat {
    RoundUp(if latpSize == RAW then CHUNK_INFO_SIZE + nodes * 8 else COMPRESSED_INFO_SIZE + latpSize + lonSize)
  }

  lemma SpaceIsPaddedSize(ic: IntCodec, compress: bool, c: Nodes)
    requires GoodIntCodec(ic) && c != []
    ensures ChunkSpace(LatpSize(ic, compress, c), LonSize(ic, compress, c), |c|) == |Padded(ChunkBytes(ic, compress, c))|
  {
    hide Deltas;
    hide GoodIntCodec;
    SizeIsNotTheSentinel(ic, compress, c);
  }

  /** The tables of the first pass, as far as they are filled. */
  ghost predicate Measured(ic: IntCodec, compress: bool, done: seq<Nodes>, latps: seq<nat>, lons: seq<nat>, counts: seq<nat>) {
    && |latps| == |lons| == |counts| == 256 && |done| <= 256
    && (forall c :: 0 <= c < |done| ==>
         latps[c] == LatpSize(ic, compress, done[c]) && lons[c] == LonSize(ic, compress, done[c]) && counts[c] == |done[c]|)
    && (forall c :: |done| <= c < 256 ==> latps[c] == 0)
  }

  lemma MeasuredOne(ic: IntCodec, compress: bool, done: seq<Nodes>, latps: seq<nat>, lons: seq<nat>, counts: seq<nat>, c: Nodes)
    requires Measured(ic, compress, done, latps, lons, counts) && |done| < 256
    ensures Measured(ic, compress, done + [c], latps[|done| := LatpSize(ic, compress, c)],
              lons[|done| := LonSize(ic, compress, c)], counts[|done| := |c|])
  {
    hide LatpSize;
    hide LonSize;
  }

  /** publishGroup's first walk over the nodes. */
  method MeasureChunks(ic: IntCodec, compress: bool, nodes: Nodes, ghost g: nat)
    returns (chunks: nat, latpSizes: seq<nat>, lonSizes: seq<nat>, counts: seq<nat>)
    requires GoodIntCodec(ic) && GroupList(nodes, g) && nodes != []
    ensures chunks == |Split(nodes)| && Measured(ic, compress, Split(nodes), latpSizes, lonSizes, counts)
  {
    hide *;
    latpSizes, lonSizes, counts := seq(256, _ => 0), seq(256, _ => 0), seq(256, _ => 0);
    var lastChunk: int := -1;
    var start: nat, current: nat := 0, 0;
    ghost var done: seq<Nodes> := [];
    NothingMeasured(ic, compress, nodes, latpSizes, lonSizes, counts);
    for i := 0 to |nodes| + 1
      invariant i <= |nodes| ==>
        Walked(nodes, i, done, start) && current == |done| &&
        lastChunk == if i == 0 then -1 else ChunkOf(nodes[i - 1].id)
      invariant i == |nodes| + 1 ==> done == Split(nodes) && current == |done|
      invariant Measured(ic, compress, done, latpSizes, lonSizes, counts)
      invariant i == 0 ==> start == 0 && done == []
      invariant i > 0 ==> start < i
      invariant start <= |nodes| && |latpSizes| == |lonSizes| == |counts| == 256
    {
      var currentChunk: int := -1;
      if i != |nodes| {
        currentChunk := ChunkOf(nodes[i].id);
        WalkOn(nodes, g, i, done, start);
      } else {
        WalkedAll(nodes, done, start);
      }
      if lastChunk != currentChunk {
        if lastChunk != -1 {
          LastNumber(nodes, g, i, done, start);
          var chunk := nodes[start..i];
          var latpSize, lonSize := MeasureChunk(ic, compress, chunk);
          MeasuredOne(ic, compress, done, latpSizes, lonSizes, counts, chunk);
          latpSizes, lonSizes, counts := latpSizes[current := latpSize], lonSizes[current := lonSize], counts[current := |chunk|];
          done := done + [chunk];
          current := current + 1;
          start := i;
        }
        lastChunk := currentChunk;
      }
    }
    chunks := current;
  }

  lemma NothingMeasured(ic: IntCodec, compress: bool, nodes: Nodes, latps: seq<nat>, lons: seq<nat>, counts: seq<nat>)
    requires latps == lons == counts == seq(256, _ => 0)
    ensures Walked(nodes, 0, [], 0) && Measured(ic, compress, [], latps, lons, counts)
  {
  }

  method MeasureChunk(ic: IntCodec, compress: bool, chunk: Nodes) returns (latpSize: nat, lonSize: nat)
    requires chunk != []
    ensures latpSize == LatpSize(ic, compress, chunk) && lonSize == LonSize(ic, compress, chunk)
  {
    latpSize, lonSize := RAW, RAW;
    if compress {
      var latps := seq(|chunk|, k requires 0 <= k < |chunk| => chunk[k].value.latp);
      var lons := seq(|chunk|, k requires 0 <= k < |chunk| => chunk[k].value.lon);
      assert latps == Latps(chunk) && lons == Lons(chunk);
      var latsCompressedSize := |Deltas(ic, latps)|;
      var lonsCompressedSize := |Deltas(ic, lons)|;
      var uncompressedSize := |chunk| * 8;
      var totalCompressedSize := latsCompressedSize + lonsCompressedSize + 2 * 4;
      if totalCompressedSize < uncompressedSize && latsCompressedSize < 1024 && lonsCompressedSize < 1024 {
        latpSize := latsCompressedSize;
        lonSize := lonsCompressedSize;
      }
    }
  }

  // ----- Second pass: the bytes -----

  datatype PublishError = InvalidScaledOffset | ScaledOffsetTooBig | UnexpectedSize

  datatype Published = Ok(group: GroupInfo) | Thrown(error: PublishError)

  /** The space the first pass asks for, behind the offsets and before the padding the
      decoder may read into. */
  method AreaNeeded(latpSizes: seq<nat>, lonSizes: seq<nat>, counts: seq<nat>,
                    ic: IntCodec, compress: bool, ghost cs: seq<Nodes>) returns (space: nat)
    requires GoodIntCodec(ic) && NonEmpty(cs) && Measured(ic, compress, cs, latpSizes, lonSizes, counts)
    ensures space == |Area(ic, compress, cs)|
  {
    hide ChunkSpace;
    hide Area;
    hide ChunkBytes;
    hide LatpSize;
    hide LonSize;
    hide GoodIntCodec;
    hide NonEmpty;
    hide Padded;
    space := 0;
    var current: nat := 0;
    AreaUnfold(ic, compress, cs[..0]);
    while current < 256
      invariant current <= |cs| && space == |Area(ic, compress, cs[..current])|
      decreases 256 - current
    {
      if current < |cs| {
        ChunkThere(ic, compress, cs, current);
      }
      if latpSizes[current] == 0 {
        break;
      }
      assert current < |cs|;
      space := space + ChunkSpace(latpSizes[current], lonSizes[current], counts[current]);
      current := current + 1;
    }
    assert current == |cs|;
    assert cs[..|cs|] == cs;
  }

  lemma ChunkThere(ic: IntCodec, compress: bool, cs: seq<Nodes>, c: nat)
    requires GoodIntCodec(ic) && NonEmpty(cs) && c < |cs|
    ensures LatpSize(ic, compress, cs[c]) != 0
    ensures |Area(ic, compress, cs[..c + 1])| ==
      |Area(ic, compress, cs[..c])| + ChunkSpace(LatpSize(ic, compress, cs[c]), LonSize(ic, compress, cs[c]), |cs[c]|)
  {
    hide ChunkSpace;
    hide ChunkBytes;
    hide Padded;
    hide LatpSize;
    hide LonSize;
    hide GoodIntCodec;
    SizeIsNotTheSentinel(ic, compress, cs[c]);
    SpaceIsPaddedSize(ic, compress, cs[c]);
    AreaUnfold(ic, compress, cs[..c + 1]);
    assert cs[..c + 1][..c] == cs[..c];
  }

  /** One chunk's bytes, compressed if the first pass said so. */
  method WriteChunk(ic: IntCodec, compress: bool, chunk: Nodes, nodeMask: Mask, latpSize: nat, lonSize: nat)
    returns (bytes: seq<octet>, ok: bool)
    requires GoodIntCodec(ic) && chunk != []
    requires latpSize == LatpSize(ic, compress, chunk) && lonSize == LonSize(ic, compress, chunk)
    requires nodeMask == MaskFor(Slots(chunk))
    ensures ok && bytes == ChunkBytes(ic, compress, chunk)
  {
    hide MaskFor;
    hide Bytes4;
    hide Unsigned;
    hide Deltas;
    hide GoodIntCodec;
    SizeIsNotTheSentinel(ic, compress, chunk);
    ok := true;
    if latpSize == RAW {
      bytes := Bytes4(0) + nodeMask;
      ghost var header := bytes;
      for j := 0 to |chunk|
        invariant bytes == header + NodesBytes(chunk[..j])
      {
        assert chunk[..j + 1][..j] == chunk[..j];
        bytes := bytes + NodeBytes(chunk[j].value);
      }
      assert chunk[..|chunk|] == chunk;
    } else {
      var latps := seq(|chunk|, k requires 0 <= k < |chunk| => chunk[k].value.latp);
      var lons := seq(|chunk|, k requires 0 <= k < |chunk| => chunk[k].value.lon);
      assert latps == Latps(chunk) && lons == Lons(chunk);
      var latData, lonData := Deltas(ic, latps), Deltas(ic, lons);
      if |latData| != latpSize || |lonData| != lonSize {
        ok := false;
      }
      bytes := Bytes4(Flags(latpSize, lonSize)) + nodeMask + Bytes4(Unsigned(chunk[0].value.latp))
               + Bytes4(Unsigned(chunk[0].value.lon)) + latData + lonData;
    }
  }

  /** What the second walk has written when the chunks of done are finished. */
  ghost predicate Written(ic: IntCodec, compress: bool, done: seq<Nodes>, chunkMask: Mask, offsets: seq<nat>, area: seq<octet>) {
    GroupInfo(chunkMask, offsets, area) == Layout(ic, compress, done)
  }

  lemma WrittenOne(ic: IntCodec, compress: bool, done: seq<Nodes>, chunkMask: Mask, offsets: seq<nat>, area: seq<octet>, c: Nodes)
    requires Written(ic, compress, done, chunkMask, offsets, area)
    ensures Written(ic, compress, done + [c], Including(chunkMask, ChunkNumber(c)),
              offsets + [|area| / CHUNK_ALIGNMENT], area + Padded(ChunkBytes(ic, compress, c)))
  {
    hide ChunkBytes;
    hide Padded;
    hide Area;
    hide Including;
    hide ChunkNumber;
    var cs := done + [c];
    AreaUnfold(ic, compress, cs);
    assert cs[..|done|] == done;
    assert ChunkNumbers(cs)[..|done|] == ChunkNumbers(done);
    forall k | 0 <= k < |cs| ensures (offsets + [|area| / CHUNK_ALIGNMENT])[k] == Offset(ic, compress, cs, k) {
      if k < |done| {
        assert cs[..k] == done[..k];
      }
    }
  }

  lemma NothingWritten(ic: IntCodec, compress: bool, nodes: Nodes)
    ensures Walked(nodes, 0, [], 0) && Written(ic, compress, [], EmptyMask(), [], [])
    ensures EmptyMask() == MaskFor(Slots(nodes[0..0]))
  {
  }

  /** The mask of the nodes of the chunk being walked. */
  lemma SlotMaskGrows(nodes: Nodes, start: nat, i: nat)
    requires start <= i < |nodes|
    ensures MaskFor(Slots(nodes[start..i + 1])) == Including(MaskFor(Slots(nodes[start..i])), Slot(nodes[i].id))
    ensures MaskFor(Slots(nodes[i..i + 1])) == Including(EmptyMask(), Slot(nodes[i].id))
  {
    hide Slot;
    hide Including;
    var now, before := Slots(nodes[start..i + 1]), Slots(nodes[start..i]);
    assert now[..|now| - 1] == before;
    var one := Slots(nodes[i..i + 1]);
    assert one[..0] == [] && one[0] == Slot(nodes[i].id);
  }

  lemma NextOffset(ic: IntCodec, compress: bool, nodes: Nodes, g: nat, i: nat, done: seq<Nodes>, start: nat,
                   chunkMask: Mask, offsets: seq<nat>, area: seq<octet>)
    requires GroupList(nodes, g) && 0 < i <= |nodes| && Walked(nodes, i, done, start)
    requires Written(ic, compress, done, chunkMask, offsets, area)
    ensures |area| % CHUNK_ALIGNMENT == 0 && |area| / CHUNK_ALIGNMENT <= 65535
  {
    hide *;
    LastNumber(nodes, g, i, done, start);
    DoneIsSmall(nodes, g, i, done, start);
    AreaSize(ic, compress, done);
    AreaIs(ic, compress, done, chunkMask, offsets, area);
  }

  lemma DoneIsSmall(nodes: Nodes, g: nat, i: nat, done: seq<Nodes>, start: nat)
    requires GroupList(nodes, g) && 0 < i <= |nodes| && Walked(nodes, i, done, start)
    ensures NonEmpty(done) && SmallChunks(done)
  {
    hide Split;
    hide GroupList;
    hide GoodChunks;
    var front := nodes[..i];
    PrefixIsGroup(nodes, g, i);
    SplitIsGood(front, g);
    GoodAreSmall(Split(front), g);
    forall c | 0 <= c < |done| ensures done[c] != [] && |done[c]| <= 256 {
      assert done[c] == Split(front)[c];
    }
  }

  lemma AreaIs(ic: IntCodec, compress: bool, done: seq<Nodes>, chunkMask: Mask, offsets: seq<nat>, area: seq<octet>)
    requires Written(ic, compress, done, chunkMask, offsets, area)
    requires |Area(ic, compress, done)| % CHUNK_ALIGNMENT == 0 && |Area(ic, compress, done)| <= 2096 * |done| && |done| < 256
    ensures |area| % CHUNK_ALIGNMENT == 0 && |area| / CHUNK_ALIGNMENT <= 65535
  {
    hide Area;
  }

  lemma AllWritten(ic: IntCodec, compress: bool, nodes: Nodes, chunkMask: Mask, offsets: seq<nat>, area: seq<octet>)
    requires Written(ic, compress, Split(nodes), chunkMask, offsets, area)
    ensures GroupInfo(chunkMask, offsets, area) == Layout(ic, compress, Split(nodes))
  {
  }

  /** publishGroup's second walk: the chunks, their masks and their offsets. None of
      its exceptions can occur. */
  method WriteChunks(ic: IntCodec, compress: bool, nodes: Nodes, ghost g: nat,
                     latpSizes: seq<nat>, lonSizes: seq<nat>, counts: seq<nat>) returns (r: Published)
    requires GoodIntCodec(ic) && GroupList(nodes, g) && nodes != []
    requires Measured(ic, compress, Split(nodes), latpSizes, lonSizes, counts)
    ensures r == Ok(Layout(ic, compress, Split(nodes)))
  {
    hide *;
    var chunkMask, nodeMask := EmptyMask(), EmptyMask();
    var offsets: seq<nat>, area: seq<octet> := [], [];
    var lastChunk: int := -1;
    var start: nat, current: nat := 0, 0;
    ghost var done: seq<Nodes> := [];
    NothingWritten(ic, compress, nodes);
    MeasuredLengths(ic, compress, Split(nodes), latpSizes, lonSizes, counts);
    for i := 0 to |nodes| + 1
      invariant i <= |nodes| ==>
        Walked(nodes, i, done, start) && current == |done| &&
        lastChunk == if i == 0 then -1 else ChunkOf(nodes[i - 1].id)
      invariant i == |nodes| + 1 ==> done == Split(nodes)
      invariant Written(ic, compress, done, chunkMask, offsets, area)
      invariant i == 0 ==> start == 0 && done == []
      invariant i > 0 ==> start < i
      invariant start <= |nodes|
      invariant i <= |nodes| ==> nodeMask == MaskFor(Slots(nodes[start..i]))
    {
      var currentChunk: int := -1;
      if i != |nodes| {
        currentChunk := ChunkOf(nodes[i].id);
        WalkOn(nodes, g, i, done, start);
        SlotMaskGrows(nodes, start, i);
      } else {
        WalkedAll(nodes, done, start);
      }
      if currentChunk != lastChunk {
        if lastChunk != -1 {
          LastNumber(nodes, g, i, done, start);
          NextOffset(ic, compress, nodes, g, i, done, start, chunkMask, offsets, area);
          var chunk := nodes[start..i];
          MeasuredAt(ic, compress, nodes, i, done, start, latpSizes, lonSizes, counts, g);
          var rawOffset := |area|;
          var scaledOffset := rawOffset / 16;
          if rawOffset % 16 != 0 {
            return Thrown(InvalidScaledOffset);
          }
          if scaledOffset > 65535 {
            return Thrown(ScaledOffsetTooBig);
          }
          offsets := offsets + [scaledOffset];
          var bytes, ok := WriteChunk(ic, compress, chunk, nodeMask, latpSizes[current], lonSizes[current]);
          if !ok {
            return Thrown(UnexpectedSize);
          }
          WrittenOne(ic, compress, done, chunkMask, offsets[..|offsets| - 1], area, chunk);
          area := area + Padded(bytes);
          chunkMask := Including(chunkMask, lastChunk);
          nodeMask := EmptyMask();
          done := done + [chunk];
          current := current + 1;
        }
        lastChunk := currentChunk;
        start := i;
      }
      if i != |nodes| {
        nodeMask := Including(nodeMask, Slot(nodes[i].id));
      }
    }
    AllWritten(ic, compress, nodes, chunkMask, offsets, area);
    r := Ok(GroupInfo(chunkMask, offsets, area));
  }

  lemma MeasuredLengths(ic: IntCodec, compress: bool, cs: seq<Nodes>, latps: seq<nat>, lons: seq<nat>, counts: seq<nat>)
    requires Measured(ic, compress, cs, latps, lons, counts)
    ensures |latps| == |lons| == |counts| == 256
    ensures CHUNK_ALIGNMENT == 16
  {
  }

  /** The second walk is at the chunk whose sizes stand at its index. */
  lemma MeasuredAt(ic: IntCodec, compress: bool, nodes: Nodes, i: nat, done: seq<Nodes>, start: nat,
                   latps: seq<nat>, lons: seq<nat>, counts: seq<nat>, g: nat)
    requires Measured(ic, compress, Split(nodes), latps, lons, counts)
    requires GroupList(nodes, g) && 0 < i <= |nodes| && Walked(nodes, i, done, start)
    requires i == |nodes| || ChunkOf(nodes[i].id) != ChunkOf(nodes[i - 1].id)
    ensures |done| < 256
    ensures latps[|done|] == LatpSize(ic, compress, nodes[start..i]) && lons[|done|] == LonSize(ic, compress, nodes[start..i])
  {
    hide LatpSize;
    hide LonSize;
    hide ChunkOf;
    hide Split;
    if i == |nodes| {
      WalkedAll(nodes, done, start);
      assert Split(nodes)[|done|] == nodes[start..i];
    } else {
      ChunkStands(nodes, g, i, done, start);
    }
  }

  /** A finished chunk stays as it is however the list goes on. */
  lemma ChunkStands(nodes: Nodes, g: nat, i: nat, done: seq<Nodes>, start: nat)
    requires GroupList(nodes, g) && 0 < i < |nodes| && Walked(nodes, i, done, start)
    requires ChunkOf(nodes[i].id) != ChunkOf(nodes[i - 1].id)
    ensures |done| < |Split(nodes)| && Split(nodes)[|done|] == nodes[start..i]
  {
    hide ChunkOf;
    hide Grown;
    WalkOn(nodes, g, i, done, start);
    var cs := done + [nodes[start..i]];
    assert Split(nodes[..i + 1]) == cs + [nodes[i..i + 1]];
    SplitExtends(nodes, i + 1, cs);
    assert nodes[..|nodes|] == nodes;
  }

  lemma {:induction false} SplitExtends(nodes: Nodes, i: nat, cs: seq<Nodes>)
    requires 0 < i <= |nodes| && cs < Split(nodes[..i])
    ensures cs < Split(nodes)
    decreases |nodes| - i
  {
    if i == |nodes| {
      assert nodes[..i] == nodes;
    } else {
      SplitUnfold(nodes, i);
      GrownExtends(Split(nodes[..i]), nodes[i], cs);
      SplitExtends(nodes, i + 1, cs);
    }
  }

  lemma GrownExtends(all: seq<Nodes>, e: Element<LatpLon>, cs: seq<Nodes>)
    requires cs < all
    ensures cs < Grown(all, e)
  {
    hide ChunkOf;
    hide ChunkNumber;
  }
}
