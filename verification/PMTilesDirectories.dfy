/** Building the directories of an archive from its tile index. */
module PMTilesDirectories {
  import opened Varint
  import opened Directory
  import opened DirectoryIndex
  import opened Archive
  import opened PMTilesProtocol

  /** How the run list is cut up: low-zoom runs, and the leaves with their pointers. */
  datatype Plan = Plan(low: seq<Entry>, pointers: seq<Entry>, leaves: seq<seq<Entry>>)

  ghost function Flat(p: Plan, entries: seq<Entry>): seq<Entry> {
    p.low + Flatten(p.leaves) + entries
  }

  /** Low zooms are in the root, the others in leaves. */
  ghost predicate Sides(p: Plan, entries: seq<Entry>) {
    && (forall e :: e in p.low ==> e.tileId < FIRST_LEAF_TILE)
    && (forall e :: e in Flatten(p.leaves) || e in entries ==> FIRST_LEAF_TILE <= e.tileId)
  }

  /** While tiles are entered, a leaf directory is written as soon as it is full. */
  ghost predicate LeavesFull(leaves: seq<seq<Entry>>) {
    forall k :: 0 <= k < |leaves| ==> |leaves[k]| == 10_000_000
  }

  /** The last one takes what is left in the end. */
  ghost predicate LeavesCut(leaves: seq<seq<Entry>>) {
    forall k :: 0 <= k < |leaves| ==> 0 < |leaves[k]| <= 10_000_000 && (k + 1 < |leaves| ==> |leaves[k]| == 10_000_000)
  }

  lemma FullAreCut(leaves: seq<seq<Entry>>, last: seq<Entry>)
    requires LeavesFull(leaves) && |last| <= LEAF_DIRECTORY_SIZE
    ensures LeavesCut(if last == [] then leaves else leaves + [last])
    ensures |last| == LEAF_DIRECTORY_SIZE ==> LeavesFull(leaves + [last])
    ensures LeavesFull([])
  {
  }

  ghost predicate AllStored(c: Codec, file: seq<byte>, leafStart: nat, pointers: seq<Entry>, leaves: seq<seq<Entry>>)
    requires |pointers| == |leaves|
  {
    forall i :: 0 <= i < |leaves| ==>
      pointers[i].offset < 0x4000_0000_0000_0000 && Stored(c, file, leafStart + pointers[i].offset, pointers[i].length, leaves[i])
  }

  ghost predicate LeavesStored(c: Codec, file: seq<byte>, leafStart: nat, p: Plan) {
    && PointAt(p.pointers, p.leaves)
    && AllStored(c, file, leafStart, p.pointers, p.leaves)
    && leafStart <= |file| <= leafStart + 2000 * |Flatten(p.leaves)|
  }

  ghost predicate Counted(p: Plan, entries: seq<Entry>, numTileEntries: nat) {
    && numTileEntries == |Flat(p, entries)|
    && (p.leaves != [] ==> ROOT_ONLY <= numTileEntries)
  }

  /** The tiles of done have been entered into the directories. */
  ghost predicate Building(c: Codec, file: seq<byte>, leafStart: nat, p: Plan, root: seq<Entry>, entries: seq<Entry>,
                           numTileEntries: nat, done: map<nat, TileOffset>)
  {
    && root == p.low + p.pointers
    && LeavesStored(c, file, leafStart, p)
    && Runs(Flat(p, entries), done)
    && Sides(p, entries)
    && Counted(p, entries, numTileEntries)
  }

  /** What close needs of the tiles themselves: no 2^32 consecutive ids of the leaf
      directories share an offset, and directories of so many entries stay within
      64-bit file offsets. */
  ghost predicate Closable(m: map<nat, TileOffset>) {
    && (forall first: nat :: 1365 <= first ==> !LongRun(m, first))
    && |m| < 0x4_0000_0000_0000
  }

  /** What a tile index promises about its entries. */
  ghost predicate GoodIndex(m: map<nat, TileOffset>) {
    && (forall id :: id in m ==> id < TWO_64 && m[id].offset < TWO_40 && 0 < m[id].length < NO_LENGTH)
    && (forall a, b :: a in m && b in m && m[a].offset == m[b].offset ==> m[a].length == m[b].length)
    && Closable(m)
  }

  ghost predicate PartOf(done: map<nat, TileOffset>, m: map<nat, TileOffset>) {
    forall id :: id in done ==> id in m && done[id] == m[id]
  }

  lemma PartIsSmaller(done: map<nat, TileOffset>, m: map<nat, TileOffset>)
    requires PartOf(done, m)
    ensures |done| <= |m|
  {
    assert done.Keys <= m.Keys;
    SubsetSize(done.Keys, m.Keys);
  }

  lemma {:induction false} SubsetSize(a: set<nat>, b: set<nat>)
    requires a <= b
    ensures |a| <= |b|
  {
    if a != {} {
      var x :| x in a;
      SubsetSize(a - {x}, b - {x});
    }
  }

  lemma {:induction false} EncodeAllLength(vs: seq<uint64>)
    ensures |EncodeAll(vs)| <= 10 * |vs|
  {
    if vs != [] {
      EncodeAllLength(vs[1..]);
      Encoding64(vs[0]);
    }
  }

  /** A leaf directory is far below 4 GB, and all of them together stay below 64-bit offsets. */
  lemma LeafSize(c: Codec, es: seq<Entry>)
    requires GoodCodec(c) && 0 < |es| <= LEAF_DIRECTORY_SIZE
    ensures 0 < |c.compress(Serialized(es))| <= 2000 * |es|
    ensures |c.compress(Serialized(es))| < 0x1_0000_0000 && |es| < TWO_64
  {
    SerializedLength(es);
  }

  lemma SerializedLength(es: seq<Entry>)
    requires |es| < TWO_64
    ensures |Serialized(es)| <= 40 * |es| + 10
  {
    hide EncodeAll;
    hide Encoding;
    Encoding64(|es|);
    EncodeAllLength(IdDeltas(es));
    EncodeAllLength(RunLengths(es));
    EncodeAllLength(Lengths(es));
    EncodeAllLength(OffsetCodes(es));
  }

  lemma ListPrints(es: seq<Entry>)
    requires Sorted(es) && forall e :: e in es ==> e.offset < 0x4000_0000_0000_0000
    ensures IdsAscend(es) && OffsetsOk(es)
  {
    forall i | 0 <= i < |es| ensures OffsetOk(es, i) {
      assert es[i] in es;
      if i > 0 {
        assert es[i - 1] in es;
      }
    }
  }

  lemma RunOffsetsSmall(es: seq<Entry>, m: map<nat, TileOffset>, index: map<nat, TileOffset>)
    requires Runs(es, m) && PartOf(m, index) && GoodIndex(index)
    ensures forall e :: e in es ==> e.offset < TWO_40 && 0 < e.length
  {
    forall e | e in es ensures e.offset < TWO_40 && 0 < e.length {
      var i :| 0 <= i < |es| && es[i] == e;
      RunIsInMap(es, m, i);
    }
  }

  lemma TileFitsLow(c: Codec, file: seq<byte>, leafStart: nat, p: Plan, root: seq<Entry>, entries: seq<Entry>,
                    n: nat, done: map<nat, TileOffset>, m: map<nat, TileOffset>, e: Entry)
    requires Building(c, file, leafStart, p, root, entries, n, done)
    requires NextTile(done, m, e) && e.tileId < FIRST_LEAF_TILE
    ensures p.leaves == [] && p.pointers == [] && entries == [] && root == p.low
    ensures Building(c, file, leafStart, p.(low := WithTile(root, e)), WithTile(root, e), entries,
              n + |WithTile(root, e)| - |root|, done[e.tileId as nat := TileOffset(e.offset, e.length)])
  {
    var flat := Flat(p, entries);
    NoneAbove(flat, done, e.tileId);
    if p.leaves != [] || entries != [] {
      HighEntry(p, entries);
    }
    assert flat == [] + root;
    LowRunsAreShort(done[e.tileId as nat := TileOffset(e.offset, e.length)]);
    WithTileKeepsRuns([], root, done, e);
    var p' := p.(low := WithTile(root, e));
    assert Flat(p', entries) == [] + WithTile(root, e);
    LowStaysLow(root, e, FIRST_LEAF_TILE);
  }

  lemma LowRunsAreShort(m: map<nat, TileOffset>)
    requires AllBelow(m, FIRST_LEAF_TILE)
    ensures forall first: nat :: !LongRun(m, first)
  {
    forall first: nat ensures !LongRun(m, first) {
      assert first + 0xFFFF_FFFF !in m;
    }
  }

  lemma PartRunsAreShort(done: map<nat, TileOffset>, m: map<nat, TileOffset>)
    requires PartOf(done, m) && Closable(m)
    ensures forall first: nat :: FIRST_LEAF_TILE <= first ==> !LongRun(done, first)
  {
    forall first: nat | LongRun(done, first) ensures LongRun(m, first) {
      assert first in done;
    }
  }

  lemma HighEntry(p: Plan, entries: seq<Entry>)
    requires PointAt(p.pointers, p.leaves) && Sides(p, entries)
    requires p.leaves != [] || entries != []
    ensures exists e :: e in Flat(p, entries) && FIRST_LEAF_TILE <= e.tileId
  {
    if entries != [] {
      assert entries[0] in Flat(p, entries);
    } else {
      var l := p.leaves[|p.leaves| - 1];
      assert l[0] in Flatten(p.leaves);
      assert l[0] in Flat(p, entries);
    }
  }

  /** e is the next tile to be entered, after those of done. */
  ghost predicate NextTile(done: map<nat, TileOffset>, m: map<nat, TileOffset>, e: Entry) {
    && AllBelow(done, e.tileId) && e.runLength == 1
    && PartOf(done, m) && GoodIndex(m)
    && e.tileId in m && m[e.tileId as nat] == TileOffset(e.offset, e.length)
    && |done| < |m|
  }

  lemma IsNextTile(done: map<nat, TileOffset>, m: map<nat, TileOffset>, id: nat)
    requires AllBelow(done, id) && PartOf(done, m) && GoodIndex(m) && |done| < |m| && id in m
    ensures id < 0x1_0000_0000_0000_0000 && m[id].offset < 0x1_0000_0000_0000_0000 && m[id].length < 0x1_0000_0000
    ensures NextTile(done, m, Entry(id, m[id].offset, m[id].length, 1))
    ensures m[id] == TileOffset(m[id].offset, m[id].length)
  {
  }

  lemma NoneAbove(es: seq<Entry>, done: map<nat, TileOffset>, id: nat)
    requires Runs(es, done) && AllBelow(done, id)
    ensures forall e :: e in es ==> e.tileId < id
  {
    forall e | e in es ensures e.tileId < id {
      var i :| 0 <= i < |es| && es[i] == e;
      assert es[i].tileId in done;
    }
  }

  lemma LowStaysLow(es: seq<Entry>, e: Entry, bound: nat)
    requires (forall x :: x in es ==> x.tileId < bound) && e.tileId < bound
    ensures forall x :: x in WithTile(es, e) ==> x.tileId < bound
  {
  }

  lemma HighStaysHigh(es: seq<Entry>, e: Entry, bound: nat)
    requires (forall x :: x in es ==> bound <= x.tileId) && bound <= e.tileId
    ensures forall x :: x in WithTile(es, e) ==> bound <= x.tileId
  {
  }

  lemma TileFitsHigh(c: Codec, file: seq<byte>, leafStart: nat, p: Plan, root: seq<Entry>, entries: seq<Entry>,
                     n: nat, done: map<nat, TileOffset>, m: map<nat, TileOffset>, e: Entry)
    requires Building(c, file, leafStart, p, root, entries, n, done)
    requires NextTile(done, m, e) && FIRST_LEAF_TILE <= e.tileId
    ensures Building(c, file, leafStart, p, root, WithTile(entries, e),
              n + |WithTile(entries, e)| - |entries|, done[e.tileId as nat := TileOffset(e.offset, e.length)])
  {
    hide Runs;
    hide LeavesStored;
    PartRunsAreShort(done[e.tileId as nat := TileOffset(e.offset, e.length)], m);
    WithTileKeepsRuns(p.low + Flatten(p.leaves), entries, done, e);
    HighStaysHigh(entries, e, FIRST_LEAF_TILE);
  }

  /** Writing the pending entries as a leaf, and a pointer to it into the root. */
  lemma FlushFits(c: Codec, file: seq<byte>, leafStart: nat, p: Plan, root: seq<Entry>, entries: seq<Entry>,
                  n: nat, done: map<nat, TileOffset>, m: map<nat, TileOffset>)
    requires GoodCodec(c) && Building(c, file, leafStart, p, root, entries, n, done)
    requires PartOf(done, m) && GoodIndex(m)
    requires 0 < |entries| <= LEAF_DIRECTORY_SIZE && ROOT_ONLY <= n
    ensures var bytes := c.compress(Serialized(entries));
            0 < |bytes| < 0x1_0000_0000 && |file| - leafStart < 0x4000_0000_0000_0000 && leafStart <= |file| &&
            var pointer := Entry(entries[0].tileId, |file| - leafStart, |bytes|, 0);
            Building(c, file + bytes, leafStart, Plan(p.low, p.pointers + [pointer], p.leaves + [entries]),
              root + [pointer], [], n, done)
  {
    hide *;
    BuildingParts(c, file, leafStart, p, root, entries, n, done);
    LeafSize(c, entries);
    var bytes := c.compress(Serialized(entries));
    RunListSize(Flat(p, entries), done, m);
    var pointer := Entry(entries[0].tileId, |file| - leafStart, |bytes|, 0);
    LeafPrints(p, entries, done, m);
    LeavesStoredAppend(c, file, leafStart, p, entries, pointer);
    BuildingFlushed(c, file + bytes, leafStart, p, root, entries, pointer, n, done);
  }

  lemma BuildingParts(c: Codec, file: seq<byte>, leafStart: nat, p: Plan, root: seq<Entry>, entries: seq<Entry>,
                      n: nat, done: map<nat, TileOffset>)
    requires Building(c, file, leafStart, p, root, entries, n, done)
    ensures LeavesStored(c, file, leafStart, p) && leafStart <= |file| <= leafStart + 2000 * |Flat(p, entries)|
    ensures PointAt(p.pointers, p.leaves)
    ensures |p.pointers| == |p.leaves|
    ensures forall i :: 0 <= i < |p.leaves| ==> p.pointers[i].offset < 0x4000_0000_0000_0000
    ensures root == p.low + p.pointers && Sides(p, entries) && Counted(p, entries, n)
    ensures Runs(Flat(p, entries), done)
    ensures n == |Flat(p, entries)|
  {
    hide Runs;
    hide Stored;
  }

  lemma BuildingFlushed(c: Codec, file: seq<byte>, leafStart: nat, p: Plan, root: seq<Entry>, entries: seq<Entry>,
                        pointer: Entry, n: nat, done: map<nat, TileOffset>)
    requires root == p.low + p.pointers && Runs(Flat(p, entries), done) && Sides(p, entries) && Counted(p, entries, n)
    requires ROOT_ONLY <= n
    requires var p' := Plan(p.low, p.pointers + [pointer], p.leaves + [entries]);
             LeavesStored(c, file, leafStart, p')
    ensures Building(c, file, leafStart, Plan(p.low, p.pointers + [pointer], p.leaves + [entries]), root + [pointer], [], n, done)
  {
    hide Runs;
    hide LeavesStored;
    var p' := Plan(p.low, p.pointers + [pointer], p.leaves + [entries]);
    FlattenAppend(p.leaves, entries);
    assert Flat(p', []) == Flat(p, entries);
    assert root + [pointer] == p'.low + p'.pointers;
  }

  /** Every run starts at a tile of its own. */
  lemma RunListSize(es: seq<Entry>, done: map<nat, TileOffset>, m: map<nat, TileOffset>)
    requires Runs(es, done) && PartOf(done, m) && GoodIndex(m)
    ensures |es| <= |done| < 0x4_0000_0000_0000
  {
    PartIsSmaller(done, m);
    NoMoreThanKeys(es, done.Keys);
  }

  lemma {:induction false} NoMoreThanKeys(es: seq<Entry>, keys: set<nat>)
    requires Sorted(es) && forall i :: 0 <= i < |es| ==> es[i].tileId in keys
    ensures |es| <= |keys|
  {
    if es != [] {
      var n := |es| - 1;
      NoMoreThanKeys(es[..n], keys - {es[n].tileId as nat});
    }
  }

  lemma LeafPrints(p: Plan, entries: seq<Entry>, done: map<nat, TileOffset>, m: map<nat, TileOffset>)
    requires Runs(Flat(p, entries), done) && PartOf(done, m) && GoodIndex(m)
    ensures IdsAscend(entries) && OffsetsOk(entries)
  {
    RunOffsetsSmall(Flat(p, entries), done, m);
    SortedParts(p.low + Flatten(p.leaves), entries);
    ListPrints(entries);
  }

  lemma StoredSurvives(c: Codec, file: seq<byte>, offset: nat, length: nat, es: seq<Entry>, bytes: seq<byte>)
    requires Stored(c, file, offset, length, es)
    ensures Stored(c, file + bytes, offset, length, es)
  {
    assert Slice(file + bytes, offset, length) == Slice(file, offset, length);
  }

  lemma LeavesStoredAppend(c: Codec, file: seq<byte>, leafStart: nat, p: Plan, entries: seq<Entry>, pointer: Entry)
    requires LeavesStored(c, file, leafStart, p) && entries != [] && |entries| < TWO_64
    requires IdsAscend(entries) && OffsetsOk(entries)
    requires var bytes := c.compress(Serialized(entries));
             0 < |bytes| <= 2000 * |entries| && |bytes| < 0x1_0000_0000 && |file| - leafStart < 0x4000_0000_0000_0000 &&
             pointer == Entry(entries[0].tileId, |file| - leafStart, |bytes|, 0)
    ensures LeavesStored(c, file + c.compress(Serialized(entries)), leafStart,
              Plan(p.low, p.pointers + [pointer], p.leaves + [entries]))
  {
    hide *;
    var bytes := c.compress(Serialized(entries));
    LeavesParts(c, file, leafStart, p);
    FlattenAppend(p.leaves, entries);
    PointAtAppend(p.pointers, p.leaves, entries, pointer);
    AllStoredAppend(c, file, leafStart, p.pointers, p.leaves, entries, pointer);
    LeavesFromParts(c, file + bytes, leafStart, Plan(p.low, p.pointers + [pointer], p.leaves + [entries]));
  }

  lemma LeavesParts(c: Codec, file: seq<byte>, leafStart: nat, p: Plan)
    requires LeavesStored(c, file, leafStart, p)
    ensures PointAt(p.pointers, p.leaves) && |p.pointers| == |p.leaves|
    ensures AllStored(c, file, leafStart, p.pointers, p.leaves)
    ensures leafStart <= |file| <= leafStart + 2000 * |Flatten(p.leaves)|
  {
    hide AllStored;
  }

  lemma LeavesFromParts(c: Codec, file: seq<byte>, leafStart: nat, p: Plan)
    requires PointAt(p.pointers, p.leaves) && |p.pointers| == |p.leaves|
    requires AllStored(c, file, leafStart, p.pointers, p.leaves)
    requires leafStart <= |file| <= leafStart + 2000 * |Flatten(p.leaves)|
    ensures LeavesStored(c, file, leafStart, p)
  {
    hide AllStored;
  }

  lemma PointAtAppend(pointers: seq<Entry>, leaves: seq<seq<Entry>>, l: seq<Entry>, pointer: Entry)
    requires PointAt(pointers, leaves) && l != []
    requires pointer.tileId == l[0].tileId && pointer.runLength == 0 && 0 < pointer.length
    ensures PointAt(pointers + [pointer], leaves + [l])
  {
  }

  lemma AllStoredAppend(c: Codec, file: seq<byte>, leafStart: nat, pointers: seq<Entry>, leaves: seq<seq<Entry>>,
                        l: seq<Entry>, pointer: Entry)
    requires |pointers| == |leaves| && AllStored(c, file, leafStart, pointers, leaves)
    requires |l| < TWO_64 && IdsAscend(l) && OffsetsOk(l)
    requires leafStart <= |file| && pointer.offset == |file| - leafStart < 0x4000_0000_0000_0000
    requires pointer.length == |c.compress(Serialized(l))|
    ensures AllStored(c, file + c.compress(Serialized(l)), leafStart, pointers + [pointer], leaves + [l])
  {
    hide Serialized;
    hide OffsetsOk;
    hide IdsAscend;
    var bytes := c.compress(Serialized(l));
    assert Slice(file + bytes, |file|, |bytes|) == bytes;
    forall i | 0 <= i < |leaves|
      ensures Stored(c, file + bytes, leafStart + pointers[i].offset, pointers[i].length, leaves[i])
    {
      StoredSurvives(c, file, leafStart + pointers[i].offset, pointers[i].length, leaves[i], bytes);
    }
  }

  /** Every tile has been entered and nothing is pending, or there are so few entries
      that all of them go into the root. */
  lemma Complete(c: Codec, file: seq<byte>, file': seq<byte>, h: Header, p: Plan, root: seq<Entry>, entries: seq<Entry>,
                 n: nat, m: map<nat, TileOffset>)
    requires Building(c, file, h.leafDirsOffset, p, root, entries, n, m) && GoodIndex(m)
    requires entries == [] || p.leaves == []
    ensures PrintsAsDirectory(root + entries)
    ensures ClosedFile(c, file, file', h, root + entries) ==>
      Holds(c, file', h, m, p.low + entries, p.pointers, p.leaves)
  {
    hide *;
    BuildingParts(c, file, h.leafDirsOffset, p, root, entries, n, m);
    RootPrints(p, entries, m);
    RootIsLowThenPointers(c, file, h.leafDirsOffset, p, entries);
    if ClosedFile(c, file, file', h, root + entries) {
      HoldsFromParts(c, file, file', h, p, entries, m);
    }
  }

  ghost predicate PrintsAsDirectory(es: seq<Entry>) {
    |es| < TWO_64 && IdsAscend(es) && OffsetsOk(es)
  }

  /** The file after the root directory has been put in its place: from the tile data
      on nothing has changed but what was appended. */
  ghost predicate ClosedFile(c: Codec, file: seq<byte>, file': seq<byte>, h: Header, root: seq<Entry>) {
    && HEADER_ROOT <= |file| <= |file'| && HEADER_ROOT <= h.leafDirsOffset
    && file'[HEADER_ROOT..|file|] == file[HEADER_ROOT..]
    && h.rootDirBytes == |c.compress(Serialized(root))| <= HEADER_ROOT - HEADER_SIZE
    && h.rootDirOffset == HEADER_SIZE
    && Slice(file', HEADER_SIZE, h.rootDirBytes) == c.compress(Serialized(root))
  }

  lemma RootIsLowThenPointers(c: Codec, file: seq<byte>, leafStart: nat, p: Plan, entries: seq<Entry>)
    requires LeavesStored(c, file, leafStart, p) && (entries == [] || p.leaves == [])
    ensures p.low + p.pointers + entries == (p.low + entries) + p.pointers
    ensures Flat(p, entries) == (p.low + entries) + Flatten(p.leaves)
  {
    if entries == [] {
      assert p.low + [] == p.low;
    } else {
      assert p.pointers == [] && Flatten(p.leaves) == [];
    }
  }

  lemma RootPrints(p: Plan, entries: seq<Entry>, m: map<nat, TileOffset>)
    requires Runs(Flat(p, entries), m) && GoodIndex(m)
    requires PointAt(p.pointers, p.leaves) && (entries == [] || p.leaves == [])
    requires forall i :: 0 <= i < |p.leaves| ==> p.pointers[i].offset < 0x4000_0000_0000_0000
    ensures PrintsAsDirectory(p.low + p.pointers + entries)
  {
    hide OffsetsOk;
    hide Agrees;
    var flat := Flat(p, entries);
    var low := p.low + entries;
    RunListSize(flat, m, m);
    RunOffsetsSmall(flat, m, m);
    if entries != [] {
      assert Flatten(p.leaves) == [];
      assert flat == low && p.low + p.pointers + entries == low;
      ListPrints(low);
    } else {
      assert flat == p.low + Flatten(p.leaves);
      assert p.low + p.pointers + entries == p.low + p.pointers;
      RootFinds(p.low, p.pointers, p.leaves, m, 0);
      LeavesAreFewer(p.leaves);
      ListPrints(p.low + p.pointers);
    }
  }

  lemma {:induction false} LeavesAreFewer(leaves: seq<seq<Entry>>)
    requires forall i :: 0 <= i < |leaves| ==> leaves[i] != []
    ensures |leaves| <= |Flatten(leaves)|
  {
    if leaves != [] {
      LeavesAreFewer(leaves[..|leaves| - 1]);
    }
  }

  lemma HoldsFromParts(c: Codec, file: seq<byte>, file': seq<byte>, h: Header, p: Plan, entries: seq<Entry>, m: map<nat, TileOffset>)
    requires LeavesStored(c, file, h.leafDirsOffset, p) && Runs(Flat(p, entries), m) && GoodIndex(m)
    requires ClosedFile(c, file, file', h, p.low + p.pointers + entries)
    requires PrintsAsDirectory(p.low + p.pointers + entries)
    requires p.low + p.pointers + entries == (p.low + entries) + p.pointers
    requires Flat(p, entries) == (p.low + entries) + Flatten(p.leaves)
    ensures Holds(c, file', h, m, p.low + entries, p.pointers, p.leaves)
  {
    hide Runs;
    hide Serialized;
    hide OffsetsOk;
    hide IdsAscend;
    hide Flatten;
    forall i | 0 <= i < |p.leaves|
      ensures Stored(c, file', h.leafDirsOffset + p.pointers[i].offset, p.pointers[i].length, p.leaves[i])
    {
      SliceSurvives(file, file', h.leafDirsOffset + p.pointers[i].offset, p.pointers[i].length);
    }
  }

  lemma SliceSurvives(file: seq<byte>, file': seq<byte>, offset: nat, length: nat)
    requires HEADER_ROOT <= offset && offset + length <= |file| <= |file'|
    requires file'[HEADER_ROOT..|file|] == file[HEADER_ROOT..]
    ensures Slice(file', offset, length) == Slice(file, offset, length)
  {
    forall k | offset <= k < offset + length ensures file'[k] == file[k] {
      assert file'[HEADER_ROOT..|file|][k - HEADER_ROOT] == file[HEADER_ROOT..][k - HEADER_ROOT];
    }
  }
}
