/** The archive writer itself: shared index and cache, an output stream, and the
    directories written when it is closed. */
module PMTiles {
  import opened Wrappers
  import opened Varint
  import opened Directory
  import opened DirectoryIndex
  import opened Archive
  import opened PMTilesProtocol
  import opened PMTilesDirectories
  import Hilbert

  const FILLER: TileOffset := TileOffset(0, NO_LENGTH)

  /** The dense index, read as a map. */
  ghost function DenseMap(dense: seq<TileOffset>): map<nat, TileOffset> {
    map id: nat | 0 <= id < |dense| && dense[id].length != NO_LENGTH :: dense[id]
  }

  class PMTiles {
    const codec: Codec
    const isSparse: bool
    var outputStream: seq<byte>
    var sparseIndex: map<nat, TileOffset>
    var denseIndex: seq<TileOffset>
    var tinyCache: map<seq<byte>, TileOffset>
    var numTilesWritten: nat
    var numTilesAddressed: nat
    var numTileEntries: nat
    var leafStart: nat
    var header: Header
    // Threads inside saveTile, and what was written where and last stored for a tile.
    ghost var threads: map<nat, Phase>
    ghost var latest: map<nat, seq<byte>>
    ghost var regions: map<nat, seq<byte>>

    ghost function Index(): map<nat, TileOffset>
      reads this
    {
      if isSparse then sparseIndex else DenseMap(denseIndex)
    }

    ghost function View(): State
      reads this
    {
      State(outputStream, Index(), tinyCache, threads, latest, regions, numTilesWritten, numTilesAddressed)
    }

    ghost predicate Valid()
      reads this
    {
      GoodCodec(codec) && Invariant(codec, View())
    }

    /** open writes a placeholder for header and root directory. */
    constructor (codec: Codec, isSparse: bool)
      requires GoodCodec(codec)
      ensures Valid() && Initial(View()) && numTileEntries == 0
      ensures this.codec == codec && this.isSparse == isSparse
    {
      this.codec := codec;
      this.isSparse := isSparse;
      outputStream := seq(HEADER_ROOT, _ => 0);
      sparseIndex, denseIndex, tinyCache := map[], [], map[];
      numTilesWritten, numTilesAddressed, numTileEntries := 0, 0, 0;
      leafStart := 0;
      header := Header(0, 0, 0, 0);
      threads, latest, regions := map[], map[], map[];
      new;
      assert DenseMap([]) == map[];
      InitialIsGood(codec, View());
    }

    /** saveTile under indexLock1. */
    method LookUpTiny(ghost t: nat, ghost id: nat, data: seq<byte>) returns (hit: Option<TileOffset>)
      requires Valid() && t !in threads && id < TOP_ID
      modifies this`threads
      ensures Valid() && View() == Lookup(old(View()), t, id, data)
      ensures hit == if |data| < TINY_LENGTH && data in tinyCache then Some(tinyCache[data]) else None
    {
      hide Invariant;
      hide GoodCodec;
      LookupKeeps(codec, View(), t, id, data);
      if |data| < TINY_LENGTH && data in tinyCache {
        threads := threads[t := Storing(id, data, tinyCache[data], false)];
        return Some(tinyCache[data]);
      }
      threads := threads[t := Writing(id, data)];
      hit := None;
    }

    /** saveTile under fileMutex. */
    method WriteTile(ghost t: nat, compressed: seq<byte>) returns (offset: TileOffset)
      requires Valid() && t in threads && threads[t].Writing?
      requires compressed == codec.compress(threads[t].data) && Fits(codec, View(), threads[t].data)
      modifies this`outputStream, this`numTilesWritten, this`threads, this`regions
      ensures Valid() && View() == Write(codec, old(View()), t)
      ensures threads[t] == Storing(old(threads[t].id), old(threads[t].data), offset, true)
    {
      hide Invariant;
      hide GoodCodec;
      WriteShape(codec, View());
      WriteKeeps(codec, View(), t);
      ghost var phase := threads[t];
      ghost var at: nat := |outputStream| - HEADER_ROOT;
      offset := Packed(|outputStream| - HEADER_ROOT, |compressed|);
      outputStream := outputStream + compressed;
      numTilesWritten := numTilesWritten + 1;
      threads := threads[t := Storing(phase.id, phase.data, offset, true)];
      regions := regions[at := phase.data];
    }

    /** saveTile under indexLock2. */
    method StoreInIndex(ghost t: nat, tileId: nat, data: seq<byte>, offset: TileOffset, isNew: bool)
      requires Valid() && t in threads && threads[t] == Storing(tileId, data, offset, isNew)
      modifies this`sparseIndex, this`denseIndex, this`tinyCache, this`numTilesAddressed, this`threads, this`latest
      ensures Valid() && View() == Store(old(View()), t)
    {
      hide Invariant;
      hide GoodCodec;
      hide DenseMap;
      hide CacheWith;
      StoreKeeps(codec, View(), t);
      NamedLength(codec, View(), t);
      numTilesAddressed := numTilesAddressed + 1;
      if isSparse {
        sparseIndex := sparseIndex[tileId := offset];
      } else {
        StoreDense(tileId, offset);
      }
      if isNew && |data| < TINY_LENGTH {
        CacheTiny(data, offset);
      }
      threads := threads - {t};
      latest := latest[tileId := data];
    }

    method CacheTiny(data: seq<byte>, offset: TileOffset)
      modifies this`tinyCache
      ensures tinyCache == CacheWith(old(tinyCache), data, offset)
    {
      if |tinyCache| > TINY_MAX_SIZE {
        tinyCache := map[];
      }
      if data !in tinyCache {
        tinyCache := tinyCache[data := offset];
      }
    }

    method StoreDense(tileId: nat, offset: TileOffset)
      requires offset.length != NO_LENGTH
      modifies this`denseIndex
      ensures DenseMap(denseIndex) == old(DenseMap(denseIndex))[tileId := offset]
    {
      hide DenseMap;
      ghost var before := denseIndex;
      if tileId >= |denseIndex| {
        denseIndex := denseIndex + seq(tileId + 10000 - |denseIndex|, _ => FILLER);
      }
      denseIndex := denseIndex[tileId := offset];
      DenseStores(before, denseIndex, tileId, offset);
    }

    predicate Cached(data: seq<byte>)
      reads this
    {
      |data| < TINY_LENGTH && data in tinyCache
    }

    /** One thread's saveTile with nobody in between. */
    method SaveTile(zoom: nat, x: nat, y: nat, data: seq<byte>, ghost t: nat) returns (r: Hilbert.TileIdResult)
      requires Valid() && t !in threads
      requires Hilbert.TileIdOf(zoom, x, y).Id? && !Cached(data) ==> Fits(codec, View(), data)
      modifies this
      ensures Valid() && threads == old(threads) && numTileEntries == old(numTileEntries)
      ensures r == Hilbert.TileIdOf(zoom, x, y)
      ensures !r.Id? ==> View() == old(View())
      ensures r.Id? ==>
        latest == old(latest)[r.id := data] &&
        r.id in Index() && Names(codec, regions, Index()[r.id], data) &&
        forall id :: id != r.id ==> (id in Index() <==> id in old(Index())) && (id in Index() ==> Index()[id] == old(Index())[id])
      // A tiny tile that is remembered is not written again; any other is, once.
      ensures r.Id? ==>
        if |data| < 100 && data in old(tinyCache) then outputStream == old(outputStream) && numTilesWritten == old(numTilesWritten)
        else outputStream == old(outputStream) + codec.compress(data) && numTilesWritten == old(numTilesWritten) + 1
      ensures r.Id? ==> Remembers(old(tinyCache), tinyCache, data)
    {
      hide Invariant;
      hide GoodCodec;
      hide DenseMap;
      hide Names;
      hide CacheWith;
      hide Remembers, Hilbert.TileIdOf, Packed;
      r := Hilbert.ZxyToTileId(zoom, x, y);
      if !r.Id? {
        return;
      }
      var tileId := r.id;
      Hilbert.LevelInterval(zoom, x, y);
      var isNew := false;
      var offset;
      var hit := LookUpTiny(t, tileId, data);
      if hit.Some? {
        offset := hit.value;
        StillRemembers(tinyCache, data);
      } else {
        var compressed := codec.compress(data);
        offset := WriteTile(t, compressed);
        isNew := true;
        CacheRemembers(tinyCache, data, offset);
      }
      StoringIsNamed(codec, View(), t);
      StoreInIndex(t, tileId, data, offset, isNew);
    }

    // ----- Closing the archive -----

    /** Writes a leaf directory, and a reference to it into the root directory. */
    method FlushEntries(rootEntries: seq<Entry>, entries: seq<Entry>,
                        ghost p: Plan, ghost done: map<nat, TileOffset>, ghost m: map<nat, TileOffset>)
      returns (root: seq<Entry>, ghost p': Plan)
      requires GoodCodec(codec) && Building(codec, outputStream, leafStart, p, rootEntries, entries, numTileEntries, done)
      requires PartOf(done, m) && GoodIndex(m)
      requires |entries| <= LEAF_DIRECTORY_SIZE && ROOT_ONLY <= numTileEntries
      modifies this`outputStream
      ensures Building(codec, outputStream, leafStart, p', root, [], numTileEntries, done)
      ensures p'.leaves == if entries == [] then p.leaves else p.leaves + [entries]
      ensures old(outputStream) <= outputStream
    {
      hide GoodCodec;
      hide Building;
      hide PartOf;
      hide GoodIndex;
      hide Serialized;
      root, p' := rootEntries, p;
      if |entries| == 0 {
        return;
      }
      FlushFits(codec, outputStream, leafStart, p, rootEntries, entries, numTileEntries, done, m);
      var startId := entries[0].tileId;
      var directory := SerializeDirectory(entries);
      var compressed := codec.compress(directory);
      var location := |outputStream|;
      var length := |compressed|;
      outputStream := outputStream + compressed;
      var rootEntry := Entry(startId, location - leafStart, length, 0);
      root := rootEntries + [rootEntry];
      p' := Plan(p.low, p.pointers + [rootEntry], p.leaves + [entries]);
    }

    /** Adds an entry to the current leaf directory or, for low zooms, to the root. */
    method AppendTileEntry(tileId: nat, offset: TileOffset, rootEntries: seq<Entry>, entries0: seq<Entry>,
                           ghost p: Plan, ghost done: map<nat, TileOffset>, ghost m: map<nat, TileOffset>)
      returns (root: seq<Entry>, entries: seq<Entry>, ghost p': Plan)
      requires GoodCodec(codec) && Building(codec, outputStream, leafStart, p, rootEntries, entries0, numTileEntries, done)
      requires |entries0| < LEAF_DIRECTORY_SIZE
      requires AllBelow(done, tileId) && PartOf(done, m) && GoodIndex(m) && |done| < |m|
      requires tileId in m && m[tileId] == offset && LeavesFull(p.leaves)
      modifies this`outputStream, this`numTileEntries
      ensures Building(codec, outputStream, leafStart, p', root, entries, numTileEntries, done[tileId := offset])
      ensures |entries| < LEAF_DIRECTORY_SIZE && LeavesFull(p'.leaves)
      ensures old(outputStream) <= outputStream
    {
      hide *;
      IsNextTile(done, m, tileId);
      NextIsPart(done, m, tileId);
      var entry := Entry(tileId, offset.offset, offset.length, 1);
      root, entries, p' := rootEntries, entries0, p;
      if tileId < FIRST_LEAF_TILE {
        TileFitsLow(codec, outputStream, leafStart, p, rootEntries, entries0, numTileEntries, done, m, entry);
        root := AppendWithRLE(rootEntries, entry);
        numTileEntries := numTileEntries + (|root| - |rootEntries|);
        p' := p.(low := root);
      } else {
        TileFitsHigh(codec, outputStream, leafStart, p, rootEntries, entries0, numTileEntries, done, m, entry);
        entries := AppendWithRLE(entries0, entry);
        numTileEntries := numTileEntries + (|entries| - |entries0|);
        if |entries| >= LEAF_DIRECTORY_SIZE {
          EntriesCounted(codec, outputStream, leafStart, p, rootEntries, entries, numTileEntries, done[tileId := offset]);
          FullAreCut(p.leaves, entries);
          root, p' := FlushEntries(rootEntries, entries, p, done[tileId := offset], m);
          entries := [];
        }
      }
    }

    /** close's walk over the sparse index, an ordered map. */
    method EnterSparse(ghost m: map<nat, TileOffset>)
      returns (root: seq<Entry>, entries: seq<Entry>, ghost p: Plan)
      requires GoodCodec(codec) && GoodIndex(m) && m == sparseIndex
      requires leafStart == |outputStream| && numTileEntries == 0
      modifies this`outputStream, this`numTileEntries
      ensures Building(codec, outputStream, leafStart, p, root, entries, numTileEntries, m)
      ensures |entries| < LEAF_DIRECTORY_SIZE && LeavesFull(p.leaves) && old(outputStream) <= outputStream
    {
      hide *;
      root, entries, p := [], [], Plan([], [], []);
      NothingEntered(codec, outputStream);
      var remaining := sparseIndex.Keys;
      ghost var done: map<nat, TileOffset> := map[];
      AllRemain(m);
      while remaining != {}
        invariant remaining <= m.Keys && done == Entered(m, remaining)
        invariant Ahead(done, remaining)
        invariant Building(codec, outputStream, leafStart, p, root, entries, numTileEntries, done)
        invariant |entries| < LEAF_DIRECTORY_SIZE && LeavesFull(p.leaves) && old(outputStream) <= outputStream
        decreases |remaining|
      {
        LeastExists(remaining);
        var id :| id in remaining && forall k :: k in remaining ==> id <= k;
        EnteredNext(m, remaining, id);
        root, entries, p := AppendTileEntry(id, sparseIndex[id], root, entries, p, done, m);
        done := done[id := m[id]];
        remaining := remaining - {id};
      }
      NoneRemain(m);
    }

    /** close's walk over the dense index, skipping the slots without a tile. */
    method EnterDense(ghost m: map<nat, TileOffset>)
      returns (root: seq<Entry>, entries: seq<Entry>, ghost p: Plan)
      requires GoodCodec(codec) && GoodIndex(m) && m == DenseMap(denseIndex)
      requires leafStart == |outputStream| && numTileEntries == 0
      modifies this`outputStream, this`numTileEntries
      ensures Building(codec, outputStream, leafStart, p, root, entries, numTileEntries, m)
      ensures |entries| < LEAF_DIRECTORY_SIZE && LeavesFull(p.leaves) && old(outputStream) <= outputStream
    {
      hide *;
      root, entries, p := [], [], Plan([], [], []);
      NothingEntered(codec, outputStream);
      DenseEmpty();
      for tileId := 0 to |denseIndex|
        invariant Building(codec, outputStream, leafStart, p, root, entries, numTileEntries, DenseMap(denseIndex[..tileId]))
        invariant |entries| < LEAF_DIRECTORY_SIZE && LeavesFull(p.leaves) && old(outputStream) <= outputStream
      {
        DenseNext(denseIndex, tileId);
        if denseIndex[tileId].length != NO_LENGTH {
          root, entries, p := AppendTileEntry(tileId, denseIndex[tileId], root, entries, p, DenseMap(denseIndex[..tileId]), m);
        }
      }
      assert denseIndex[..|denseIndex|] == denseIndex;
    }

    /** The end of close: metadata, the root directory in its reserved place, header. */
    method WriteFooter(metadata: seq<byte>, rootEntries: seq<Entry>) returns (r: CloseResult)
      requires HEADER_ROOT <= leafStart && HEADER_ROOT <= |outputStream| && |rootEntries| < TWO_64
      modifies this`outputStream, this`header
      ensures r.Closed? ==>
        ClosedFile(codec, old(outputStream), outputStream, header, rootEntries) &&
        header == Header(127, |codec.compress(Serialized(rootEntries))|, leafStart, 16384) && header.rootDirBytes <= 16257
      ensures r.RootTooLarge? ==> 16257 < r.bytes == |codec.compress(Serialized(rootEntries))|
    {
      hide Serialized;
      var compressed := codec.compress(metadata);
      outputStream := outputStream + compressed;
      var directory := SerializeDirectory(rootEntries);
      compressed := codec.compress(directory);
      var rootLength := |compressed|;
      if rootLength > HEADER_ROOT - HEADER_SIZE {
        return RootTooLarge(rootLength);
      }
      outputStream := outputStream[..HEADER_SIZE] + compressed + outputStream[HEADER_SIZE + rootLength..];
      header := Header(HEADER_SIZE, rootLength, leafStart, HEADER_ROOT);
      r := Closed;
    }

    /** Finishes the file. */
    method Close(metadata: seq<byte>) returns (r: CloseResult)
      requires Valid() && threads == map[] && numTileEntries == 0 && Closable(Index())
      modifies this`outputStream, this`numTileEntries, this`leafStart, this`header
      // Every tile is read back from where it was stored, and no other tile is found.
      ensures r.Closed? ==> forall z: nat, x: nat, y: nat ::
        Got(codec, outputStream, header, z, x, y) == TileAnswer(old(Index()), z, x, y)
      // The directories are in the order the reader relies on.
      ensures r.Closed? ==> forall id: nat ::
        SortedAlong(codec, outputStream, header, header.rootDirOffset, header.rootDirBytes, id, 4)
      // What is there is the compression of the data saved last for the tile.
      ensures r.Closed? ==> TilesAreThere(codec, outputStream, old(Index()), latest)
      // There is a root directory for the saved tiles, before the tile data.
      ensures r.Closed? ==> exists root: seq<Entry> ::
        IsRootOf(old(Index()), root) && RootStands(codec, outputStream, header, root)
      // It gives up only when such a root directory does not fit there.
      ensures r.RootTooLarge? ==> exists root: seq<Entry> ::
        IsRootOf(old(Index()), root) && r.bytes == |codec.compress(Serialized(root))| > 16257
    {
      hide *;
      ghost var m := Index();
      ghost var s := View();
      ValidParts();
      IndexIsGood(codec, s);
      leafStart := |outputStream|;
      var rootEntries: seq<Entry>, entries: seq<Entry> := [], [];
      ghost var p := Plan([], [], []);
      if isSparse {
        rootEntries, entries, p := EnterSparse(m);
      } else {
        rootEntries, entries, p := EnterDense(m);
      }
      FullAreCut(p.leaves, entries);
      FullAreCut(p.leaves, []);
      if numTileEntries < ROOT_ONLY {
        FewEntries(codec, outputStream, leafStart, p, rootEntries, entries, numTileEntries, m);
      } else {
        WholeIsPart(m);
        rootEntries, p := FlushEntries(rootEntries, entries, p, m, m);
        entries := [];
      }
      ghost var file := outputStream;
      RootIsPrintable(codec, file, leafStart, p, rootEntries, entries, numTileEntries, m);
      RootIsFor(codec, file, leafStart, p, rootEntries, entries, numTileEntries, m);
      r := WriteFooter(metadata, rootEntries + entries);
      if r.Closed? {
        ReadBack(codec, s, file, outputStream, header, p, rootEntries, entries, numTileEntries, m);
        RootStandsThere(codec, file, outputStream, header, rootEntries + entries);
      }
    }

    lemma ValidParts()
      requires Valid()
      ensures GoodCodec(codec) && Invariant(codec, View()) && HEADER_ROOT <= |outputStream|
      ensures View().index == Index() && View().latest == latest && View().file == outputStream
      ensures Index() == if isSparse then sparseIndex else DenseMap(denseIndex)
    {
    }
  }

  datatype CloseResult = Closed | RootTooLarge(bytes: nat)

  /** A root directory for the index. With fewer than 2,200 entries it has all of them;
      otherwise those of the zooms below 6, and a pointer for each leaf directory. */
  ghost predicate IsRootOf(index: map<nat, TileOffset>, root: seq<Entry>) {
    exists low: seq<Entry>, pointers: seq<Entry>, leaves: seq<seq<Entry>> :: IsRootFrom(index, root, low, pointers, leaves)
  }

  ghost predicate IsRootFrom(index: map<nat, TileOffset>, root: seq<Entry>,
                             low: seq<Entry>, pointers: seq<Entry>, leaves: seq<seq<Entry>>) {
    && root == low + pointers && PointAt(pointers, leaves) && Runs(low + Flatten(leaves), index)
    && LeavesCut(leaves) && (forall e :: e in Flatten(leaves) ==> 1365 <= e.tileId)
    && if |low + Flatten(leaves)| < 2200 then leaves == [] else forall e :: e in low ==> e.tileId < 1365
  }

  /** The root directory is where the header says, between header and tile data. */
  ghost predicate RootStands(c: Codec, file: seq<byte>, h: Header, root: seq<Entry>) {
    && h.rootDirOffset == 127 && h.tileDataOffset == 16384 && h.rootDirBytes <= 16257 && 127 + h.rootDirBytes <= |file|
    && h.rootDirBytes == |c.compress(Serialized(root))| && Slice(file, 127, h.rootDirBytes) == c.compress(Serialized(root))
  }

  lemma RootStandsThere(c: Codec, file: seq<byte>, file': seq<byte>, h: Header, root: seq<Entry>)
    requires ClosedFile(c, file, file', h, root) && h.tileDataOffset == 16384
    ensures RootStands(c, file', h, root)
  {
    hide Serialized, Slice;
  }

  /** What reading (z, x, y) should answer, given the tile index. */
  ghost function TileAnswer(index: map<nat, TileOffset>, z: nat, x: nat, y: nat): Answer {
    match Hilbert.TileIdOf(z, x, y)
    case Id(id) => if id in index then Region(16384 + index[id].offset, index[id].length) else NO_TILE
    case _ => BadTile
  }

  ghost predicate TilesAreThere(c: Codec, file: seq<byte>, index: map<nat, TileOffset>, latest: map<nat, seq<byte>>) {
    forall id :: id in index ==>
      && id in latest
      && 16384 + index[id].offset + index[id].length <= |file|
      && Slice(file, 16384 + index[id].offset, index[id].length) == c.compress(latest[id])
  }

  lemma WholeIsPart(m: map<nat, TileOffset>)
    ensures PartOf(m, m)
  {
  }

  lemma NextIsPart(done: map<nat, TileOffset>, m: map<nat, TileOffset>, id: nat)
    requires PartOf(done, m) && id in m
    ensures PartOf(done[id := m[id]], m)
    ensures ROOT_ONLY <= LEAF_DIRECTORY_SIZE && 0 < LEAF_DIRECTORY_SIZE
  {
  }

  lemma EntriesCounted(c: Codec, file: seq<byte>, leafStart: nat, p: Plan, root: seq<Entry>, entries: seq<Entry>,
                       n: nat, done: map<nat, TileOffset>)
    requires Building(c, file, leafStart, p, root, entries, n, done)
    ensures LEAF_DIRECTORY_SIZE <= |entries| ==> ROOT_ONLY <= n
  {
  }

  lemma FewEntries(c: Codec, file: seq<byte>, leafStart: nat, p: Plan, root: seq<Entry>, entries: seq<Entry>,
                   n: nat, done: map<nat, TileOffset>)
    requires Building(c, file, leafStart, p, root, entries, n, done) && n < ROOT_ONLY
    ensures p.leaves == []
  {
    hide Runs;
    hide LeavesStored;
  }

  lemma RootIsFor(c: Codec, file: seq<byte>, leafStart: nat, p: Plan, root: seq<Entry>, entries: seq<Entry>,
                  n: nat, m: map<nat, TileOffset>)
    requires Building(c, file, leafStart, p, root, entries, n, m)
    requires LeavesCut(p.leaves) && if n < ROOT_ONLY then p.leaves == [] else entries == []
    ensures IsRootOf(m, root + entries)
  {
    hide *;
    BuildingParts(c, file, leafStart, p, root, entries, n, m);
    RootIsLowThenPointers(c, file, leafStart, p, entries);
    RootSides(p, entries, n);
    RootFrom(m, root + entries, p.low + entries, p.pointers, p.leaves, n);
    RootFromParts(m, root + entries, p.low + entries, p.pointers, p.leaves);
  }

  lemma RootFrom(index: map<nat, TileOffset>, root: seq<Entry>, low: seq<Entry>, pointers: seq<Entry>, leaves: seq<seq<Entry>>, n: nat)
    requires root == low + pointers && PointAt(pointers, leaves) && Runs(low + Flatten(leaves), index)
    requires LeavesCut(leaves) && (forall e :: e in Flatten(leaves) ==> 1365 <= e.tileId) && n == |low + Flatten(leaves)|
    requires if n < 2200 then leaves == [] else forall e :: e in low ==> e.tileId < 1365
    ensures IsRootFrom(index, root, low, pointers, leaves)
  {
    hide PointAt, Runs, Flatten, LeavesCut;
  }

  lemma RootSides(p: Plan, entries: seq<Entry>, n: nat)
    requires Sides(p, entries) && if n < ROOT_ONLY then p.leaves == [] else entries == []
    ensures forall e :: e in Flatten(p.leaves) ==> 1365 <= e.tileId
    ensures if n < 2200 then p.leaves == [] else forall e :: e in p.low + entries ==> e.tileId < 1365
  {
    hide Flatten;
  }

  lemma RootFromParts(index: map<nat, TileOffset>, root: seq<Entry>,
                      low: seq<Entry>, pointers: seq<Entry>, leaves: seq<seq<Entry>>)
    requires IsRootFrom(index, root, low, pointers, leaves)
    ensures IsRootOf(index, root)
  {
    hide IsRootFrom;
  }

  lemma RootIsPrintable(c: Codec, file: seq<byte>, leafStart: nat, p: Plan, root: seq<Entry>, entries: seq<Entry>,
                        n: nat, m: map<nat, TileOffset>)
    requires Building(c, file, leafStart, p, root, entries, n, m) && GoodIndex(m)
    requires entries == [] || p.leaves == []
    ensures |root + entries| < TWO_64
  {
    hide *;
    Complete(c, file, file, Header(0, 0, leafStart, 0), p, root, entries, n, m);
    Printable(root + entries);
  }

  lemma Printable(es: seq<Entry>)
    requires PrintsAsDirectory(es)
    ensures |es| < TWO_64
  {
  }

  lemma NothingEntered(c: Codec, file: seq<byte>)
    ensures Building(c, file, |file|, Plan([], [], []), [], [], 0, map[])
    ensures 0 < LEAF_DIRECTORY_SIZE && LeavesFull([])
  {
    assert Flat(Plan([], [], []), []) == [];
  }

  // ----- Walking the index in order -----

  ghost function Entered(m: map<nat, TileOffset>, remaining: set<nat>): map<nat, TileOffset> {
    map id | id in m && id !in remaining :: m[id]
  }

  ghost predicate Ahead(done: map<nat, TileOffset>, remaining: set<nat>) {
    forall a, b :: a in done && b in remaining ==> a < b
  }

  lemma AllRemain(m: map<nat, TileOffset>)
    ensures Entered(m, m.Keys) == map[] && Ahead(map[], m.Keys)
  {
  }

  lemma NoneRemain(m: map<nat, TileOffset>)
    ensures Entered(m, {}) == m
  {
  }

  lemma LeastExists(s: set<nat>)
    requires s != {}
    ensures exists x :: x in s && forall k :: k in s ==> x <= k
  {
    var x :| x in s;
    while exists k :: k in s && k < x
      invariant x in s
      decreases x
    {
      var k :| k in s && k < x;
      x := k;
    }
    assert x in s && forall k :: k in s ==> x <= k;
  }

  lemma EnteredNext(m: map<nat, TileOffset>, remaining: set<nat>, id: nat)
    requires remaining <= m.Keys && id in remaining && (forall k :: k in remaining ==> id <= k)
    requires Ahead(Entered(m, remaining), remaining)
    ensures id in m && AllBelow(Entered(m, remaining), id) && PartOf(Entered(m, remaining), m)
    ensures |Entered(m, remaining)| < |m|
    ensures Entered(m, remaining - {id}) == Entered(m, remaining)[id := m[id]]
    ensures Ahead(Entered(m, remaining)[id := m[id]], remaining - {id})
  {
    hide *;
    EnteredSmaller(m, remaining, id);
    EnteredWith(m, remaining, id);
    AheadNext(Entered(m, remaining), remaining, id, m[id]);
  }

  lemma AheadNext(done: map<nat, TileOffset>, remaining: set<nat>, id: nat, offset: TileOffset)
    requires Ahead(done, remaining) && id in remaining && forall k :: k in remaining ==> id <= k
    ensures AllBelow(done, id) && Ahead(done[id := offset], remaining - {id})
  {
  }

  lemma EnteredWith(m: map<nat, TileOffset>, remaining: set<nat>, id: nat)
    requires id in m && id in remaining
    ensures Entered(m, remaining - {id}) == Entered(m, remaining)[id := m[id]]
    ensures PartOf(Entered(m, remaining), m)
  {
  }

  lemma EnteredSmaller(m: map<nat, TileOffset>, remaining: set<nat>, id: nat)
    requires id in m && id in remaining
    ensures |Entered(m, remaining)| < |m|
  {
    var done := Entered(m, remaining);
    assert done.Keys <= m.Keys - {id};
    SubsetSize(done.Keys, m.Keys - {id});
  }

  lemma DenseEmpty()
    ensures forall d: seq<TileOffset> :: DenseMap(d[..0]) == map[]
  {
  }

  lemma DenseNext(dense: seq<TileOffset>, i: nat)
    requires i < |dense|
    ensures PartOf(DenseMap(dense[..i]), DenseMap(dense)) && AllBelow(DenseMap(dense[..i]), i)
    ensures if dense[i].length == NO_LENGTH then DenseMap(dense[..i + 1]) == DenseMap(dense[..i])
            else DenseMap(dense[..i + 1]) == DenseMap(dense[..i])[i := dense[i]] &&
                 i in DenseMap(dense) && DenseMap(dense)[i] == dense[i] && |DenseMap(dense[..i])| < |DenseMap(dense)|
  {
    hide *;
    DensePrefix(dense, i);
    DensePrefix(dense, i + 1);
    DenseGrows(dense, i);
    if dense[i].length != 0xFF_FFFF {
      PartIsSmaller(DenseMap(dense[..i + 1]), DenseMap(dense));
      MapGrows(DenseMap(dense[..i]), i, dense[i]);
    }
  }

  lemma DensePrefix(dense: seq<TileOffset>, i: nat)
    requires i <= |dense|
    ensures PartOf(DenseMap(dense[..i]), DenseMap(dense)) && AllBelow(DenseMap(dense[..i]), i)
  {
  }

  lemma DenseGrows(dense: seq<TileOffset>, i: nat)
    requires i < |dense|
    ensures NO_LENGTH == 0xFF_FFFF
    ensures if dense[i].length == NO_LENGTH then DenseMap(dense[..i + 1]) == DenseMap(dense[..i])
            else DenseMap(dense[..i + 1]) == DenseMap(dense[..i])[i := dense[i]] &&
                 i in DenseMap(dense) && DenseMap(dense)[i] == dense[i]
  {
  }

  // ----- What the invariant gives the reader -----

  lemma IndexIsGood(c: Codec, s: State)
    requires GoodCodec(c) && Invariant(c, s) && Closable(s.index)
    ensures GoodIndex(s.index)
  {
    forall id | id in s.index
      ensures id < TWO_64 && s.index[id].offset < TWO_40 && 0 < s.index[id].length < NO_LENGTH
    {
      assert Names(c, s.regions, s.index[id], s.latest[id]);
    }
    forall a, b | a in s.index && b in s.index && s.index[a].offset == s.index[b].offset
      ensures s.index[a].length == s.index[b].length
    {
      EqualOffsetsEqualLengths(c, s, a, b);
    }
  }

  lemma TilesStay(c: Codec, s: State, file: seq<byte>, file': seq<byte>, h: Header, root: seq<Entry>)
    requires Invariant(c, s) && s.file <= file && ClosedFile(c, file, file', h, root)
    ensures TilesAreThere(c, file', s.index, s.latest)
  {
    hide Invariant, ClosedFile;
    forall id | id in s.index
      ensures id in s.latest && HEADER_ROOT + s.index[id].offset + s.index[id].length <= |file'| &&
        Slice(file', HEADER_ROOT + s.index[id].offset, s.index[id].length) == c.compress(s.latest[id])
    {
      TileIsWritten(c, s, id);
      SliceStays(c, s.file, file, file', h, root, HEADER_ROOT + s.index[id].offset, s.index[id].length);
    }
  }

  lemma TileIsWritten(c: Codec, s: State, id: nat)
    requires Invariant(c, s) && id in s.index
    ensures id in s.latest && HEADER_ROOT + s.index[id].offset + s.index[id].length <= |s.file|
    ensures Slice(s.file, HEADER_ROOT + s.index[id].offset, s.index[id].length) == c.compress(s.latest[id])
  {
    hide RegionsApart, CacheNamed, ThreadsNamed, TileIdsOnly;
    assert Names(c, s.regions, s.index[id], s.latest[id]);
  }

  lemma SliceStays(c: Codec, before: seq<byte>, file: seq<byte>, file': seq<byte>, h: Header, root: seq<Entry>,
                   offset: nat, length: nat)
    requires before <= file && ClosedFile(c, file, file', h, root)
    requires HEADER_ROOT <= offset && offset + length <= |before|
    ensures offset + length <= |file'| && Slice(file', offset, length) == Slice(before, offset, length)
  {
    hide Serialized;
    assert Slice(file, offset, length) == Slice(before, offset, length);
    SliceSurvives(file, file', offset, length);
  }

  /** The finished file answers every question as the index would. */
  lemma ReadBack(c: Codec, s: State, file: seq<byte>, file': seq<byte>, h: Header, p: Plan,
                 root: seq<Entry>, entries: seq<Entry>, n: nat, m: map<nat, TileOffset>)
    requires GoodCodec(c) && Invariant(c, s) && m == s.index && GoodIndex(m) && s.file <= file
    requires Building(c, file, h.leafDirsOffset, p, root, entries, n, m)
    requires entries == [] || p.leaves == []
    requires ClosedFile(c, file, file', h, root + entries) && h.tileDataOffset == 16384
    ensures forall z: nat, x: nat, y: nat :: Got(c, file', h, z, x, y) == TileAnswer(m, z, x, y)
    ensures forall id: nat :: SortedAlong(c, file', h, h.rootDirOffset, h.rootDirBytes, id, 4)
    ensures TilesAreThere(c, file', s.index, s.latest)
  {
    hide *;
    TilesStay(c, s, file, file', h, root + entries);
    Complete(c, file, file', h, p, root, entries, n, m);
    forall id: nat
      ensures SortedAlong(c, file', h, h.rootDirOffset, h.rootDirBytes, id, 4)
    {
      HoldsReads(c, file', h, m, p.low + entries, p.pointers, p.leaves, id);
    }
    forall z: nat, x: nat, y: nat ensures Got(c, file', h, z, x, y) == TileAnswer(m, z, x, y) {
      GotAnswer(c, file', h, m, p.low + entries, p.pointers, p.leaves, z, x, y);
    }
  }

  lemma GotAnswer(c: Codec, file: seq<byte>, h: Header, m: map<nat, TileOffset>,
                  low: seq<Entry>, pointers: seq<Entry>, leaves: seq<seq<Entry>>, z: nat, x: nat, y: nat)
    requires GoodCodec(c) && Holds(c, file, h, m, low, pointers, leaves) && h.tileDataOffset == 16384
    ensures Got(c, file, h, z, x, y) == TileAnswer(m, z, x, y)
  {
    hide Followed;
    hide GoodCodec;
    hide Stored;
    hide Runs;
    hide PointAt;
    var t := Hilbert.TileIdOf(z, x, y);
    if t.Id? {
      HoldsReads(c, file, h, m, low, pointers, leaves, t.id);
    }
  }

  lemma InitialIsGood(c: Codec, s: State)
    requires Initial(s)
    ensures Invariant(c, s)
  {
  }

  lemma WriteShape(c: Codec, s: State)
    requires Invariant(c, s)
    ensures HEADER_ROOT <= |s.file|
  {
  }

  lemma StoringIsNamed(c: Codec, s: State, t: nat)
    requires Invariant(c, s) && t in s.threads && s.threads[t].Storing?
    ensures Names(c, s.regions, s.threads[t].offset, s.threads[t].data)
  {
  }

  lemma NamedLength(c: Codec, s: State, t: nat)
    requires Invariant(c, s) && t in s.threads && s.threads[t].Storing?
    ensures s.threads[t].offset.length < NO_LENGTH
  {
    assert Names(c, s.regions, s.threads[t].offset, s.threads[t].data);
  }

  lemma DenseStores(before: seq<TileOffset>, after: seq<TileOffset>, id: nat, offset: TileOffset)
    requires id < |after| && |before| <= |after| && after[id] == offset && offset.length != NO_LENGTH
    requires forall i :: 0 <= i < |after| && i != id ==> after[i] == if i < |before| then before[i] else FILLER
    ensures DenseMap(after) == DenseMap(before)[id := offset]
  {
  }
}
