/** Writing a PMTiles archive: saveTile, which runs as three separate critical
    sections on several threads at once, and close, which writes the directories. */
module PMTilesProtocol {
  import opened Wrappers
  import opened Varint
  import opened Directory
  import opened DirectoryIndex
  import opened Archive
  import Hilbert

  const LEAF_DIRECTORY_SIZE: nat := 10_000_000
  const FIRST_LEAF_TILE: nat := 1365
  const ROOT_ONLY: nat := 2200
  const TINY_LENGTH: nat := 100
  const TINY_MAX_SIZE: nat := 10_000
  const TWO_40: nat := 0x100_0000_0000
  const NO_LENGTH: nat := 0xFF_FFFF

  /** The two bit fields keep 40 bits of the offset and 24 of the length. */
  function Packed(offset: nat, length: nat): TileOffset {
    TileOffset(offset % TWO_40, length % 0x100_0000)
  }

  lemma PackedKeeps(offset: nat, length: nat)
    ensures Packed(offset, length) == TileOffset(offset, length) <==> offset < 0x100_0000_0000 && length < 0x100_0000
    ensures TWO_40 == 0x100_0000_0000 && NO_LENGTH == 0xFF_FFFF
  {
  }

  /** The root directory takes the tiles of the zooms below 6. */
  lemma LowZoomsFirst(z: nat, x: nat, y: nat)
    requires Hilbert.TileIdOf(z, x, y).Id?
    ensures Hilbert.TileIdOf(z, x, y).id < FIRST_LEAF_TILE <==> z < 6
  {
    Hilbert.TilesWithIds(z, x, y);
    Hilbert.IdOnLevel(z, x, y);
    Hilbert.LevelSix();
    hide *;
    if z < 6 {
      Hilbert.LevelStartMonotone(z + 1, 6);
    } else {
      Hilbert.LevelStartMonotone(6, z);
    }
    FirstLeaf();
  }

  lemma FirstLeaf()
    ensures FIRST_LEAF_TILE == 1365
  {
  }

  // ----- The protocol -----

  /** How far a thread is with its tile: it missed the cache and must write, or has a
      region to enter into the index. */
  datatype Phase =
    | Writing(id: nat, data: seq<byte>)
    | Storing(id: nat, data: seq<byte>, offset: TileOffset, isNew: bool)

  /** The shared state. latest and regions are not stored by the program: the data
      last stored for each tile, and what was written where. */
  datatype State = State(
    file: seq<byte>,
    index: map<nat, TileOffset>,
    tinyCache: map<seq<byte>, TileOffset>,
    threads: map<nat, Phase>,
    latest: map<nat, seq<byte>>,
    regions: map<nat, seq<byte>>,
    tilesWritten: nat,
    tilesAddressed: nat)

  /** First critical section: look the data up in the cache of tiny tiles. */
  function Lookup(s: State, t: nat, id: nat, data: seq<byte>): State {
    if |data| < TINY_LENGTH && data in s.tinyCache then
      s.(threads := s.threads[t := Storing(id, data, s.tinyCache[data], false)])
    else
      s.(threads := s.threads[t := Writing(id, data)])
  }

  /** Second: append the compressed tile to the file. */
  function Write(c: Codec, s: State, t: nat): State
    requires HEADER_ROOT <= |s.file| && t in s.threads && s.threads[t].Writing?
  {
    var Writing(id, data) := s.threads[t];
    var compressed := c.compress(data);
    var at := |s.file| - HEADER_ROOT;
    s.(file := s.file + compressed,
       threads := s.threads[t := Storing(id, data, Packed(at, |compressed|), true)],
       regions := s.regions[at := data],
       tilesWritten := s.tilesWritten + 1)
  }

  function CacheWith(cache: map<seq<byte>, TileOffset>, data: seq<byte>, offset: TileOffset): map<seq<byte>, TileOffset> {
    var kept := if |cache| > TINY_MAX_SIZE then map[] else cache;
    if data in kept then kept else kept[data := offset]
  }

  /** Tiny data, and no other, is in the cache after it was saved; and the cache keeps all
      it had, unless it had more than 10,000 entries, and never has more than 10,001. */
  ghost predicate Remembers(before: map<seq<byte>, TileOffset>, after: map<seq<byte>, TileOffset>, data: seq<byte>) {
    && (if |data| < 100 then data in after else after == before)
    && (|before| <= 10_000 ==> forall d :: d in before ==> d in after && after[d] == before[d])
    && (|before| <= 10_001 ==> |after| <= 10_001)
  }

  lemma CacheRemembers(cache: map<seq<byte>, TileOffset>, data: seq<byte>, offset: TileOffset)
    ensures Remembers(cache, if |data| < TINY_LENGTH then CacheWith(cache, data, offset) else cache, data)
  {
    if |cache| <= 10_000 && data !in cache {
      assert cache[data := offset].Keys == cache.Keys + {data};
    }
  }

  lemma StillRemembers(cache: map<seq<byte>, TileOffset>, data: seq<byte>)
    requires data in cache && |data| < TINY_LENGTH
    ensures Remembers(cache, cache, data)
  {
  }

  /** Third: enter the region into the index, and a new tiny tile into the cache. */
  function Store(s: State, t: nat): State
    requires t in s.threads && s.threads[t].Storing?
  {
    var Storing(id, data, offset, isNew) := s.threads[t];
    s.(index := s.index[id := offset],
       tinyCache := if isNew && |data| < TINY_LENGTH then CacheWith(s.tinyCache, data, offset) else s.tinyCache,
       threads := s.threads - {t},
       latest := s.latest[id := data],
       tilesAddressed := s.tilesAddressed + 1)
  }

  /** offset names a region in which exactly the compression of data was written. */
  ghost predicate Names(c: Codec, regions: map<nat, seq<byte>>, offset: TileOffset, data: seq<byte>) {
    && offset.offset in regions
    && regions[offset.offset] == data
    && offset.length == |c.compress(data)|
  }

  ghost predicate RegionsWritten(c: Codec, file: seq<byte>, regions: map<nat, seq<byte>>) {
    forall o :: o in regions ==>
      var bytes := c.compress(regions[o]);
      && o < TWO_40 && |bytes| < NO_LENGTH
      && HEADER_ROOT + o + |bytes| <= |file|
      && file[HEADER_ROOT + o..HEADER_ROOT + o + |bytes|] == bytes
  }

  ghost predicate RegionsApart(c: Codec, regions: map<nat, seq<byte>>) {
    forall o, p :: o in regions && p in regions && o < p ==> o + |c.compress(regions[o])| <= p
  }

  ghost predicate IndexNamed(c: Codec, regions: map<nat, seq<byte>>, index: map<nat, TileOffset>, latest: map<nat, seq<byte>>) {
    index.Keys == latest.Keys && forall id :: id in index ==> Names(c, regions, index[id], latest[id])
  }

  ghost predicate CacheNamed(c: Codec, regions: map<nat, seq<byte>>, cache: map<seq<byte>, TileOffset>) {
    forall d :: d in cache ==> Names(c, regions, cache[d], d)
  }

  ghost predicate ThreadsNamed(c: Codec, regions: map<nat, seq<byte>>, threads: map<nat, Phase>) {
    forall t :: t in threads && threads[t].Storing? ==> Names(c, regions, threads[t].offset, threads[t].data)
  }

  /** Tile ids, up to zoom 31. */
  const TOP_ID: nat := 0x8000_0000_0000_0000

  ghost predicate TileIdsOnly(s: State) {
    && (forall id :: id in s.index ==> id < TOP_ID)
    && (forall t :: t in s.threads ==> s.threads[t].id < TOP_ID)
  }

  ghost predicate Invariant(c: Codec, s: State) {
    && HEADER_ROOT <= |s.file|
    && RegionsWritten(c, s.file, s.regions)
    && RegionsApart(c, s.regions)
    && IndexNamed(c, s.regions, s.index, s.latest)
    && CacheNamed(c, s.regions, s.tinyCache)
    && ThreadsNamed(c, s.regions, s.threads)
    && TileIdsOnly(s)
    && s.tilesWritten == |s.regions|
  }

  /** The file has not outgrown 40-bit offsets, nor the tile 24-bit lengths. */
  ghost predicate Fits(c: Codec, s: State, data: seq<byte>) {
    |s.file| < HEADER_ROOT + TWO_40 && |c.compress(data)| < NO_LENGTH
  }

  lemma LookupKeeps(c: Codec, s: State, t: nat, id: nat, data: seq<byte>)
    requires Invariant(c, s) && t !in s.threads && id < TOP_ID
    ensures Invariant(c, Lookup(s, t, id, data))
  {
    hide RegionsWritten;
    hide RegionsApart;
    hide IndexNamed;
    hide Names;
  }

  lemma WriteKeeps(c: Codec, s: State, t: nat)
    requires GoodCodec(c) && Invariant(c, s)
    requires t in s.threads && s.threads[t].Writing? && Fits(c, s, s.threads[t].data)
    ensures Invariant(c, Write(c, s, t))
  {
    hide *;
    InvariantParts(c, s);
    var data := s.threads[t].data;
    var at: nat := |s.file| - 16384;
    NothingAtTheEnd(c, s.file, s.regions);
    WrittenIs(c, s, t);
    AppendKeepsRegions(c, s.file, s.regions, data);
    NamesSurvive(c, s.regions, s.index, s.latest, s.tinyCache, at, data);
    ThreadWrote(c, s.regions, s.threads, t, at);
    WriteKeepsIds(c, s, t);
    PartsMakeInvariant(c, Write(c, s, t));
  }

  lemma InvariantParts(c: Codec, s: State)
    requires Invariant(c, s)
    ensures HEADER_ROOT == 16384 <= |s.file| && s.tilesWritten == |s.regions| && TileIdsOnly(s)
    ensures RegionsWritten(c, s.file, s.regions) && RegionsApart(c, s.regions)
    ensures IndexNamed(c, s.regions, s.index, s.latest) && CacheNamed(c, s.regions, s.tinyCache)
    ensures ThreadsNamed(c, s.regions, s.threads)
  {
    hide RegionsWritten, RegionsApart, IndexNamed, CacheNamed, ThreadsNamed, TileIdsOnly;
  }

  lemma PartsMakeInvariant(c: Codec, s: State)
    requires HEADER_ROOT <= |s.file| && s.tilesWritten == |s.regions| && TileIdsOnly(s)
    requires RegionsWritten(c, s.file, s.regions) && RegionsApart(c, s.regions)
    requires IndexNamed(c, s.regions, s.index, s.latest) && CacheNamed(c, s.regions, s.tinyCache)
    requires ThreadsNamed(c, s.regions, s.threads)
    ensures Invariant(c, s)
  {
    hide RegionsWritten, RegionsApart, IndexNamed, CacheNamed, ThreadsNamed, TileIdsOnly;
  }

  lemma WrittenIs(c: Codec, s: State, t: nat)
    requires HEADER_ROOT <= |s.file| && t in s.threads && s.threads[t].Writing?
    requires |s.file| - HEADER_ROOT !in s.regions && s.tilesWritten == |s.regions|
    requires Fits(c, s, s.threads[t].data)
    ensures var at := |s.file| - HEADER_ROOT;
            var data := s.threads[t].data;
            var bytes := c.compress(data);
            var s' := Write(c, s, t);
            at < TWO_40 && |s.file| < HEADER_ROOT + TWO_40 && |bytes| < NO_LENGTH &&
            s'.file == s.file + bytes && s'.regions == s.regions[at := data] &&
            s'.threads == s.threads[t := Storing(s.threads[t].id, data, Packed(at, |bytes|), true)] &&
            s'.index == s.index && s'.latest == s.latest && s'.tinyCache == s.tinyCache &&
            s'.tilesWritten == |s'.regions|
  {
    OneMoreRegion(s.regions, |s.file| - HEADER_ROOT, s.threads[t].data);
  }

  lemma OneMoreRegion(regions: map<nat, seq<byte>>, at: nat, data: seq<byte>)
    requires at !in regions
    ensures |regions[at := data]| == |regions| + 1
  {
    assert regions[at := data].Keys == regions.Keys + {at};
  }

  lemma WriteKeepsIds(c: Codec, s: State, t: nat)
    requires HEADER_ROOT <= |s.file| && t in s.threads && s.threads[t].Writing? && TileIdsOnly(s)
    ensures TileIdsOnly(Write(c, s, t))
  {
  }

  lemma NothingAtTheEnd(c: Codec, file: seq<byte>, regions: map<nat, seq<byte>>)
    requires GoodCodec(c) && HEADER_ROOT <= |file| && RegionsWritten(c, file, regions)
    ensures |file| - HEADER_ROOT !in regions
  {
    var at := |file| - HEADER_ROOT;
    if at in regions {
      assert 0 < |c.compress(regions[at])|;
    }
  }

  lemma NamesSurvive(c: Codec, regions: map<nat, seq<byte>>, index: map<nat, TileOffset>, latest: map<nat, seq<byte>>,
                     cache: map<seq<byte>, TileOffset>, at: nat, data: seq<byte>)
    requires at !in regions && IndexNamed(c, regions, index, latest) && CacheNamed(c, regions, cache)
    ensures IndexNamed(c, regions[at := data], index, latest) && CacheNamed(c, regions[at := data], cache)
  {
  }

  lemma ThreadWrote(c: Codec, regions: map<nat, seq<byte>>, threads: map<nat, Phase>, t: nat, at: nat)
    requires ThreadsNamed(c, regions, threads) && at !in regions && at < TWO_40
    requires t in threads && |c.compress(threads[t].data)| < NO_LENGTH
    ensures var data := threads[t].data;
            ThreadsNamed(c, regions[at := data],
              threads[t := Storing(threads[t].id, data, Packed(at, |c.compress(data)|), true)])
  {
    PackedKeeps(at, |c.compress(threads[t].data)|);
  }

  lemma AppendKeepsRegions(c: Codec, file: seq<byte>, regions: map<nat, seq<byte>>, data: seq<byte>)
    requires HEADER_ROOT <= |file| && RegionsWritten(c, file, regions) && RegionsApart(c, regions)
    requires |file| < HEADER_ROOT + TWO_40 && |c.compress(data)| < NO_LENGTH
    requires |file| - HEADER_ROOT !in regions
    ensures var regions' := regions[|file| - HEADER_ROOT := data];
            RegionsWritten(c, file + c.compress(data), regions') && RegionsApart(c, regions')
  {
    var at := |file| - HEADER_ROOT;
    AppendKeepsWritten(c, file, regions, data);
    var regions' := regions[at := data];
    forall o, p | o in regions' && p in regions' && o < p ensures o + |c.compress(regions'[o])| <= p {
      if o in regions {
        assert HEADER_ROOT + o + |c.compress(regions[o])| <= |file|;
      }
    }
  }

  lemma AppendKeepsWritten(c: Codec, file: seq<byte>, regions: map<nat, seq<byte>>, data: seq<byte>)
    requires HEADER_ROOT <= |file| < HEADER_ROOT + TWO_40 && |c.compress(data)| < NO_LENGTH
    requires RegionsWritten(c, file, regions) && |file| - HEADER_ROOT !in regions
    ensures RegionsWritten(c, file + c.compress(data), regions[|file| - HEADER_ROOT := data])
  {
    var bytes := c.compress(data);
    var regions' := regions[|file| - HEADER_ROOT := data];
    forall o | o in regions'
      ensures var b := c.compress(regions'[o]);
              o < TWO_40 && |b| < NO_LENGTH && HEADER_ROOT + o + |b| <= |file + bytes| &&
              (file + bytes)[HEADER_ROOT + o..HEADER_ROOT + o + |b|] == b
    {
      if o in regions {
        var end := HEADER_ROOT + o + |c.compress(regions[o])|;
        assert (file + bytes)[HEADER_ROOT + o..end] == file[HEADER_ROOT + o..end];
      }
    }
  }

  lemma StoreKeeps(c: Codec, s: State, t: nat)
    requires Invariant(c, s) && t in s.threads && s.threads[t].Storing?
    ensures Invariant(c, Store(s, t))
  {
    hide RegionsWritten;
    hide RegionsApart;
    hide IndexNamed;
    hide CacheNamed;
    hide Names;
    var Storing(id, data, offset, isNew) := s.threads[t];
    IndexStores(c, s.regions, s.index, s.latest, id, offset, data);
    CacheStores(c, s.regions, s.tinyCache, data, offset);
  }

  lemma IndexStores(c: Codec, regions: map<nat, seq<byte>>, index: map<nat, TileOffset>, latest: map<nat, seq<byte>>,
                    id: nat, offset: TileOffset, data: seq<byte>)
    requires IndexNamed(c, regions, index, latest) && Names(c, regions, offset, data)
    ensures IndexNamed(c, regions, index[id := offset], latest[id := data])
  {
  }

  lemma CacheStores(c: Codec, regions: map<nat, seq<byte>>, cache: map<seq<byte>, TileOffset>, data: seq<byte>, offset: TileOffset)
    requires CacheNamed(c, regions, cache) && Names(c, regions, offset, data)
    ensures CacheNamed(c, regions, CacheWith(cache, data, offset))
  {
    hide Names;
  }

  /** Equal offsets imply equal lengths, which is what lets runs be merged by looking
      at offsets only. */
  lemma EqualOffsetsEqualLengths(c: Codec, s: State, a: nat, b: nat)
    requires Invariant(c, s) && a in s.index && b in s.index && s.index[a].offset == s.index[b].offset
    ensures s.index[a] == s.index[b] && s.latest[a] == s.latest[b]
  {
    assert Names(c, s.regions, s.index[a], s.latest[a]);
    assert Names(c, s.regions, s.index[b], s.latest[b]);
  }

  // ----- Runs of the protocol -----

  datatype Step =
    | LookupStep(t: nat, id: nat, data: seq<byte>)
    | WriteStep(t: nat)
    | StoreStep(t: nat)

  ghost predicate Enabled(c: Codec, s: State, step: Step) {
    match step
    case LookupStep(t, id, _) => t !in s.threads && id < TOP_ID
    case WriteStep(t) => HEADER_ROOT <= |s.file| && t in s.threads && s.threads[t].Writing? && Fits(c, s, s.threads[t].data)
    case StoreStep(t) => t in s.threads && s.threads[t].Storing?
  }

  ghost function After(c: Codec, s: State, step: Step): State
    requires Enabled(c, s, step)
  {
    match step
    case LookupStep(t, id, data) => Lookup(s, t, id, data)
    case WriteStep(t) => Write(c, s, t)
    case StoreStep(t) => Store(s, t)
  }

  /** states is a run: any number of threads, their sections interleaved in any way. */
  ghost predicate IsRun(c: Codec, states: seq<State>, steps: seq<Step>) {
    && |states| == |steps| + 1
    && forall i :: 0 <= i < |steps| ==> Enabled(c, states[i], steps[i]) && states[i + 1] == After(c, states[i], steps[i])
  }

  ghost predicate Initial(s: State) {
    && |s.file| == HEADER_ROOT
    && s.index == map[] && s.tinyCache == map[] && s.threads == map[] && s.latest == map[] && s.regions == map[]
    && s.tilesWritten == 0 && s.tilesAddressed == 0
  }

  lemma {:induction false} EveryRunKeepsInvariant(c: Codec, states: seq<State>, steps: seq<Step>, i: nat)
    requires GoodCodec(c) && IsRun(c, states, steps) && Initial(states[0]) && i < |states|
    ensures Invariant(c, states[i])
  {
    if i > 0 {
      EveryRunKeepsInvariant(c, states, steps, i - 1);
      var s := states[i - 1];
      assert states[i] == After(c, s, steps[i - 1]);
      match steps[i - 1] {
        case LookupStep(t, id, data) => LookupKeeps(c, s, t, id, data);
        case WriteStep(t) => WriteKeeps(c, s, t);
        case StoreStep(t) => StoreKeeps(c, s, t);
      }
    }
  }

  /** The data thread t brought when it last looked it up, among the first i steps. */
  ghost function Brought(steps: seq<Step>, i: nat, t: nat): Option<(nat, seq<byte>)>
    requires i <= |steps|
  {
    if i == 0 then None
    else if steps[i - 1].LookupStep? && steps[i - 1].t == t then Some((steps[i - 1].id, steps[i - 1].data))
    else Brought(steps, i - 1, t)
  }

  /** The data of the last third section, among the first i steps, that was for this
      tile. */
  ghost function LastSaved(steps: seq<Step>, i: nat, id: nat): Option<seq<byte>>
    requires i <= |steps|
  {
    if i == 0 then None
    else if steps[i - 1].StoreStep? && Brought(steps, i - 1, steps[i - 1].t).Some? &&
            Brought(steps, i - 1, steps[i - 1].t).value.0 == id
    then Some(Brought(steps, i - 1, steps[i - 1].t).value.1)
    else LastSaved(steps, i - 1, id)
  }

  ghost predicate CarriesBrought(s: State, steps: seq<Step>, i: nat)
    requires i <= |steps|
  {
    forall t :: t in s.threads ==> Brought(steps, i, t) == Some((s.threads[t].id, s.threads[t].data))
  }

  ghost predicate LatestIsLastSaved(s: State, steps: seq<Step>, i: nat)
    requires i <= |steps|
  {
    forall id: nat :: LastSaved(steps, i, id) == if id in s.latest then Some(s.latest[id]) else None
  }

  /** After any run, the index has exactly the tiles saved so far, and each entry names
      the region holding the compression of the data saved last for its tile. */
  lemma {:induction false} IndexNamesLastSaved(c: Codec, states: seq<State>, steps: seq<Step>, i: nat)
    requires GoodCodec(c) && IsRun(c, states, steps) && Initial(states[0]) && i < |states|
    ensures CarriesBrought(states[i], steps, i) && LatestIsLastSaved(states[i], steps, i)
    ensures forall id: nat ::
      (id in states[i].index <==> LastSaved(steps, i, id).Some?) &&
      (id in states[i].index ==> Names(c, states[i].regions, states[i].index[id], LastSaved(steps, i, id).value))
  {
    if i > 0 {
      IndexNamesLastSaved(c, states, steps, i - 1);
      assert states[i] == After(c, states[i - 1], steps[i - 1]);
      HistoryStep(c, states[i - 1], steps, i);
    }
    EveryRunKeepsInvariant(c, states, steps, i);
  }

  lemma HistoryStep(c: Codec, s: State, steps: seq<Step>, i: nat)
    requires 0 < i <= |steps| && Enabled(c, s, steps[i - 1])
    requires CarriesBrought(s, steps, i - 1) && LatestIsLastSaved(s, steps, i - 1)
    ensures CarriesBrought(After(c, s, steps[i - 1]), steps, i)
    ensures LatestIsLastSaved(After(c, s, steps[i - 1]), steps, i)
  {
    hide LatestIsLastSaved, CarriesBrought;
    BroughtStep(c, s, steps, i);
    SavedStep(c, s, steps, i);
  }

  lemma BroughtStep(c: Codec, s: State, steps: seq<Step>, i: nat)
    requires 0 < i <= |steps| && Enabled(c, s, steps[i - 1]) && CarriesBrought(s, steps, i - 1)
    ensures CarriesBrought(After(c, s, steps[i - 1]), steps, i)
  {
    hide LastSaved, CacheWith, Fits;
    var s' := After(c, s, steps[i - 1]);
    forall t | t in s'.threads ensures Brought(steps, i, t) == Some((s'.threads[t].id, s'.threads[t].data)) {
      if t != steps[i - 1].t {
        assert t in s.threads && s'.threads[t] == s.threads[t];
      }
    }
  }

  lemma SavedStep(c: Codec, s: State, steps: seq<Step>, i: nat)
    requires 0 < i <= |steps| && Enabled(c, s, steps[i - 1])
    requires CarriesBrought(s, steps, i - 1) && LatestIsLastSaved(s, steps, i - 1)
    ensures LatestIsLastSaved(After(c, s, steps[i - 1]), steps, i)
  {
    hide Brought, CacheWith, Fits;
  }
}
