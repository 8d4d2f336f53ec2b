/** The node store: filled by several workers, each published group laid out in memory,
    and read through a one-chunk decode cache. */
module SortedNodeStore {
  import opened Coordinates
  import opened Wrappers
  import opened BitMask
  import opened IntCodec
  import opened Memory
  import opened SortedStoreProtocol
  import opened SortedStoreFinalize
  import opened SortedStoreAnswers
  import opened Chunks
  import opened NodeGroup
  import opened NodeGroupWriter

  /** Room for ids below 2^34. */
  const MAX_GROUPS: nat := 262144

  lemma RoomForIds(id: nat)
    ensures Group(id) < MAX_GROUPS <==> id < 0x4_0000_0000
  {
  }

  /** What a worker has in its buffer is ascending and of one group. */
  ghost predicate WorkerOk(me: Worker<LatpLon>) {
    if me.groupStart < 0 then me.groupStart == -1 && me.local == []
    else me.groupStart % GROUP == 0 && GroupList(me.local, me.groupStart / GROUP)
  }

  ghost predicate OrphansOk(orphanage: map<nat, Nodes>) {
    forall g :: g in orphanage ==> orphanage[g] != [] && forall k :: 0 <= k < |orphanage[g]| ==> Group(orphanage[g][k].id) == g
  }

  ghost predicate GroupsOk(ic: IntCodec, compress: bool, groups: seq<Option<GroupInfo>>, published: map<nat, Nodes>) {
    && |groups| == MAX_GROUPS
    && (forall g :: g in published ==> g < MAX_GROUPS && published[g] != [] && GroupList(published[g], g))
    && (forall g :: 0 <= g < MAX_GROUPS ==>
         groups[g] == if g in published then Some(Layout(ic, compress, Split(published[g]))) else None)
  }

  function ChunkBase(g: GroupInfo, chunk: index): Option<nat> {
    if IsSet(g.chunkMask, chunk) && Rank(g.chunkMask, chunk) < |g.chunkOffsets|
    then Some(g.chunkOffsets[Rank(g.chunkMask, chunk)] * CHUNK_ALIGNMENT) else None
  }

  /** The cached coordinates are those of the cached chunk. */
  ghost predicate CacheOk(ic: IntCodec, groups: seq<Option<GroupInfo>>, cached: int, latps: seq<int32>, lons: seq<int32>) {
    cached == -1 ||
    (&& 0 <= cached < 256 * |groups| && groups[cached / 256].Some?
     && var g := groups[cached / 256].value;
        ChunkBase(g, cached % 256).Some? && (latps, lons) == DecodedChunk(ic, g.area, ChunkBase(g, cached % 256).value))
  }

  class SortedNodeStore {
    const ic: IntCodec
    const compressNodes: bool
    var groups: seq<Option<GroupInfo>>
    var workers: seq<Worker<LatpLon>>
    var orphanage: map<nat, Nodes>
    var failed: bool
    // The reading thread's cache of one decoded chunk.
    var cachedChunk: int
    var cacheChunkLatps: seq<int32>
    var cacheChunkLons: seq<int32>
    ghost var published: map<nat, Nodes>

    ghost function View(): Store<LatpLon>
      reads this
    {
      Store(workers, orphanage, published, failed, MAX_GROUPS)
    }

    /** What holds even in the middle of an insert. */
    ghost predicate Consistent()
      reads this
    {
      && GoodIntCodec(ic)
      && GroupsOk(ic, compressNodes, groups, published)
      && OrphansOk(orphanage)
      && (forall w :: 0 <= w < |workers| ==> WorkerOk(workers[w]))
      && CacheOk(ic, groups, cachedChunk, cacheChunkLatps, cacheChunkLons)
    }

    /** A worker that has begun a group has some of it in its buffer. */
    ghost predicate Valid()
      reads this
    {
      Consistent() && forall w :: 0 <= w < |workers| ==> (workers[w].groupStart >= 0 ==> workers[w].local != [])
    }

    constructor (ic: IntCodec, compressNodes: bool, threads: nat)
      requires GoodIntCodec(ic)
      ensures Valid() && View() == Store(seq(threads, _ => Worker(true, -1, [])), map[], map[], false, MAX_GROUPS)
      ensures this.ic == ic && this.compressNodes == compressNodes
    {
      this.ic := ic;
      this.compressNodes := compressNodes;
      groups := seq(MAX_GROUPS, _ => None);
      workers := seq(threads, _ => Worker(true, -1, []));
      orphanage, published, failed := map[], map[], false;
      cachedChunk, cacheChunkLatps, cacheChunkLons := -1, [], [];
    }

    // ----- Filling -----

    method PublishGroup(nodes: Nodes, ghost g: nat)
      requires Consistent() && GroupList(nodes, g)
      modifies this`groups, this`published, this`failed
      ensures Consistent() && View() == SortedStoreProtocol.PublishGroup(old(View()), nodes)
    {
      hide Layout;
      hide Split;
      hide ChunkOf;
      hide GoodIntCodec;
      hide CacheOk;
      hide WorkerOk;
      hide OrphansOk;
      if |nodes| == 0 {
        failed := true;
        return;
      }
      var groupIndex := Group(nodes[0].id);
      assert groupIndex == g;
      if groupIndex >= |groups| {
        failed := true;
        return;
      }
      if |nodes| > 256 * 256 {
        failed := true;
        return;
      }
      var chunks, latpSizes, lonSizes, counts := MeasureChunks(ic, compressNodes, nodes, g);
      if groups[groupIndex].Some? {
        failed := true;
        return;
      }
      var r := WriteChunks(ic, compressNodes, nodes, g, latpSizes, lonSizes, counts);
      CacheSurvives(ic, groups, groupIndex, r.group, cachedChunk, cacheChunkLatps, cacheChunkLons);
      groups := groups[groupIndex := Some(r.group)];
      published := published[groupIndex := nodes];
    }

    method CollectOrphans(orphans: Nodes)
      requires Consistent() && orphans != [] && (forall k :: 0 <= k < |orphans| ==> Group(orphans[k].id) == Group(orphans[0].id))
      modifies this`orphanage
      ensures Consistent() && orphanage == SortedStoreProtocol.CollectOrphans(old(orphanage), orphans)
    {
      hide GroupsOk;
      hide CacheOk;
      hide WorkerOk;
      hide GoodIntCodec;
      hide Group;
      var groupIndex := Group(orphans[0].id);
      var vec := if groupIndex in orphanage then orphanage[groupIndex] else [];
      orphanage := orphanage[groupIndex := vec + orphans];
    }

    method BatchStart(w: nat)
      requires Valid() && w < |workers|
      modifies this`workers, this`orphanage
      ensures Valid() && View() == SortedStoreProtocol.BatchStart(old(View()), w)
    {
      hide GroupsOk;
      hide CacheOk;
      hide OrphansOk;
      hide GoodIntCodec;
      var local := workers[w].local;
      BufferOneGroup(workers[w]);
      workers := workers[w := Worker(true, -1, local)];
      workers := workers[w := Worker(true, -1, [])];
      if |local| != 0 {
        CollectOrphans(local);
      }
    }

    method Push(w: nat, e: Element<LatpLon>)
      requires Consistent() && w < |workers|
      requires var me := workers[w]; WorkerOk(Worker(me.collecting, me.groupStart, me.local + [e]))
      modifies this`workers
      ensures Consistent()
      ensures var me := old(workers[w]); workers == old(workers)[w := Worker(me.collecting, me.groupStart, me.local + [e])]
    {
      hide GroupsOk;
      hide CacheOk;
      hide OrphansOk;
      hide GoodIntCodec;
      hide WorkerOk;
      workers := workers[w := Worker(workers[w].collecting, workers[w].groupStart, workers[w].local + [e])];
    }

    /** Where the first full group starts. */
    method StartGroup(w: nat, e: Element<LatpLon>)
      requires Consistent() && w < |workers|
      modifies this`workers
      ensures Consistent() && WorkerOk(old(workers[w]))
      ensures var me := old(workers[w]);
              workers == if me.groupStart == -1 then old(workers)[w := Worker(me.collecting, RoundDown(e.id), me.local)] else old(workers)
    {
      hide GroupsOk;
      hide CacheOk;
      hide OrphansOk;
      hide GoodIntCodec;
      if workers[w].groupStart == -1 {
        RoundedDown(e.id);
        hide RoundDown;
        hide Group;
        workers := workers[w := Worker(workers[w].collecting, RoundDown(e.id), workers[w].local)];
      }
    }

    method TakeBuffer(w: nat, e: Element<LatpLon>) returns (taken: Nodes)
      requires Consistent() && w < |workers|
      requires WorkerOk(Worker(false, RoundDown(e.id), []))
      modifies this`workers
      ensures Consistent() && taken == old(workers[w].local)
      ensures workers == old(workers)[w := Worker(false, RoundDown(e.id), [])]
    {
      hide GroupsOk;
      hide CacheOk;
      hide OrphansOk;
      hide GoodIntCodec;
      hide WorkerOk;
      hide RoundDown;
      taken := workers[w].local;
      workers := workers[w := Worker(false, RoundDown(e.id), [])];
    }

    /** A turn of the first loop: until the first full group begins, what is left of the
        batch's first group goes to the orphanage. */
    method InsertCollecting(w: nat, elements: Nodes, i: nat)
      requires Consistent() && w < |workers| && i < |elements| && Ready(workers[w], elements[i..]) && workers[w].collecting
      modifies this`workers, this`orphanage
      ensures Consistent() && |workers| == |old(workers)| && Ready(workers[w], elements[i + 1..])
      ensures forall v :: 0 <= v < |workers| && v != w ==> workers[v] == old(workers[v])
      ensures View() == InsertOne(old(View()), w, elements[i])
    {
      hide Consistent, WorkerOk, Ready, RoundDown, Group, InsertOne, GroupList;
      hide SortedStoreProtocol.CollectOrphans, SortedStoreProtocol.PublishGroup;
      var el := elements[i];
      Pushing(workers[w], elements, i);
      InsertOneIs(View(), w, el);
      if el.id >= workers[w].groupStart + GROUP {
        var orphans := TakeBuffer(w, el);
        CollectOrphans(orphans);
        assert workers[w].local + [el] == [el];
      }
      Push(w, el);
    }

    /** A turn of the second loop: from then on, full groups are published. */
    method InsertPublishing(w: nat, elements: Nodes, i: nat)
      requires Consistent() && w < |workers| && i < |elements| && Ready(workers[w], elements[i..]) && !workers[w].collecting
      modifies this`workers, this`groups, this`published, this`failed
      ensures Consistent() && |workers| == |old(workers)| && Ready(workers[w], elements[i + 1..]) && !workers[w].collecting
      ensures forall v :: 0 <= v < |workers| && v != w ==> workers[v] == old(workers[v])
      ensures View() == InsertOne(old(View()), w, elements[i])
    {
      hide Consistent, WorkerOk, Ready, RoundDown, Group, InsertOne, GroupList;
      hide SortedStoreProtocol.CollectOrphans, SortedStoreProtocol.PublishGroup;
      var el := elements[i];
      Pushing(workers[w], elements, i);
      InsertOneIs(View(), w, el);
      if el.id >= workers[w].groupStart + GROUP {
        var nodes := TakeBuffer(w, el);
        PublishGroup(nodes, Group(nodes[0].id));
        assert workers[w].local + [el] == [el];
      }
      Push(w, el);
    }

    /** The elements of a batch, or of a part of it, in the order of their ids. */
    method Insert(w: nat, elements: Nodes)
      requires Valid() && w < |workers| && elements != []
      requires Ascending(workers[w].local + elements)
      modifies this`workers, this`orphanage, this`groups, this`published, this`failed
      ensures Valid() && View() == InsertAll(old(View()), w, elements)
    {
      hide Consistent, WorkerOk, Ready, RoundDown, Group, InsertAll, Ascending, InsertOne, GroupList, Primed;
      hide SortedStoreProtocol.CollectOrphans, SortedStoreProtocol.PublishGroup;
      ghost var before := View();
      StartGroup(w, elements[0]);
      ghost var primed := View();
      PrimedIs(before, primed, w, elements);
      PrimedIsReady(before, w, elements);
      PrimedAll(before, w, elements);
      var i := 0;
      while workers[w].collecting && i < |elements|
        invariant i <= |elements| && |workers| == |primed.workers|
        invariant Consistent() && Ready(workers[w], elements[i..])
        invariant forall v :: 0 <= v < |workers| && v != w ==> workers[v] == primed.workers[v]
        invariant View() == InsertAll(primed, w, elements[..i])
      {
        InsertMore(primed, w, elements, i);
        InsertCollecting(w, elements, i);
        i := i + 1;
      }
      while i < |elements|
        invariant i <= |elements| && |workers| == |primed.workers|
        invariant Consistent() && Ready(workers[w], elements[i..])
        invariant forall v :: 0 <= v < |workers| && v != w ==> workers[v] == primed.workers[v]
        invariant View() == InsertAll(primed, w, elements[..i])
        invariant i < |elements| ==> !workers[w].collecting
      {
        InsertMore(primed, w, elements, i);
        InsertPublishing(w, elements, i);
        i := i + 1;
      }
      InsertedAll(workers[w], primed, w, elements);
    }

    /** The orphanage with what is left in the buffers. */
    ghost function Pooled(): map<nat, Nodes>
      reads this
    {
      CollectBuffers(workers, |workers|, orphanage)
    }

    method PoolBuffers()
      requires Consistent()
      modifies this`workers, this`orphanage
      ensures Consistent() && workers == [] && orphanage == old(Pooled())
    {
      hide GroupsOk;
      hide CacheOk;
      hide OrphansOk;
      hide WorkerOk;
      hide GoodIntCodec;
      hide SortedStoreProtocol.CollectOrphans;
      var n := 0;
      while n < |workers|
        invariant n <= |workers| && workers == old(workers) && Consistent()
        invariant orphanage == CollectBuffers(workers, n, old(orphanage))
      {
        if |workers[n].local| > 0 {
          BufferOneGroup(workers[n]);
          CollectOrphans(workers[n].local);
        }
        n := n + 1;
      }
      workers := [];
    }

    /** Orphans come from different workers and are sorted first. */
    method Finalize()
      requires Valid() && !failed
      requires forall g :: g in Pooled() ==> DistinctIds(Pooled()[g])
      modifies this`workers, this`orphanage, this`groups, this`published, this`failed
      ensures Valid()
      ensures CanPublishAll(MAX_GROUPS, old(published), old(Pooled())) ==> View() == Finalized(old(View()))
      ensures !CanPublishAll(MAX_GROUPS, old(published), old(Pooled())) ==> failed
    {
      hide GroupsOk;
      hide CacheOk;
      hide OrphansOk;
      hide WorkerOk;
      hide GoodIntCodec;
      hide SortById;
      hide CanPublishAll;
      hide Finalized;
      hide CanPublish;
      hide DistinctIds;
      hide GroupList;
      hide CollectBuffers;
      hide PartlyPublished;
      ghost var s := View();
      ghost var pooled := Pooled();
      PoolBuffers();
      var rest := orphanage.Keys;
      NothingPublishedYet(s.published, pooled);
      while rest != {}
        invariant Consistent() && !failed && workers == [] && orphanage == pooled && rest <= pooled.Keys
        invariant PartlyPublished(s.published, pooled, rest, published)
      {
        var g := LeastKey(rest);
        ghost var was := published;
        SortedOrphans(pooled, g);
        var copy := SortById(orphanage[g]);
        PublishGroup(copy, g);
        PublishedMore(s.published, pooled, rest, was, g);
        if failed {
          return;
        }
        rest := rest - {g};
      }
      AllPublished(s, pooled, published);
      NoOrphans();
      orphanage := map[];
    }

    // ----- Reading -----

    /** None where the program throws: no group, no chunk or no node. The program has
        room for the groups of ids below 2^34 and does not check. */
    method At(id: nat) returns (r: Option<LatpLon>)
      requires Valid() && id < 0x4_0000_0000
      modifies this`cachedChunk, this`cacheChunkLatps, this`cacheChunkLons
      ensures Valid() && r == Answer(published, id)
    {
      hide *;
      RoomForIds(id);
      Facts();
      GroupIs(ic, compressNodes, groups, published, id);
      var groupIndex := Group(id);
      var chunk, slot := ChunkOf(id), Slot(id);
      if groups[groupIndex].None? {
        return None;
      }
      var g := groups[groupIndex].value;
      var chunkOffset := Rank(g.chunkMask, chunk);
      if !IsSet(g.chunkMask, chunk) {
        NoChunkSet(ic, g, id);
        return None;
      }
      ChunkFound(ic, compressNodes, published[groupIndex], groupIndex, id);
      var base := g.chunkOffsets[chunkOffset] * 16;
      var nodeMask := NodeMaskAt(g.area, base);
      var nodeOffset := Rank(nodeMask, slot);
      SlotRead(ic, g.area, base, slot);
      if IsCompressedAt(g.area, base) {
        var neededChunk := groupIndex * 256 + chunk;
        Needed(groupIndex, chunk);
        if cachedChunk != neededChunk {
          var decoded := DecodedChunk(ic, g.area, base);
          CachedIs(ic, groups, groupIndex, chunk, neededChunk, decoded.0, decoded.1);
          Remember(neededChunk, decoded.0, decoded.1);
        }
        CachedIs(ic, groups, groupIndex, chunk, cachedChunk, cacheChunkLatps, cacheChunkLons);
        if !IsSet(nodeMask, slot) {
          return None;
        }
        return Some(LatpLon(cacheChunkLatps[nodeOffset], cacheChunkLons[nodeOffset]));
      }
      if !IsSet(nodeMask, slot) {
        return None;
      }
      r := Some(LatpLon(Signed(WordAt(g.area, base + 36 + 8 * nodeOffset)), Signed(WordAt(g.area, base + 40 + 8 * nodeOffset))));
    }

    /** contains says what at would find, looking at the masks only. */
    method Contains(id: nat) returns (r: bool)
      requires Valid() && id < 0x4_0000_0000
      ensures r <==> Answer(published, id).Some?
    {
      hide *;
      RoomForIds(id);
      Facts();
      GroupIs(ic, compressNodes, groups, published, id);
      var groupIndex := Group(id);
      var chunk, slot := ChunkOf(id), Slot(id);
      if groups[groupIndex].None? {
        return false;
      }
      var g := groups[groupIndex].value;
      var chunkOffset := Rank(g.chunkMask, chunk);
      if !IsSet(g.chunkMask, chunk) {
        NoChunkSet(ic, g, id);
        return false;
      }
      ChunkFound(ic, compressNodes, published[groupIndex], groupIndex, id);
      var base := g.chunkOffsets[chunkOffset] * 16;
      if !IsSet(NodeMaskAt(g.area, base), slot) {
        return false;
      }
      r := true;
    }

    method Remember(chunk: int, latps: seq<int32>, lons: seq<int32>)
      requires Valid() && CacheOk(ic, groups, chunk, latps, lons)
      modifies this`cachedChunk, this`cacheChunkLatps, this`cacheChunkLons
      ensures Valid() && cachedChunk == chunk && cacheChunkLatps == latps && cacheChunkLons == lons
    {
      hide CacheOk;
      hide GroupsOk;
      hide OrphansOk;
      hide WorkerOk;
      hide GoodIntCodec;
      cachedChunk, cacheChunkLatps, cacheChunkLons := chunk, latps, lons;
    }

    lemma Facts()
      requires Valid()
      ensures GoodIntCodec(ic) && GroupsOk(ic, compressNodes, groups, published) && |groups| == 262144 && MAX_GROUPS == 262144
      ensures CacheOk(ic, groups, cachedChunk, cacheChunkLatps, cacheChunkLons)
      ensures CHUNK_ALIGNMENT == 16
    {
      hide GoodIntCodec;
      hide CacheOk;
    }
  }

  /** A worker with elements still to come: its buffer belongs to the group it has
      begun, or is empty and the next element begins the group. */
  ghost predicate Ready(me: Worker<LatpLon>, rest: Nodes) {
    && WorkerOk(me) && me.groupStart >= 0 && Ascending(me.local + rest)
    && (me.local == [] ==> rest != [] && me.groupStart == RoundDown(rest[0].id))
  }

  ghost function Primed(s: Store<LatpLon>, w: nat, es: Nodes): Store<LatpLon>
    requires w < |s.workers| && es != []
  {
    var me := s.workers[w];
    if me.groupStart == -1 then s.(workers := s.workers[w := Worker(me.collecting, RoundDown(es[0].id), me.local)]) else s
  }

  lemma PrimedIs(s: Store<LatpLon>, t: Store<LatpLon>, w: nat, es: Nodes)
    requires w < |s.workers| && es != []
    requires var me := s.workers[w];
             t == if me.groupStart == -1 then s.(workers := s.workers[w := Worker(me.collecting, RoundDown(es[0].id), me.local)]) else s
    ensures t == Primed(s, w, es)
  {
  }

  /** insert's step on one element, as the loops take it. */
  lemma InsertOneIs(s: Store<LatpLon>, w: nat, e: Element<LatpLon>)
    requires w < |s.workers| && s.workers[w].groupStart >= 0
    ensures var me := s.workers[w];
            var emptied := s.workers[w := Worker(false, RoundDown(e.id), [])];
            var next := emptied[w := Worker(false, RoundDown(e.id), [] + [e])];
            if e.id < me.groupStart + GROUP then
              InsertOne(s, w, e) == s.(workers := s.workers[w := Worker(me.collecting, me.groupStart, me.local + [e])])
            else if !me.collecting then
              InsertOne(s, w, e) == SortedStoreProtocol.PublishGroup(s.(workers := emptied), me.local).(workers := next)
            else
              me.local != [] ==>
                InsertOne(s, w, e) == s.(workers := next, orphanage := SortedStoreProtocol.CollectOrphans(s.orphanage, me.local))
  {
    hide CanPublish;
    hide RoundDown;
    var me := s.workers[w];
    var emptied := s.workers[w := Worker(false, RoundDown(e.id), [])];
    assert [] + [e] == [e];
    assert emptied[w := Worker(false, RoundDown(e.id), [e])] == s.workers[w := Worker(false, RoundDown(e.id), [e])];
  }

  lemma PrimedIsReady(s: Store<LatpLon>, w: nat, es: Nodes)
    requires w < |s.workers| && es != [] && WorkerOk(s.workers[w])
    requires s.workers[w].groupStart >= 0 ==> s.workers[w].local != []
    requires Ascending(s.workers[w].local + es)
    ensures var primed := Primed(s, w, es);
            WorkerOk(primed.workers[w]) && Ready(primed.workers[w], es[0..]) && primed == InsertAll(primed, w, es[..0])
  {
    hide Ascending;
    RoundedDown(es[0].id);
    assert es[0..] == es;
  }

  lemma RoundedDown(id: nat)
    ensures RoundDown(id) % GROUP == 0 && RoundDown(id) / GROUP == Group(id) && RoundDown(id) <= id < RoundDown(id) + GROUP
  {
  }

  lemma InGroup(start: nat, id: nat)
    requires start % GROUP == 0
    ensures start <= id < start + GROUP <==> Group(id) == start / GROUP
  {
  }

  /** Marking the start of the group first changes nothing. */
  lemma {:induction false} PrimedAll(s: Store<LatpLon>, w: nat, es: Nodes)
    requires w < |s.workers| && es != []
    ensures InsertAll(Primed(s, w, es), w, es) == InsertAll(s, w, es)
  {
    hide Group;
    hide RoundDown;
    hide CanPublish;
    var n := |es| - 1;
    if n == 0 {
      assert es[..0] == [];
      var primed := Primed(s, w, es);
      assert InsertAll(s, w, es[..0]) == s && InsertAll(primed, w, es[..0]) == primed;
      assert InsertOne(primed, w, es[0]) == InsertOne(s, w, es[0]);
    } else {
      PrimedAll(s, w, es[..n]);
    }
  }

  lemma InsertMore(s: Store<LatpLon>, w: nat, es: Nodes, i: nat)
    requires w < |s.workers| && i < |es|
    ensures InsertAll(s, w, es[..i + 1]) == InsertOne(InsertAll(s, w, es[..i]), w, es[i])
  {
    assert es[..i + 1][..i] == es[..i];
  }

  /** The next element is pushed, after the buffer was handed over if it begins another
      group. */
  lemma Pushing(me: Worker<LatpLon>, es: Nodes, i: nat)
    requires i < |es| && Ready(me, es[i..])
    ensures me.groupStart >= 0
    ensures es[i].id < me.groupStart + GROUP ==>
      var next := Worker(me.collecting, me.groupStart, me.local + [es[i]]);
      WorkerOk(next) && Ready(next, es[i + 1..])
    ensures es[i].id >= me.groupStart + GROUP ==>
      me.local != [] && GroupList(me.local, Group(me.local[0].id)) && WorkerOk(Worker(false, RoundDown(es[i].id), [])) &&
      (forall k :: 0 <= k < |me.local| ==> Group(me.local[k].id) == Group(me.local[0].id)) &&
      var next := Worker(false, RoundDown(es[i].id), [es[i]]);
      WorkerOk(next) && Ready(next, es[i + 1..])
  {
    hide Group;
    hide RoundDown;
    hide Ascending;
    var rest := es[i..];
    RestAscends(me.local, es, i);
    RoundedDown(es[i].id);
    InGroup(me.groupStart, es[i].id);
    if me.local != [] {
      InGroup(me.groupStart, me.local[|me.local| - 1].id);
    }
  }

  lemma RestAscends(local: Nodes, es: Nodes, i: nat)
    requires i < |es| && Ascending(local + es[i..])
    ensures Ascending(local + [es[i]] + es[i + 1..]) && Ascending([es[i]] + es[i + 1..])
    ensures forall k :: 0 <= k < |local| ==> local[k].id < es[i].id
  {
    assert local + [es[i]] + es[i + 1..] == local + es[i..];
    assert [es[i]] + es[i + 1..] == es[i..];
    var all := local + es[i..];
    assert all[|local|] == es[i];
    forall j, k | 0 <= j < k < |es[i..]| ensures es[i..][j].id < es[i..][k].id {
      assert all[|local| + j].id < all[|local| + k].id;
    }
    forall k | 0 <= k < |local| ensures local[k].id < es[i].id {
      assert all[k].id < all[|local|].id;
    }
  }

  lemma InsertedAll(me: Worker<LatpLon>, s: Store<LatpLon>, w: nat, es: Nodes)
    requires w < |s.workers| && Ready(me, es[|es|..])
    ensures me.local != [] && InsertAll(s, w, es[..|es|]) == InsertAll(s, w, es)
  {
    assert es[..|es|] == es;
  }

  lemma BufferOneGroup(me: Worker<LatpLon>)
    requires WorkerOk(me)
    ensures forall k :: 0 <= k < |me.local| ==> Group(me.local[k].id) == Group(me.local[0].id)
  {
    hide Group;
  }

  /** A group added elsewhere leaves the cached chunk alone. */
  lemma CacheSurvives(ic: IntCodec, groups: seq<Option<GroupInfo>>, g: nat, added: GroupInfo, cached: int, latps: seq<int32>, lons: seq<int32>)
    requires g < |groups| && groups[g].None? && CacheOk(ic, groups, cached, latps, lons)
    ensures CacheOk(ic, groups[g := Some(added)], cached, latps, lons)
  {
    hide ChunkBase;
    hide DecodedChunk;
  }

  lemma NoOrphans()
    ensures OrphansOk(map[])
  {
  }

  ghost predicate IsLeast(k: nat, keys: set<nat>) {
    k in keys && forall j :: j in keys ==> k <= j
  }

  /** std::map iterates in the order of the keys. */
  method LeastKey(keys: set<nat>) returns (k: nat)
    requires keys != {}
    ensures IsLeast(k, keys)
  {
    k :| k in keys;
    var rest := keys - {k};
    while rest != {}
      invariant k in keys && rest <= keys
      invariant forall j :: j in keys ==> k <= j || j in rest
    {
      var j :| j in rest;
      if j < k {
        k := j;
      }
      rest := rest - {j};
    }
  }

  lemma SortedOrphans(orphanage: map<nat, Nodes>, g: nat)
    requires OrphansOk(orphanage) && g in orphanage && DistinctIds(orphanage[g])
    ensures GroupList(SortById(orphanage[g]), g) && SortById(orphanage[g]) != []
    ensures Group(SortById(orphanage[g])[0].id) == g
  {
    hide Group;
    hide SortById;
    var es := orphanage[g];
    SortByIdSorts(es);
    var sorted := SortById(es);
    forall k | 0 <= k < |sorted| ensures Group(sorted[k].id) == g {
      assert sorted[k] in SetOf(sorted);
    }
  }

  /** Of the pooled orphans, those outside of rest are published, all without a fault. */
  ghost predicate PartlyPublished(before: map<nat, Nodes>, pooled: map<nat, Nodes>, rest: set<nat>, now: map<nat, Nodes>) {
    && (forall g :: g in pooled && g !in rest ==> CanPublish(MAX_GROUPS, before, SortById(pooled[g])) && Group(SortById(pooled[g])[0].id) == g)
    && now == before + map g | g in pooled && g !in rest :: SortById(pooled[g])
  }

  lemma NothingPublishedYet(before: map<nat, Nodes>, pooled: map<nat, Nodes>)
    ensures PartlyPublished(before, pooled, pooled.Keys, before)
  {
  }

  lemma PublishedMore(before: map<nat, Nodes>, pooled: map<nat, Nodes>, rest: set<nat>, was: map<nat, Nodes>, g: nat)
    requires PartlyPublished(before, pooled, rest, was) && g in rest && rest <= pooled.Keys
    requires SortById(pooled[g]) != [] && Group(SortById(pooled[g])[0].id) == g
    ensures CanPublish(MAX_GROUPS, was, SortById(pooled[g])) ==>
      PartlyPublished(before, pooled, rest - {g}, was[g := SortById(pooled[g])])
    ensures !CanPublish(MAX_GROUPS, was, SortById(pooled[g])) ==> !CanPublishAll(MAX_GROUPS, before, pooled)
  {
    hide SortById;
    hide Group;
  }

  lemma AllPublished(s: Store<LatpLon>, pooled: map<nat, Nodes>, now: map<nat, Nodes>)
    requires s.slots == MAX_GROUPS && PartlyPublished(s.published, pooled, {}, now) && pooled == CollectBuffers(s.workers, |s.workers|, s.orphanage)
    ensures CanPublishAll(s.slots, s.published, pooled) && Finalized(s) == Store([], map[], now, s.failed, s.slots)
  {
    hide SortById;
    hide Group;
    hide CanPublish;
    hide CollectBuffers;
  }

  // ----- What at returns -----

  lemma GroupIs(ic: IntCodec, compress: bool, groups: seq<Option<GroupInfo>>, published: map<nat, Nodes>, id: nat)
    requires GoodIntCodec(ic) && GroupsOk(ic, compress, groups, published) && Group(id) < MAX_GROUPS
    ensures |groups| == MAX_GROUPS
    ensures groups[Group(id)].None? ==> Answer(published, id) == None
    ensures groups[Group(id)].Some? ==>
      Group(id) in published && GroupList(published[Group(id)], Group(id)) &&
      groups[Group(id)].value == Layout(ic, compress, Split(published[Group(id)])) &&
      Answer(published, id) == ReadNode(ic, groups[Group(id)].value, id)
  {
    hide GoodIntCodec;
    hide Layout;
    hide Split;
    hide ReadNode;
    hide GroupList;
    hide Lookup;
    hide Group;
    var g := Group(id);
    if g in published {
      LayoutReads(ic, compress, published[g], g, id);
    }
  }

  lemma NoChunkSet(ic: IntCodec, g: GroupInfo, id: nat)
    requires !IsSet(g.chunkMask, ChunkOf(id))
    ensures ReadNode(ic, g, id) == None
  {
    hide IsSet;
    hide ChunkOf;
  }

  /** A chunk that the mask names has an offset, and its node mask decides. */
  lemma ChunkFound(ic: IntCodec, compress: bool, es: Nodes, g: nat, id: nat)
    requires GoodIntCodec(ic) && GroupList(es, g) && Group(id) == g
    requires IsSet(Layout(ic, compress, Split(es)).chunkMask, ChunkOf(id))
    ensures var layout := Layout(ic, compress, Split(es));
            var k := Rank(layout.chunkMask, ChunkOf(id));
            k < |layout.chunkOffsets| && ChunkBase(layout, ChunkOf(id)) == Some(layout.chunkOffsets[k] * 16) &&
            var base := layout.chunkOffsets[k] * 16;
            ReadNode(ic, layout, id) == ReadSlot(ic, layout.area, base, Slot(id)) &&
            (IsSet(NodeMaskAt(layout.area, base), Slot(id)) <==> ReadSlot(ic, layout.area, base, Slot(id)).Some?)
  {
    hide *;
    SplitIsGood(es, g);
    var cs := Split(es);
    var layout := Layout(ic, compress, cs);
    var c := ChunkNamed(ic, compress, cs, g, id);
    ChunkIsReached(ic, compress, cs, g, c, id);
    GoodAreSmall(cs, g);
    var base := |Area(ic, compress, cs[..c])|;
    ChunkReads(ic, compress, layout.area, base, cs[c], Slot(id));
    if Slot(id) in Slots(cs[c]) {
      var k :| 0 <= k < |Slots(cs[c])| && Slots(cs[c])[k] == Slot(id);
      assert ReadSlot(ic, layout.area, base, Slot(id)) == Some(cs[c][k].value);
    }
    BaseIs(layout, ChunkOf(id), base);
  }

  lemma BaseIs(layout: GroupInfo, chunk: index, base: nat)
    requires var k := Rank(layout.chunkMask, chunk);
             IsSet(layout.chunkMask, chunk) && k < |layout.chunkOffsets| && layout.chunkOffsets[k] * CHUNK_ALIGNMENT == base
    ensures ChunkBase(layout, chunk) == Some(layout.chunkOffsets[Rank(layout.chunkMask, chunk)] * 16)
    ensures layout.chunkOffsets[Rank(layout.chunkMask, chunk)] * 16 == base
  {
  }

  lemma ChunkNamed(ic: IntCodec, compress: bool, cs: seq<Nodes>, g: nat, id: nat) returns (c: nat)
    requires GoodChunks(cs, g) && IsSet(Layout(ic, compress, cs).chunkMask, ChunkOf(id))
    ensures c < |cs| && ChunkNumber(cs[c]) == ChunkOf(id)
  {
    hide IsSet;
    hide GoodChunks;
    hide ChunkNumber;
    hide ChunkOf;
    hide Area;
    hide Offset;
    hide MaskFor;
    var numbers := ChunkNumbers(cs);
    MaskForIs(numbers);
    MaskSets(MaskFor(numbers), numbers, ChunkOf(id));
    c :| 0 <= c < |numbers| && numbers[c] == ChunkOf(id);
  }

  /** The two ways of reading a slot. */
  lemma SlotRead(ic: IntCodec, area: seq<octet>, base: nat, slot: index)
    ensures var k := Rank(NodeMaskAt(area, base), slot);
            var decoded := DecodedChunk(ic, area, base);
            if !IsSet(NodeMaskAt(area, base), slot) then ReadSlot(ic, area, base, slot) == None
            else if IsCompressedAt(area, base) then
              ReadSlot(ic, area, base, slot).Some? ==>
                k < |decoded.0| && k < |decoded.1| && ReadSlot(ic, area, base, slot) == Some(LatpLon(decoded.0[k], decoded.1[k]))
            else
              ReadSlot(ic, area, base, slot) ==
                Some(LatpLon(Signed(WordAt(area, base + 36 + 8 * k)), Signed(WordAt(area, base + 40 + 8 * k))))
  {
    hide IsSet;
    hide Rank;
    hide NodeMaskAt;
    hide DecodedChunk;
    hide WordAt;
    hide Signed;
  }

  lemma Needed(g: nat, chunk: index)
    ensures (g * 256 + chunk) / 256 == g && (g * 256 + chunk) % 256 == chunk
  {
  }

  /** The cache names its chunk by the group and the chunk's number in it. */
  lemma CachedIs(ic: IntCodec, groups: seq<Option<GroupInfo>>, g: nat, chunk: index, cached: int, latps: seq<int32>, lons: seq<int32>)
    requires g < |groups| && groups[g].Some? && ChunkBase(groups[g].value, chunk).Some? && cached == g * 256 + chunk
    ensures CacheOk(ic, groups, cached, latps, lons) <==>
      (latps, lons) == DecodedChunk(ic, groups[g].value.area, ChunkBase(groups[g].value, chunk).value)
  {
    hide ChunkBase;
    hide DecodedChunk;
    Needed(g, chunk);
  }
}
