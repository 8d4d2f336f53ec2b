/** Attribute pairs are stored once and named by 32-bit indexes. Popular pairs share a
    small hot shard that each thread copies; the others are spread over shards, and each
    thread remembers some of them. */
module AttributePairs {
  import opened Wrappers
  import opened DequeMap

  const ATTRIBUTE_SHARDS: nat := 16384
  const HOT_CAPACITY: nat := 65536
  const SHARD_CAPACITY: nat := 262144
  const CACHE_SLOTS: nat := 64

  // ----- Indexes -----

  /** (shard << 18) + offset, in 32 bits. */
  function Index(shard: nat, offset: nat): (i: nat)
    ensures i < 0x1_0000_0000
  {
    (shard * SHARD_CAPACITY + offset) % 0x1_0000_0000
  }

  function ShardOf(i: nat): nat {
    i / SHARD_CAPACITY
  }

  function OffsetOf(i: nat): nat {
    i % SHARD_CAPACITY
  }

  /** An index names its place if and only if the offset fits in 18 bits; past that, it
      names a place in the next shard. */
  lemma IndexNamesPlace(shard: nat, offset: nat)
    requires shard < ATTRIBUTE_SHARDS
    ensures ShardOf(Index(shard, offset)) == shard && OffsetOf(Index(shard, offset)) == offset <==> offset < 0x4_0000
    ensures shard + 1 < ATTRIBUTE_SHARDS ==>
      ShardOf(Index(shard, 0x4_0000)) == shard + 1 && OffsetOf(Index(shard, 0x4_0000)) == 0
    ensures SHARD_CAPACITY == 0x4_0000
  {
  }

  /** The places of all 16,384 shards take up the 32 bits. */
  lemma IndexesArePlaces(i: nat)
    requires i < 0x1_0000_0000
    ensures ShardOf(i) < ATTRIBUTE_SHARDS == 16384 && OffsetOf(i) < 0x4_0000 && Index(ShardOf(i), OffsetOf(i)) == i
  {
  }

  // ----- The state -----

  /** What belongs to a pair: a hash, and whether it is a candidate for the hot shard. */
  datatype Traits<!P> = Traits(hash: P -> nat, isHot: P -> bool, sentinel: P)

  /** The shard of a pair that is not hot: by its hash, but never shard 0. */
  function ColdShard(hash: nat): (s: nat)
    ensures 0 < s < ATTRIBUTE_SHARDS
  {
    if hash % ATTRIBUTE_SHARDS != 0 then hash % ATTRIBUTE_SHARDS
    else if hash / 0x100 % ATTRIBUTE_SHARDS != 0 then hash / 0x100 % ATTRIBUTE_SHARDS
    else if hash / 0x1_0000 % ATTRIBUTE_SHARDS != 0 then hash / 0x1_0000 % ATTRIBUTE_SHARDS
    else if hash / 0x100_0000 % ATTRIBUTE_SHARDS != 0 then hash / 0x100_0000 % ATTRIBUTE_SHARDS
    else 1
  }

  /** The low 14 bits of the hash decide, if they are not 0. */
  lemma LowBitsDecide(shard: nat, rest: nat)
    requires 0 < shard < 16384
    ensures ColdShard(16384 * rest + shard) == shard
  {
  }

  /** If they are, then 14 bits from higher up do. */
  lemma HigherBitsDecide(hash: nat, shift: nat)
    requires hash % 16384 == 0 && (shift == 0x100 || shift == 0x1_0000 || shift == 0x100_0000)
    requires shift >= 0x1_0000 ==> hash / 0x100 % 16384 == 0
    requires shift >= 0x100_0000 ==> hash / 0x1_0000 % 16384 == 0
    ensures hash / shift % 16384 != 0 ==> ColdShard(hash) == hash / shift % 16384
    ensures shift == 0x100_0000 && hash / shift % 16384 == 0 ==> ColdShard(hash) == 1
  {
  }

  datatype Cached<P> = Cached(pair: P, index: nat)

  /** hot is the thread's copy of shard 0. cold is the pair that the thread found no room
      for there and is about to look for elsewhere. */
  datatype Thread<P> = Thread(hot: seq<P>, cache: seq<Option<Cached<P>>>, cold: Option<P>)

  /** issued are the answers given so far; failed records the exception for a shard
      that has overflowed. */
  datatype State<P> = State(shards: seq<seq<P>>, threads: seq<Thread<P>>, issued: seq<(P, nat)>, failed: bool)

  ghost function IndexIn<P>(s: seq<P>, p: P): (i: nat)
    requires p in s
    ensures i < |s| && s[i] == p
  {
    if s[0] == p then 0 else 1 + IndexIn(s[1..], p)
  }

  ghost predicate Initial<P>(tr: Traits<P>, s: State<P>) {
    && |s.shards| == ATTRIBUTE_SHARDS && s.shards[0] == [tr.sentinel]
    && (forall k :: 0 < k < ATTRIBUTE_SHARDS ==> s.shards[k] == [])
    && (forall t :: 0 <= t < |s.threads| ==> s.threads[t] == Thread([], seq(CACHE_SLOTS, _ => None), None))
    && s.issued == [] && !s.failed
  }

  // ----- Steps: what a thread does in one critical section, or without a lock -----

  datatype Step<P> =
    | FindInCopy(t: nat, p: P)    // a hot pair found in the thread's copy
    | RefreshCopy(t: nat)         // the copy is brought up to date
    | FindOrAddHot(t: nat, p: P)  // a hot pair looked for, and added if there is room
    | NoRoom(t: nat, p: P)        // a hot pair that is not there when the hot shard is full
    | FindInCache(t: nat, p: P)   // a pair found among those the thread remembers
    | FindOrAddCold(t: nat, p: P) // a pair looked for in its shard, and added

  ghost predicate GoesCold<P>(tr: Traits<P>, s: State<P>, t: nat, p: P)
    requires t < |s.threads|
  {
    !tr.isHot(p) || s.threads[t].cold == Some(p)
  }

  ghost predicate Enabled<P>(tr: Traits<P>, s: State<P>, step: Step<P>) {
    && |s.shards| == ATTRIBUTE_SHARDS && step.t < |s.threads| && |s.threads[step.t].cache| == CACHE_SLOTS
    // The sentinel has no key, and is never asked for.
    && (step.RefreshCopy? || step.p != tr.sentinel)
    && match step
       case FindInCopy(t, p) => tr.isHot(p) && p in s.threads[t].hot
       case RefreshCopy(_) => true
       case FindOrAddHot(_, p) => tr.isHot(p) && (p in s.shards[0] || |s.shards[0]| != HOT_CAPACITY)
       case NoRoom(_, p) => tr.isHot(p) && p !in s.shards[0] && |s.shards[0]| == HOT_CAPACITY
       case FindInCache(t, p) =>
         GoesCold(tr, s, t, p) && var c := s.threads[t].cache[tr.hash(p) % CACHE_SLOTS]; c.Some? && c.value.pair == p
       case FindOrAddCold(t, p) => GoesCold(tr, s, t, p)
  }

  ghost function Issued<P>(s: State<P>, p: P, i: nat): State<P> {
    s.(issued := s.issued + [(p, i)])
  }

  ghost function After<P>(tr: Traits<P>, s: State<P>, step: Step<P>): (r: State<P>)
    requires Enabled(tr, s, step)
  {
    match step
    case FindInCopy(t, p) => Issued(s, p, IndexIn(s.threads[t].hot, p))
    case RefreshCopy(t) => s.(threads := s.threads[t := s.threads[t].(hot := s.shards[0])])
    case FindOrAddHot(t, p) =>
      if p in s.shards[0] then Issued(s, p, Index(0, IndexIn(s.shards[0], p)))
      else Issued(s.(shards := s.shards[0 := s.shards[0] + [p]]), p, Index(0, |s.shards[0]|))
    case NoRoom(t, p) => s.(threads := s.threads[t := s.threads[t].(cold := Some(p))])
    case FindInCache(t, p) =>
      Issued(s.(threads := s.threads[t := s.threads[t].(cold := None)]), p, s.threads[t].cache[tr.hash(p) % CACHE_SLOTS].value.index)
    case FindOrAddCold(t, p) =>
      var k := ColdShard(tr.hash(p));
      var me := s.threads[t].(cold := None);
      if p in s.shards[k] then
        var i := Index(k, IndexIn(s.shards[k], p));
        Issued(s.(threads := s.threads[t := me.(cache := me.cache[tr.hash(p) % CACHE_SLOTS := Some(Cached(p, i))])]), p, i)
      else
        var s' := s.(shards := s.shards[k := s.shards[k] + [p]], threads := s.threads[t := me]);
        if |s.shards[k]| >= SHARD_CAPACITY then s'.(failed := true) else Issued(s', p, Index(k, |s.shards[k]|))
  }

  // ----- The invariant -----

  /** The index names the place where the pair stands. */
  ghost predicate Names<P>(shards: seq<seq<P>>, i: nat, p: P) {
    ShardOf(i) < |shards| && OffsetOf(i) < |shards[ShardOf(i)]| && shards[ShardOf(i)][OffsetOf(i)] == p
  }

  /** The index is that of a place where the pair stands, though beyond the end of a shard's
      part of the indexes it may name another place. */
  ghost predicate PlacedAt<P>(shards: seq<seq<P>>, k: nat, o: nat, i: nat, p: P) {
    k < |shards| && o < |shards[k]| && shards[k][o] == p && i == Index(k, o)
  }

  ghost predicate Placed<P>(shards: seq<seq<P>>, i: nat, p: P) {
    exists k, o :: PlacedAt(shards, k, o, i, p)
  }

  /** A pair is in the hot shard, or in the shard of its hash if it is no candidate or
      the hot shard was full without it. */
  ghost predicate ShardsOk<P>(tr: Traits<P>, shards: seq<seq<P>>) {
    && |shards| == ATTRIBUTE_SHARDS && HotOk(tr, shards[0])
    && (forall k :: 0 <= k < ATTRIBUTE_SHARDS ==> Distinct(shards[k]))
    && (forall k :: 0 < k < ATTRIBUTE_SHARDS ==> ColdOk(tr, shards[0], k, shards[k]))
  }

  ghost predicate HotOk<P>(tr: Traits<P>, hot: seq<P>) {
    && 1 <= |hot| <= HOT_CAPACITY && hot[0] == tr.sentinel
    && forall p :: p in hot ==> p == tr.sentinel || tr.isHot(p)
  }

  ghost predicate ColdOk<P>(tr: Traits<P>, hot: seq<P>, k: int, shard: seq<P>) {
    forall p :: p in shard ==>
      k == ColdShard(tr.hash(p)) && p != tr.sentinel && (tr.isHot(p) ==> p !in hot && |hot| == HOT_CAPACITY)
  }

  ghost predicate ThreadOk<P>(tr: Traits<P>, shards: seq<seq<P>>, t: Thread<P>)
    requires |shards| == ATTRIBUTE_SHARDS
  {
    && t.hot <= shards[0]
    && |t.cache| == CACHE_SLOTS
    && (forall c :: 0 <= c < CACHE_SLOTS && t.cache[c].Some? ==> Placed(shards, t.cache[c].value.index, t.cache[c].value.pair))
    && (t.cold.Some? ==> tr.isHot(t.cold.value) && t.cold.value !in shards[0] && |shards[0]| == HOT_CAPACITY)
  }

  ghost predicate Invariant<P>(tr: Traits<P>, s: State<P>) {
    && ShardsOk(tr, s.shards)
    && (forall t :: 0 <= t < |s.threads| ==> ThreadOk(tr, s.shards, s.threads[t]))
    && (forall j :: 0 <= j < |s.issued| ==> Placed(s.shards, s.issued[j].1, s.issued[j].0) && s.issued[j].0 != tr.sentinel)
    && (!s.failed ==> Roomy(s.shards))
  }

  /** No shard has overflowed. */
  ghost predicate Roomy<P>(shards: seq<seq<P>>) {
    forall k :: 0 <= k < |shards| ==> |shards[k]| <= SHARD_CAPACITY
  }

  lemma PlaceIndex<P>(shards: seq<seq<P>>, k: nat, o: nat, p: P)
    requires k < |shards| && o < |shards[k]| && shards[k][o] == p
    ensures Placed(shards, Index(k, o), p)
  {
    assert PlacedAt(shards, k, o, Index(k, o), p);
  }

  lemma PlacedIsNamed<P>(shards: seq<seq<P>>, i: nat, p: P)
    requires Placed(shards, i, p) && Roomy(shards) && |shards| == ATTRIBUTE_SHARDS
    ensures Names(shards, i, p)
  {
    hide Index;
    var k, o :| PlacedAt(shards, k, o, i, p);
    IndexNamesPlace(k, o);
  }

  ghost function Added<P>(shards: seq<seq<P>>, k: nat, p: P): (r: seq<seq<P>>)
    requires k < |shards|
    ensures |r| == |shards|
  {
    shards[k := shards[k] + [p]]
  }

  /** Adding does not move anything. */
  lemma PlacedStays<P>(shards: seq<seq<P>>, k: nat, p: P, i: nat, q: P)
    requires k < |shards| && Placed(shards, i, q)
    ensures Placed(Added(shards, k, p), i, q)
  {
    hide Index;
    var j, o :| PlacedAt(shards, j, o, i, q);
    assert PlacedAt(Added(shards, k, p), j, o, i, q);
  }

  lemma DistinctMore<P>(s: seq<P>, p: P)
    requires Distinct(s) && p !in s
    ensures Distinct(s + [p])
  {
  }

  lemma HotAdded<P>(tr: Traits<P>, shards: seq<seq<P>>, p: P)
    requires ShardsOk(tr, shards) && tr.isHot(p) && p != tr.sentinel && p !in shards[0] && |shards[0]| != HOT_CAPACITY
    ensures ShardsOk(tr, Added(shards, 0, p))
    ensures forall t: Thread<P> :: ThreadOk(tr, shards, t) ==> ThreadOk(tr, Added(shards, 0, p), t)
  {
    HotShardsOk(tr, shards, p);
    hide *;
    forall t: Thread<P> | ThreadOk(tr, shards, t) ensures ThreadOk(tr, Added(shards, 0, p), t) {
      HotThreadOk(tr, shards, p, t);
    }
  }

  lemma HotShardsOk<P>(tr: Traits<P>, shards: seq<seq<P>>, p: P)
    requires ShardsOk(tr, shards) && tr.isHot(p) && p != tr.sentinel && p !in shards[0] && |shards[0]| != HOT_CAPACITY
    ensures ShardsOk(tr, Added(shards, 0, p)) && |shards| == |Added(shards, 0, p)| == ATTRIBUTE_SHARDS
  {
    hide Distinct, ColdShard;
    DistinctMore(shards[0], p);
    var now := Added(shards, 0, p);
    forall k | 0 <= k < ATTRIBUTE_SHARDS ensures Distinct(now[k]) {
      assert k != 0 ==> now[k] == shards[k];
    }
    forall k | 0 < k < ATTRIBUTE_SHARDS ensures ColdOk(tr, now[0], k, now[k]) {
      assert now[k] == shards[k] && ColdOk(tr, shards[0], k, shards[k]);
    }
    assert HotOk(tr, now[0]);
  }

  lemma HotThreadOk<P>(tr: Traits<P>, shards: seq<seq<P>>, p: P, t: Thread<P>)
    requires |shards| == ATTRIBUTE_SHARDS && ThreadOk(tr, shards, t) && |shards[0]| != HOT_CAPACITY
    ensures ThreadOk(tr, Added(shards, 0, p), t)
  {
    hide Placed;
    var now := Added(shards, 0, p);
    assert shards[0] <= now[0];
    forall c | 0 <= c < CACHE_SLOTS && t.cache[c].Some? ensures Placed(now, t.cache[c].value.index, t.cache[c].value.pair) {
      PlacedStays(shards, 0, p, t.cache[c].value.index, t.cache[c].value.pair);
    }
  }

  lemma ColdAdded<P>(tr: Traits<P>, shards: seq<seq<P>>, p: P)
    requires ShardsOk(tr, shards) && p != tr.sentinel && p !in shards[ColdShard(tr.hash(p))]
    requires tr.isHot(p) ==> p !in shards[0] && |shards[0]| == HOT_CAPACITY
    ensures ShardsOk(tr, Added(shards, ColdShard(tr.hash(p)), p))
    ensures forall t: Thread<P> :: ThreadOk(tr, shards, t) ==> ThreadOk(tr, Added(shards, ColdShard(tr.hash(p)), p), t)
  {
    ColdShardsOk(tr, shards, p);
    hide *;
    forall t: Thread<P> | ThreadOk(tr, shards, t) ensures ThreadOk(tr, Added(shards, ColdShard(tr.hash(p)), p), t) {
      ColdThreadOk(tr, shards, ColdShard(tr.hash(p)), p, t);
    }
  }

  lemma ColdShardsOk<P>(tr: Traits<P>, shards: seq<seq<P>>, p: P)
    requires ShardsOk(tr, shards) && p != tr.sentinel && p !in shards[ColdShard(tr.hash(p))]
    requires tr.isHot(p) ==> p !in shards[0] && |shards[0]| == HOT_CAPACITY
    ensures |shards| == |Added(shards, ColdShard(tr.hash(p)), p)| == ATTRIBUTE_SHARDS
    ensures ShardsOk(tr, Added(shards, ColdShard(tr.hash(p)), p))
  {
    hide Distinct, ColdShard, HotOk;
    var c := ColdShard(tr.hash(p));
    DistinctMore(shards[c], p);
    var now := Added(shards, c, p);
    assert now[0] == shards[0];
    forall k | 0 <= k < ATTRIBUTE_SHARDS ensures Distinct(now[k]) {
      assert k != c ==> now[k] == shards[k];
    }
    forall k | 0 < k < ATTRIBUTE_SHARDS ensures ColdOk(tr, now[0], k, now[k]) {
      assert ColdOk(tr, shards[0], k, shards[k]);
      assert now[k] == if k == c then shards[k] + [p] else shards[k];
    }
  }

  lemma ColdThreadOk<P>(tr: Traits<P>, shards: seq<seq<P>>, k: nat, p: P, t: Thread<P>)
    requires |shards| == ATTRIBUTE_SHARDS && ThreadOk(tr, shards, t) && 0 < k < ATTRIBUTE_SHARDS
    ensures ThreadOk(tr, Added(shards, k, p), t)
  {
    hide Placed;
    var now := Added(shards, k, p);
    assert now[0] == shards[0];
    forall c | 0 <= c < CACHE_SLOTS && t.cache[c].Some? ensures Placed(now, t.cache[c].value.index, t.cache[c].value.pair) {
      PlacedStays(shards, k, p, t.cache[c].value.index, t.cache[c].value.pair);
    }
  }

  /** Every step keeps the invariant; only an overflow ends the promise of room. */
  lemma StepKeeps<P>(tr: Traits<P>, s: State<P>, step: Step<P>)
    requires Invariant(tr, s) && Enabled(tr, s, step)
    ensures Invariant(tr, After(tr, s, step))
  {
    match step {
      case FindOrAddHot(t, p) =>
        hide *;
        HotStepKeeps(tr, s, t, p);
      case FindOrAddCold(t, p) =>
        hide *;
        ColdStepKeeps(tr, s, t, p);
      case _ =>
        hide *;
        ThreadStepKeeps(tr, s, step);
    }
  }

  lemma HotStepKeeps<P>(tr: Traits<P>, s: State<P>, t: nat, p: P)
    requires Invariant(tr, s) && Enabled(tr, s, FindOrAddHot(t, p))
    ensures Invariant(tr, After(tr, s, FindOrAddHot(t, p)))
  {
    hide ShardsOk, Placed, ColdShard, Index, IndexIn;
    Sizes(tr, s.shards);
    if p in s.shards[0] {
      PlaceIndex(s.shards, 0, IndexIn(s.shards[0], p), p);
    } else {
      HotAdded(tr, s.shards, p);
      AllPlacesStay(tr, s, 0, p);
      PlaceIndex(Added(s.shards, 0, p), 0, |s.shards[0]|, p);
    }
  }

  lemma ColdStepKeeps<P>(tr: Traits<P>, s: State<P>, t: nat, p: P)
    requires Invariant(tr, s) && Enabled(tr, s, FindOrAddCold(t, p))
    ensures Invariant(tr, After(tr, s, FindOrAddCold(t, p)))
  {
    hide ShardsOk, Placed, ColdShard, Index, IndexIn;
    Sizes(tr, s.shards);
    var k := ColdShard(tr.hash(p));
    if p in s.shards[k] {
      PlaceIndex(s.shards, k, IndexIn(s.shards[k], p), p);
    } else {
      ColdAdded(tr, s.shards, p);
      AllPlacesStay(tr, s, k, p);
      PlaceIndex(Added(s.shards, k, p), k, |s.shards[k]|, p);
    }
  }

  /** The steps that leave the shards alone. */
  lemma ThreadStepKeeps<P>(tr: Traits<P>, s: State<P>, step: Step<P>)
    requires Invariant(tr, s) && Enabled(tr, s, step) && !step.FindOrAddHot? && !step.FindOrAddCold?
    ensures Invariant(tr, After(tr, s, step))
  {
    hide ShardsOk, Placed, ColdShard, Index, IndexIn;
    Sizes(tr, s.shards);
    if step.FindInCopy? {
      CopyPlaced(tr, s, step.t, step.p);
    }
  }

  lemma Sizes<P>(tr: Traits<P>, shards: seq<seq<P>>)
    requires ShardsOk(tr, shards)
    ensures |shards| == ATTRIBUTE_SHARDS && 1 <= |shards[0]| <= HOT_CAPACITY < SHARD_CAPACITY
  {
    hide Distinct;
  }

  lemma CopyPlaced<P>(tr: Traits<P>, s: State<P>, t: nat, p: P)
    requires Invariant(tr, s) && t < |s.threads| && p in s.threads[t].hot
    ensures var o := IndexIn(s.threads[t].hot, p); Placed(s.shards, o, p)
  {
    hide ShardsOk;
    Sizes(tr, s.shards);
    var o := IndexIn(s.threads[t].hot, p);
    assert ThreadOk(tr, s.shards, s.threads[t]);
    assert s.shards[0][o] == p;
    PlaceIndex(s.shards, 0, o, p);
  }

  lemma AllPlacesStay<P>(tr: Traits<P>, s: State<P>, k: nat, p: P)
    requires Invariant(tr, s) && k < |s.shards|
    ensures forall j :: 0 <= j < |s.issued| ==> Placed(Added(s.shards, k, p), s.issued[j].1, s.issued[j].0)
  {
    hide ShardsOk;
    hide Placed;
    forall j | 0 <= j < |s.issued| ensures Placed(Added(s.shards, k, p), s.issued[j].1, s.issued[j].0) {
      PlacedStays(s.shards, k, p, s.issued[j].1, s.issued[j].0);
    }
  }

  // ----- Runs -----

  ghost predicate IsRun<P>(tr: Traits<P>, states: seq<State<P>>, steps: seq<Step<P>>) {
    && |states| == |steps| + 1 && Initial(tr, states[0])
    && forall j :: 0 <= j < |steps| ==> Enabled(tr, states[j], steps[j]) && states[j + 1] == After(tr, states[j], steps[j])
  }

  lemma {:induction false} EveryRunKeepsInvariant<P>(tr: Traits<P>, states: seq<State<P>>, steps: seq<Step<P>>, j: nat)
    requires IsRun(tr, states, steps) && j < |states|
    ensures Invariant(tr, states[j])
  {
    hide *;
    if j == 0 {
      StartOfRun(tr, states, steps);
      InitialIsGood(tr, states[0]);
    } else {
      StepOfRun(tr, states, steps, j);
      EveryRunKeepsInvariant(tr, states, steps, j - 1);
      StepKeeps(tr, states[j - 1], steps[j - 1]);
    }
  }

  lemma StartOfRun<P>(tr: Traits<P>, states: seq<State<P>>, steps: seq<Step<P>>)
    requires IsRun(tr, states, steps)
    ensures |states| > 0 && Initial(tr, states[0])
  {
    hide Initial, Enabled, After;
  }

  lemma StepOfRun<P>(tr: Traits<P>, states: seq<State<P>>, steps: seq<Step<P>>, j: nat)
    requires IsRun(tr, states, steps) && 0 < j < |states|
    ensures |states| == |steps| + 1 && Enabled(tr, states[j - 1], steps[j - 1]) && states[j] == After(tr, states[j - 1], steps[j - 1])
    ensures states[j - 1].failed ==> states[j].failed
    ensures |states[j].threads| == |states[j - 1].threads|
    ensures states[j - 1].issued <= states[j].issued
  {
    hide ColdShard;
    hide Index;
    hide IndexIn;
  }

  lemma InitialIsGood<P>(tr: Traits<P>, s: State<P>)
    requires Initial(tr, s)
    ensures Invariant(tr, s)
  {
  }

  lemma InOneShard<P>(tr: Traits<P>, shards: seq<seq<P>>, p: P, a: nat, b: nat)
    requires ShardsOk(tr, shards) && p != tr.sentinel && a < |shards| && b < |shards| && p in shards[a] && p in shards[b]
    ensures a == b
  {
    hide ColdShard;
    hide Distinct;
    assert a > 0 ==> a == ColdShard(tr.hash(p)) && (tr.isHot(p) ==> p !in shards[0]);
    assert b > 0 ==> b == ColdShard(tr.hash(p)) && (tr.isHot(p) ==> p !in shards[0]);
    assert p in shards[0] ==> tr.isHot(p);
  }

  /** Places and pairs determine each other. */
  lemma OnePlaceEach<P>(tr: Traits<P>, shards: seq<seq<P>>, i: nat, p: P, j: nat, q: P)
    requires ShardsOk(tr, shards) && Names(shards, i, p) && Names(shards, j, q) && p != tr.sentinel && q != tr.sentinel
    ensures i == j <==> p == q
  {
    hide ColdShard;
    var a, b := ShardOf(i), ShardOf(j);
    if p == q {
      InOneShard(tr, shards, p, a, b);
      assert Distinct(shards[a]);
    }
  }

  /** In every run without an overflow: equal pairs have been given equal indexes, and
      different pairs different ones. */
  lemma EqualIndexesEqualPairs<P>(tr: Traits<P>, states: seq<State<P>>, steps: seq<Step<P>>, j: nat, a: nat, b: nat)
    requires IsRun(tr, states, steps) && j < |states| && !states[j].failed && a < |states[j].issued| && b < |states[j].issued|
    ensures states[j].issued[a].1 == states[j].issued[b].1 <==> states[j].issued[a].0 == states[j].issued[b].0
  {
    hide *;
    EveryRunKeepsInvariant(tr, states, steps, j);
    AnswerIsGood(tr, states[j], a);
    AnswerIsGood(tr, states[j], b);
    OnePlaceEach(tr, states[j].shards, states[j].issued[a].1, states[j].issued[a].0, states[j].issued[b].1, states[j].issued[b].0);
  }

  lemma AnswerIsGood<P>(tr: Traits<P>, s: State<P>, a: nat)
    requires Invariant(tr, s) && !s.failed && a < |s.issued|
    ensures ShardsOk(tr, s.shards) && Names(s.shards, s.issued[a].1, s.issued[a].0) && s.issued[a].0 != tr.sentinel
  {
    hide Placed;
    hide Names;
    hide ThreadOk;
    PlacedIsNamed(s.shards, s.issued[a].1, s.issued[a].0);
  }

  /** getPair: the thread's copy of the hot shard is brought up to date if the index lies
      beyond it. */
  ghost function Got<P>(s: State<P>, t: nat, i: nat): Option<P> {
    if ShardOf(i) == 0 && t < |s.threads| && OffsetOf(i) < |s.threads[t].hot| then Some(s.threads[t].hot[OffsetOf(i)])
    else if ShardOf(i) < |s.shards| && OffsetOf(i) < |s.shards[ShardOf(i)]| then Some(s.shards[ShardOf(i)][OffsetOf(i)])
    else None
  }

  /** An index that was given for a pair yields that pair, from any thread, whatever the
      state of its copy, at any later time. */
  lemma IssuedIsGot<P>(tr: Traits<P>, states: seq<State<P>>, steps: seq<Step<P>>, i: nat, j: nat, a: nat, t: nat)
    requires IsRun(tr, states, steps) && i <= j < |states| && !states[j].failed && a < |states[i].issued| && t < |states[j].threads|
    ensures Got(states[j], t, states[i].issued[a].1) == Some(states[i].issued[a].0)
  {
    hide *;
    EveryRunKeepsInvariant(tr, states, steps, j);
    IssuedStays(tr, states, steps, i, j);
    GotIs(tr, states[j], a, t);
  }

  lemma {:induction false} IssuedStays<P>(tr: Traits<P>, states: seq<State<P>>, steps: seq<Step<P>>, i: nat, j: nat)
    requires IsRun(tr, states, steps) && i <= j < |states|
    ensures states[i].issued <= states[j].issued
  {
    hide *;
    if i < j {
      IssuedStays(tr, states, steps, i, j - 1);
      StepOfRun(tr, states, steps, j);
    }
  }

  lemma GotIs<P>(tr: Traits<P>, s: State<P>, a: nat, t: nat)
    requires Invariant(tr, s) && !s.failed && a < |s.issued| && t < |s.threads|
    ensures Got(s, t, s.issued[a].1) == Some(s.issued[a].0)
  {
    AnswerIsGood(tr, s, a);
    NamedIsGot(tr, s, t, s.issued[a].1, s.issued[a].0);
  }

  lemma NamedIsGot<P>(tr: Traits<P>, s: State<P>, t: nat, i: nat, p: P)
    requires Invariant(tr, s) && t < |s.threads|
    ensures Names(s.shards, i, p) <==> Got(s, t, i) == Some(p)
  {
    Sizes(tr, s.shards);
    hide ShardsOk;
    assert ThreadOk(tr, s.shards, s.threads[t]);
  }

  // ----- Where pairs go -----

  /** In every state of a run: the hot shard has candidates only, at most 65,536 places; any
      other pair is in the shard of its hash, and is no candidate unless the hot shard is
      full without it. */
  lemma PairsAreSpread<P>(tr: Traits<P>, states: seq<State<P>>, steps: seq<Step<P>>, j: nat, k: nat, o: nat)
    requires IsRun(tr, states, steps) && j < |states|
    requires k < |states[j].shards| && o < |states[j].shards[k]| && states[j].shards[k][o] != tr.sentinel
    ensures var s, p := states[j].shards, states[j].shards[k][o];
            if k == 0 then tr.isHot(p) && o < 65536
            else k == ColdShard(tr.hash(p)) < 16384 && (tr.isHot(p) ==> p !in s[0] && |s[0]| == 65536)
  {
    hide *;
    EveryRunKeepsInvariant(tr, states, steps, j);
    SpreadIs(tr, states[j], k, o);
  }

  lemma SpreadIs<P>(tr: Traits<P>, s: State<P>, k: nat, o: nat)
    requires Invariant(tr, s) && k < |s.shards| && o < |s.shards[k]| && s.shards[k][o] != tr.sentinel
    ensures var p := s.shards[k][o];
            if k == 0 then tr.isHot(p) && o < 65536
            else k == ColdShard(tr.hash(p)) < 16384 && (tr.isHot(p) ==> p !in s.shards[0] && |s.shards[0]| == 65536)
  {
    hide ThreadOk, Placed, ColdShard, Distinct;
    assert k > 0 ==> ColdOk(tr, s.shards[0], k, s.shards[k]);
    assert s.shards[k][o] in s.shards[k];
  }

  /** A thread remembers a pair that it found in a shard, in one of 64 slots by its hash,
      until it finds another pair of that slot. */
  lemma RememberedUntilReplaced<P>(tr: Traits<P>, s: State<P>, step: Step<P>, t: nat, c: nat)
    requires Enabled(tr, s, step) && t < |s.threads| && c < |s.threads[t].cache|
    ensures var after := After(tr, s, step);
            if step.FindOrAddCold? && step.t == t && c == tr.hash(step.p) % 64 && step.p in s.shards[ColdShard(tr.hash(step.p))]
            then after.threads[t].cache[c].Some? && after.threads[t].cache[c].value.pair == step.p
            else after.threads[t].cache[c] == s.threads[t].cache[c]
  {
    hide ColdShard, Index;
  }

  // ----- After an overflow -----

  /** An answer names its pair if and only if the pair stands within its shard's part of
      the indexes. */
  lemma NamedIfWithin<P>(tr: Traits<P>, shards: seq<seq<P>>, k: nat, o: nat, i: nat, p: P)
    requires ShardsOk(tr, shards) && PlacedAt(shards, k, o, i, p) && p != tr.sentinel
    ensures Names(shards, i, p) <==> o < 0x4_0000
  {
    IndexNamesPlace(k, o);
    hide Index, ColdShard;
    if Names(shards, i, p) {
      InOneShard(tr, shards, p, k, ShardOf(i));
      assert Distinct(shards[k]);
    }
  }

  /** In every run, also when it goes on after an overflow: the pair of each answer has one
      place, and the answer yields the pair, to any thread, exactly if the offset of that
      place is below 2^18. */
  lemma AnswerYieldsPair<P>(tr: Traits<P>, states: seq<State<P>>, steps: seq<Step<P>>, j: nat, a: nat, t: nat) returns (k: nat, o: nat)
    requires IsRun(tr, states, steps) && j < |states| && a < |states[j].issued| && t < |states[j].threads|
    ensures PlacedAt(states[j].shards, k, o, states[j].issued[a].1, states[j].issued[a].0)
    ensures Got(states[j], t, states[j].issued[a].1) == Some(states[j].issued[a].0) <==> o < 0x4_0000
  {
    hide *;
    EveryRunKeepsInvariant(tr, states, steps, j);
    k, o := PlaceOfAnswer(tr, states[j], a);
    NamedIfWithin(tr, states[j].shards, k, o, states[j].issued[a].1, states[j].issued[a].0);
    NamedIsGot(tr, states[j], t, states[j].issued[a].1, states[j].issued[a].0);
  }

  lemma PlaceOfAnswer<P>(tr: Traits<P>, s: State<P>, a: nat) returns (k: nat, o: nat)
    requires Invariant(tr, s) && a < |s.issued|
    ensures ShardsOk(tr, s.shards) && s.issued[a].0 != tr.sentinel
    ensures PlacedAt(s.shards, k, o, s.issued[a].1, s.issued[a].0)
  {
    hide ShardsOk, ThreadOk;
    k, o :| PlacedAt(s.shards, k, o, s.issued[a].1, s.issued[a].0);
  }

  /** A pair that is not in its full shard is refused when it is added first, and given an
      index when it is added next; the index yields the first pair of the next shard. */
  lemma OverflowAliases<P>(tr: Traits<P>, s: State<P>, t: nat, u: nat, v: nat, p: P)
    requires Invariant(tr, s) && !s.failed && Enabled(tr, s, FindOrAddCold(t, p)) && v < |s.threads|
    requires Enabled(tr, After(tr, s, FindOrAddCold(t, p)), FindOrAddCold(u, p))
    requires var k := ColdShard(tr.hash(p));
             |s.shards[k]| == SHARD_CAPACITY && p !in s.shards[k] && k + 1 < ATTRIBUTE_SHARDS && |s.shards[k + 1]| > 0
    ensures var first := After(tr, s, FindOrAddCold(t, p));
            var second := After(tr, first, FindOrAddCold(u, p));
            var k := ColdShard(tr.hash(p));
            first.failed && first.issued == s.issued &&
            exists i :: second.issued == s.issued + [(p, i)] && Got(second, v, i) == Some(s.shards[k + 1][0]) && s.shards[k + 1][0] != p
  {
    var k := ColdShard(tr.hash(p));
    var first := After(tr, s, FindOrAddCold(t, p));
    var second := After(tr, first, FindOrAddCold(u, p));
    StepKeeps(tr, s, FindOrAddCold(t, p));
    StepKeeps(tr, first, FindOrAddCold(u, p));
    FoundBehind(s.shards[k], p);
    IndexNamesPlace(k, SHARD_CAPACITY);
    hide Invariant, ColdShard, Index;
    var i := Index(k, SHARD_CAPACITY);
    assert second.issued == s.issued + [(p, i)];
    NamedIsGot(tr, second, v, i, s.shards[k + 1][0]);
    OtherShard(tr, s, k + 1, p);
  }

  lemma FoundBehind<P>(s: seq<P>, p: P)
    requires p !in s
    ensures p in s + [p] && IndexIn(s + [p], p) == |s|
  {
    assert (s + [p])[|s|] == p;
  }

  lemma OtherShard<P>(tr: Traits<P>, s: State<P>, k: nat, p: P)
    requires Invariant(tr, s) && 0 < k < ATTRIBUTE_SHARDS && k != ColdShard(tr.hash(p)) && |s.shards[k]| > 0
    ensures s.shards[k][0] != p
  {
    hide ColdShard, ThreadOk, Placed;
  }
}
