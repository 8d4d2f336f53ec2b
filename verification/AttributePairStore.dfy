/** The store of attribute pairs, as one thread sees it between the steps of others. */
module AttributePairStore {
  import opened Wrappers
  import opened DequeMap
  import opened AttributePairs

  /** These steps lead from s to t. */
  ghost predicate Leads<P>(tr: Traits<P>, s: State<P>, steps: seq<Step<P>>, t: State<P>)
    decreases |steps|
  {
    if steps == [] then s == t else Enabled(tr, s, steps[0]) && Leads(tr, After(tr, s, steps[0]), steps[1..], t)
  }

  lemma {:induction false} LeadsOn<P>(tr: Traits<P>, s: State<P>, steps: seq<Step<P>>, m: State<P>, step: Step<P>)
    requires Leads(tr, s, steps, m) && Enabled(tr, m, step)
    ensures Leads(tr, s, steps + [step], After(tr, m, step))
    decreases |steps|
  {
    hide Enabled;
    hide After;
    var all := steps + [step];
    if steps == [] {
      assert all[1..] == [];
      assert Leads(tr, After(tr, m, step), all[1..], After(tr, m, step));
    } else {
      LeadsOn(tr, After(tr, s, steps[0]), steps[1..], m, step);
      assert all[1..] == steps[1..] + [step];
    }
  }

  /** Steps in a row keep the invariant, also when one of them is an overflow. */
  lemma {:induction false} LeadingKeeps<P>(tr: Traits<P>, s: State<P>, steps: seq<Step<P>>, t: State<P>)
    requires Leads(tr, s, steps, t) && Invariant(tr, s)
    ensures Invariant(tr, t)
    decreases |steps|
  {
    hide Invariant, Enabled, After;
    if steps != [] {
      StepKeeps(tr, s, steps[0]);
      LeadingKeeps(tr, After(tr, s, steps[0]), steps[1..], t);
    }
  }

  /** Where a map finds a pair is where it stands. */
  lemma FoundIs<P(!new)>(less: (P, P) -> bool, m: Keyed<P>, p: P, index: nat)
    requires Good(less, m) && index < |m.objects| && m.objects[index] == p
    ensures p in m.objects && IndexIn(m.objects, p) == index
  {
    ObjectsAreDistinct(less, m);
    assert m.objects[IndexIn(m.objects, p)] == p;
  }

  class AttributePairStore<P(==, !new)> {
    const tr: Traits<P>
    const less: (P, P) -> bool
    var pairs: seq<DequeMap<P>>
    // What each thread keeps: a copy of the hot shard, and a cache of pairs.
    var hotCopies: seq<Keyed<P>>
    var caches: seq<seq<Option<Cached<P>>>>
    // Pairs that threads found no room for in the hot shard.
    ghost var colds: seq<Option<P>>
    ghost var issued: seq<(P, nat)>
    ghost var failed: bool

    ghost predicate Valid()
      reads this, pairs
    {
      && |pairs| == ATTRIBUTE_SHARDS
      && (forall j, k :: 0 <= j < k < |pairs| ==> pairs[j] != pairs[k])
      && (forall k :: 0 <= k < |pairs| ==> ShardValid(k))
      && |pairs[0].content.objects| <= HOT_CAPACITY
      && |hotCopies| == |caches| == |colds|
      && (forall t :: 0 <= t < |hotCopies| ==> Good(less, hotCopies[t]) && |caches[t]| == CACHE_SLOTS)
    }

    ghost predicate ShardValid(k: nat)
      requires k < |pairs|
      reads this, pairs
    {
      pairs[k].Valid() && pairs[k].less == less && pairs[k].maxSize == if k == 0 then HOT_CAPACITY else 0
    }

    ghost function Shards(): (r: seq<seq<P>>)
      reads this, pairs
      ensures |r| == |pairs|
    {
      seq(|pairs|, k requires 0 <= k < |pairs| reads this, pairs => pairs[k].content.objects)
    }

    ghost function Threads(): (r: seq<Thread<P>>)
      requires |hotCopies| == |caches| == |colds|
      reads this
      ensures |r| == |hotCopies|
    {
      seq(|hotCopies|, t requires 0 <= t < |hotCopies| == |caches| == |colds| reads this =>
        Thread(hotCopies[t].objects, caches[t], colds[t]))
    }

    ghost function View(): State<P>
      requires Valid()
      reads this, pairs
    {
      State(Shards(), Threads(), issued, failed)
    }

    constructor (tr: Traits<P>, less: (P, P) -> bool, threads: nat)
      requires TotalOrder(less)
      ensures Valid() && fresh(pairs) && Initial(tr, View()) && |View().threads| == threads
      ensures this.tr == tr && this.less == less
    {
      this.tr, this.less := tr, less;
      hotCopies := seq(threads, _ => Keyed([], []));
      caches := seq(threads, _ => seq(CACHE_SLOTS, _ => None));
      colds := seq(threads, _ => None);
      issued, failed := [], false;
      NothingKept(less);
      pairs := [];
      new;
      hide Good;
      pairs := EmptyShards(less, tr.sentinel);
      forall k | 0 <= k < |pairs| ensures ShardValid(k) {
      }
    }

    // ----- What a thread looks at and changes -----

    /** DequeMap::find in the thread's copy of the hot shard. */
    method FindInHotCopy(t: nat, pair: P) returns (index: int)
      requires Valid() && t < |View().threads|
      ensures pair in View().threads[t].hot ==> index == IndexIn(View().threads[t].hot, pair)
      ensures pair !in View().threads[t].hot ==> index == -1
    {
      hide Good, IndexIn;
      index := Find(less, hotCopies[t], pair);
      if index != -1 {
        FoundIs(less, hotCopies[t], pair, index);
      }
    }

    /** DequeMap::find in a shard. */
    method FindInShard(k: nat, pair: P) returns (index: int)
      requires Valid() && k < |View().shards|
      ensures pair in View().shards[k] ==> index == IndexIn(View().shards[k], pair)
      ensures pair !in View().shards[k] ==> index == -1
    {
      hide Good, IndexIn;
      assert ShardValid(k);
      index := Find(less, pairs[k].content, pair);
      if index != -1 {
        FoundIs(less, pairs[k].content, pair, index);
      }
    }

    /** DequeMap::full, of the hot shard and of the thread's copy. */
    method HotIsFull() returns (full: bool)
      requires Valid()
      ensures full <==> |View().shards[0]| == HOT_CAPACITY
    {
      hide Good;
      assert ShardValid(0);
      full := pairs[0].Full();
    }

    method CopyIsFull(t: nat) returns (full: bool)
      requires Valid() && t < |View().threads|
      ensures full <==> |View().threads[t].hot| == HOT_CAPACITY
    {
      hide Good;
      full := |hotCopies[t].objects| == HOT_CAPACITY;
    }

    /** DequeMap::add in a shard that does not have the pair and is not full. */
    method AddTo(k: nat, pair: P) returns (offset: nat)
      requires Valid() && k < |View().shards| && pair !in View().shards[k] && (k == 0 ==> |View().shards[0]| < HOT_CAPACITY)
      modifies pairs
      ensures Valid() && offset == old(|View().shards[k]|)
      ensures View() == old(View()).(shards := old(View().shards)[k := old(View().shards[k]) + [pair]])
    {
      hide Good;
      ghost var before := Shards();
      assert ShardValid(k) && before[k] == pairs[k].content.objects && before[0] == pairs[0].content.objects;
      var index := pairs[k].Add(pair);
      offset := index;
      forall j | 0 <= j < |pairs| ensures ShardValid(j) && (j != k ==> pairs[j].content == old(pairs[j].content)) {
        assert old(ShardValid(j));
      }
      assert Shards() == before[k := before[k] + [pair]];
    }

    method RefreshHot(t: nat)
      requires Valid() && t < |View().threads|
      modifies this`hotCopies
      ensures Valid()
      ensures var s := old(View()); View() == s.(threads := s.threads[t := s.threads[t].(hot := s.shards[0])])
    {
      hide Good;
      ghost var before := Threads();
      assert ShardValid(0);
      forall k | 0 <= k < |pairs| ensures old(ShardValid(k)) {
      }
      hotCopies := hotCopies[t := pairs[0].content];
      forall k | 0 <= k < |pairs| ensures ShardValid(k) {
        assert old(ShardValid(k));
      }
      assert Shards() == old(Shards());
      assert Threads() == before[t := before[t].(hot := Shards()[0])];
    }

    ghost method SetCold(t: nat, cold: Option<P>)
      requires Valid() && t < |View().threads|
      modifies this`colds
      ensures Valid()
      ensures var s := old(View()); View() == s.(threads := s.threads[t := s.threads[t].(cold := cold)])
    {
      hide Good;
      var before := Threads();
      colds := colds[t := cold];
      forall k | 0 <= k < |pairs| ensures ShardValid(k) {
        assert old(ShardValid(k));
      }
      assert Shards() == old(Shards());
      assert Threads() == before[t := before[t].(cold := cold)];
    }

    method SetCached(t: nat, slot: nat, pair: P, index: nat)
      requires Valid() && t < |View().threads| && slot < |View().threads[t].cache|
      modifies this`caches
      ensures Valid()
      ensures var s := old(View());
              View() == s.(threads := s.threads[t := s.threads[t].(cache := s.threads[t].cache[slot := Some(Cached(pair, index))])])
    {
      hide Good;
      ghost var before := Threads();
      caches := caches[t := caches[t][slot := Some(Cached(pair, index))]];
      forall k | 0 <= k < |pairs| ensures ShardValid(k) {
        assert old(ShardValid(k));
      }
      assert Shards() == old(Shards());
      assert Threads() == before[t := before[t].(cache := before[t].cache[slot := Some(Cached(pair, index))])];
    }

    ghost method Answered(pair: P, index: nat)
      requires Valid()
      modifies this`issued
      ensures Valid() && issued == old(issued) + [(pair, index)]
      ensures View() == Issued(old(View()), pair, index)
    {
      hide Good;
      issued := issued + [(pair, index)];
      SameMaps();
    }

    ghost method Overflowed()
      requires Valid()
      modifies this`failed
      ensures Valid() && failed && View() == old(View()).(failed := true)
    {
      hide Good;
      failed := true;
      SameMaps();
    }

    twostate lemma SameMaps()
      requires old(Valid()) && unchanged(`pairs) && unchanged(`hotCopies) && unchanged(`caches) && unchanged(`colds) && unchanged(pairs)
      ensures Valid() && Shards() == old(Shards()) && Threads() == old(Threads())
    {
      hide Good;
      forall k | 0 <= k < |pairs| ensures ShardValid(k) {
        assert old(ShardValid(k));
      }
    }

    lemma ViewIs()
      requires Valid()
      ensures |View().shards| == ATTRIBUTE_SHARDS && View().issued == issued && View().failed == failed
      ensures |View().shards[0]| <= HOT_CAPACITY
      ensures forall t :: 0 <= t < |View().threads| ==> |View().threads[t].cache| == CACHE_SLOTS
    {
      hide Good;
    }

    // ----- The two operations -----

    /** None where the program throws. */
    method AddPair(t: nat, pair: P) returns (r: Option<nat>, ghost steps: seq<Step<P>>)
      requires Valid() && t < |View().threads| && pair != tr.sentinel
      modifies this, pairs
      ensures Valid() && pairs == old(pairs) && Leads(tr, old(View()), steps, View())
      ensures r.Some? ==> issued == old(issued) + [(pair, r.value)] && failed == old(failed)
      ensures r.None? ==> failed
    {
      hide Leads, Valid, View;
      steps := [];
      ghost var s := View();
      NoSteps(tr, s);
      if tr.isHot(pair) {
        r, steps := AddHotPair(t, pair, s, steps);
        if r.Some? {
          return;
        }
      }
      r, steps := AddColdPair(t, pair, s, steps);
    }

    /** None if the hot shard is full without the pair. */
    method AddHotPair(t: nat, pair: P, ghost s: State<P>, ghost before: seq<Step<P>>) returns (r: Option<nat>, ghost steps: seq<Step<P>>)
      requires Valid() && t < |View().threads| && pair != tr.sentinel && tr.isHot(pair) && Leads(tr, s, before, View())
      modifies this, pairs
      ensures Valid() && pairs == old(pairs) && Leads(tr, s, steps, View()) && failed == old(failed)
      ensures r.Some? ==> issued == old(issued) + [(pair, r.value)]
      ensures r.None? ==> issued == old(issued) && t < |View().threads| && GoesCold(tr, View(), t, pair)
    {
      hide Leads, IndexIn, Valid, View;
      ViewIs();
      steps := before;
      var index := FindInHotCopy(t, pair);
      if index != -1 {
        steps := Took(s, steps, FindInCopy(t, pair));
        Answered(pair, index);
        return Some(index), steps;
      }
      var full := CopyIsFull(t);
      if !full {
        steps := Took(s, steps, RefreshCopy(t));
        RefreshHot(t);
      }
      r, steps := FindOrAddHotPair(t, pair, s, steps);
    }

    method FindOrAddHotPair(t: nat, pair: P, ghost s: State<P>, ghost before: seq<Step<P>>) returns (r: Option<nat>, ghost steps: seq<Step<P>>)
      requires Valid() && t < |View().threads| && pair != tr.sentinel && tr.isHot(pair) && Leads(tr, s, before, View())
      modifies this, pairs
      ensures Valid() && pairs == old(pairs) && Leads(tr, s, steps, View()) && failed == old(failed)
      ensures r.Some? ==> issued == old(issued) + [(pair, r.value)]
      ensures r.None? ==> issued == old(issued) && t < |View().threads| && GoesCold(tr, View(), t, pair)
    {
      hide Leads, IndexIn, Index, Valid, View;
      ViewIs();
      steps := before;
      var index := FindInShard(0, pair);
      if index != -1 {
        steps := Took(s, steps, FindOrAddHot(t, pair));
        index := Index(0, index);
        Answered(pair, index);
        return Some(index), steps;
      }
      var full := HotIsFull();
      if full {
        steps := Took(s, steps, NoRoom(t, pair));
        SetCold(t, Some(pair));
        return None, steps;
      }
      steps := Took(s, steps, FindOrAddHot(t, pair));
      var offset := AddTo(0, pair);
      index := Index(0, offset);
      Answered(pair, index);
      r := Some(index);
    }

    /** The pile of the other pairs. */
    method AddColdPair(t: nat, pair: P, ghost s: State<P>, ghost before: seq<Step<P>>) returns (r: Option<nat>, ghost steps: seq<Step<P>>)
      requires Valid() && t < |View().threads| && pair != tr.sentinel
      requires GoesCold(tr, View(), t, pair) && Leads(tr, s, before, View())
      modifies this, pairs
      ensures Valid() && pairs == old(pairs) && Leads(tr, s, steps, View())
      ensures r.Some? ==> issued == old(issued) + [(pair, r.value)] && failed == old(failed)
      ensures r.None? ==> failed
    {
      hide Leads, IndexIn, Valid, View, ColdShard;
      ViewIs();
      var candidateIndex := tr.hash(pair) % CACHE_SLOTS;
      var candidate := CachedAt(t, candidateIndex);
      if candidate.Some? && candidate.value.pair == pair {
        steps := Took(s, before, FindInCache(t, pair));
        SetCold(t, None);
        Answered(pair, candidate.value.index);
        return Some(candidate.value.index), steps;
      }
      var shard := PickShard(pair);
      steps := Took(s, before, FindOrAddCold(t, pair));
      ghost var threads := View().threads;
      SetCold(t, None);
      var index := FindInShard(shard, pair);
      if index != -1 {
        var rv := Index(shard, index);
        SetCached(t, candidateIndex, pair, rv);
        UpdatedTwice(threads, t, threads[t].(cold := None), View().threads[t]);
        Answered(pair, rv);
        return Some(rv), steps;
      }
      var offset := AddTo(shard, pair);
      if offset >= SHARD_CAPACITY {
        Overflowed();
        return None, steps;
      }
      Answered(pair, Index(shard, offset));
      r := Some(Index(shard, offset));
    }

    /** The shard by the pair's hash; shard 0 is for hot pairs. */
    method PickShard(pair: P) returns (shard: nat)
      ensures shard == ColdShard(tr.hash(pair))
    {
      var hash := tr.hash(pair);
      shard := hash % ATTRIBUTE_SHARDS;
      if shard == 0 {
        shard := hash / 0x100 % ATTRIBUTE_SHARDS;
      }
      if shard == 0 {
        shard := hash / 0x1_0000 % ATTRIBUTE_SHARDS;
      }
      if shard == 0 {
        shard := hash / 0x100_0000 % ATTRIBUTE_SHARDS;
      }
      if shard == 0 {
        shard := 1;
      }
    }

    method CachedAt(t: nat, slot: nat) returns (c: Option<Cached<P>>)
      requires Valid() && t < |View().threads| && slot < |View().threads[t].cache|
      ensures c == View().threads[t].cache[slot]
    {
      hide Good;
      c := caches[t][slot];
    }

    /** One more step from here. */
    ghost method Took(s: State<P>, steps: seq<Step<P>>, step: Step<P>) returns (more: seq<Step<P>>)
      requires Valid() && Leads(tr, s, steps, View()) && Enabled(tr, View(), step)
      ensures Leads(tr, s, more, After(tr, View(), step))
    {
      hide Leads;
      LeadsOn(tr, s, steps, View(), step);
      more := steps + [step];
    }

    /** The pair of an index; the thread's copy is renewed if it falls short. */
    method GetPair(t: nat, i: nat) returns (p: P)
      requires Valid() && t < |View().threads| && Got(View(), t, i).Some?
      modifies this`hotCopies
      ensures Valid() && Some(p) == old(Got(View(), t, i))
      ensures var s := old(View());
              View() == s || View() == s.(threads := s.threads[t := s.threads[t].(hot := s.shards[0])])
    {
      hide Good;
      var shard, offset := ShardOf(i), OffsetOf(i);
      if shard == 0 {
        if offset < |hotCopies[t].objects| {
          return hotCopies[t].objects[offset];
        }
        RefreshHot(t);
        assert View().threads[t].hot == hotCopies[t].objects;
        return hotCopies[t].objects[offset];
      }
      p := pairs[shard].content.objects[offset];
    }
  }

  /** The hot shard, with the sentinel, and the others. */
  method EmptyShards<P(==, !new)>(less: (P, P) -> bool, sentinel: P) returns (pairs: seq<DequeMap<P>>)
    requires TotalOrder(less)
    ensures |pairs| == ATTRIBUTE_SHARDS && fresh(pairs) && pairs[0].content.objects == [sentinel]
    ensures forall j, k :: 0 <= j < k < |pairs| ==> pairs[j] != pairs[k]
    ensures forall k :: 0 <= k < |pairs| ==>
      pairs[k].Valid() && pairs[k].less == less && (k > 0 ==> pairs[k].content.objects == []) &&
      pairs[k].maxSize == if k == 0 then HOT_CAPACITY else 0
  {
    hide Good, TotalOrder;
    var hot := new DequeMap<P>(less, HOT_CAPACITY);
    var _ := hot.Add(sentinel);
    pairs := [hot];
    while |pairs| < ATTRIBUTE_SHARDS
      invariant 1 <= |pairs| <= ATTRIBUTE_SHARDS && fresh(pairs) && pairs[0].content.objects == [sentinel]
      invariant forall j, k :: 0 <= j < k < |pairs| ==> pairs[j] != pairs[k]
      invariant forall k :: 0 <= k < |pairs| ==>
        pairs[k].Valid() && pairs[k].less == less && (k > 0 ==> pairs[k].content.objects == []) &&
        pairs[k].maxSize == if k == 0 then HOT_CAPACITY else 0
    {
      var shard := new DequeMap<P>(less, 0);
      pairs := pairs + [shard];
    }
  }

  lemma UpdatedTwice<T>(s: seq<T>, i: nat, a: T, b: T)
    requires i < |s|
    ensures s[i := a][i := b] == s[i := b]
  {
  }

  lemma NothingKept<P(!new)>(less: (P, P) -> bool)
    requires TotalOrder(less)
    ensures Good<P>(less, Keyed([], []))
  {
  }

  lemma NoSteps<P>(tr: Traits<P>, s: State<P>)
    ensures Leads(tr, s, [], s)
  {
  }

  /** Adding a pair gives it an index that names it, and keeps everything else in order. */
  lemma AddedPairIsNamed<P>(tr: Traits<P>, s: State<P>, steps: seq<Step<P>>, t: State<P>, p: P, i: nat)
    requires Invariant(tr, s) && Leads(tr, s, steps, t) && !t.failed && t.issued == s.issued + [(p, i)]
    ensures Invariant(tr, t) && Names(t.shards, i, p)
  {
    hide *;
    LeadingKeeps(tr, s, steps, t);
    AnswerIsGood(tr, t, |s.issued|);
  }
}
