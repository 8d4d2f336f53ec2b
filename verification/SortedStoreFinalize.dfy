/** The end of filling a store: what is left in the buffers and in the orphanage is
    sorted and published. */
module SortedStoreFinalize {
  import opened SortedStoreProtocol

  /** The orphanage once the first n buffers have been added to it. */
  function CollectBuffers<V>(workers: seq<Worker<V>>, n: nat, orphanage: map<nat, seq<Element<V>>>): map<nat, seq<Element<V>>>
    requires n <= |workers|
  {
    if n == 0 then orphanage
    else
      var o := CollectBuffers(workers, n - 1, orphanage);
      if workers[n - 1].local == [] then o else CollectOrphans(o, workers[n - 1].local)
  }

  function Insertion<V>(e: Element<V>, es: seq<Element<V>>): seq<Element<V>> {
    if es == [] || e.id < es[0].id then [e] + es else [es[0]] + Insertion(e, es[1..])
  }

  /** std::sort by id. */
  function SortById<V>(es: seq<Element<V>>): seq<Element<V>> {
    if es == [] then [] else Insertion(es[0], SortById(es[1..]))
  }

  ghost predicate Ascending<V>(es: seq<Element<V>>) {
    forall j, k :: 0 <= j < k < |es| ==> es[j].id < es[k].id
  }

  ghost predicate CanPublishAll<V>(slots: nat, published: map<nat, seq<Element<V>>>, orphanage: map<nat, seq<Element<V>>>) {
    forall g :: g in orphanage ==> CanPublish(slots, published, SortById(orphanage[g])) && Group(SortById(orphanage[g])[0].id) == g
  }

  ghost function Finalized<V>(s: Store<V>): Store<V> {
    var orphanage := CollectBuffers(s.workers, |s.workers|, s.orphanage);
    if CanPublishAll(s.slots, s.published, orphanage) then
      Store([], map[], s.published + map g | g in orphanage :: SortById(orphanage[g]), s.failed, s.slots)
    else Store([], map[], s.published, true, s.slots)
  }

  // ----- Sorting -----

  lemma {:induction false} InsertionKeeps<V>(e: Element<V>, es: seq<Element<V>>)
    requires Ascending(es) && forall k :: 0 <= k < |es| ==> es[k].id != e.id
    ensures Ascending(Insertion(e, es)) && SetOf(Insertion(e, es)) == {e} + SetOf(es)
    ensures |Insertion(e, es)| == |es| + 1
  {
    hide SetOf;
    if es == [] || e.id < es[0].id {
      LeastFirst(e, es);
    } else {
      var rest := Insertion(e, es[1..]);
      InsertionKeeps(e, es[1..]);
      assert [es[0]] + es[1..] == es;
      LeastFirst(es[0], es[1..]);
      forall k | 0 <= k < |rest| ensures es[0].id < rest[k].id {
        InSetOf(rest, rest[k]);
        InSetOf(es[1..], rest[k]);
      }
      LeastFirst(es[0], rest);
    }
  }

  lemma InSetOf<V>(es: seq<Element<V>>, x: Element<V>)
    ensures x in SetOf(es) <==> x in es
  {
  }

  lemma LeastFirst<V>(e: Element<V>, es: seq<Element<V>>)
    requires Ascending(es) && forall k :: 0 <= k < |es| ==> e.id < es[k].id
    ensures Ascending([e] + es) && SetOf([e] + es) == {e} + SetOf(es)
  {
    SetOfConcat([e], es);
    SetOfOne(e);
  }

  lemma SetOfOne<V>(e: Element<V>)
    ensures SetOf([e]) == {e}
  {
    assert [e][0] in SetOf([e]);
  }

  ghost predicate DistinctIds<V>(es: seq<Element<V>>) {
    forall j, k :: 0 <= j < k < |es| ==> es[j].id != es[k].id
  }

  lemma {:induction false} SortByIdSorts<V>(es: seq<Element<V>>)
    requires DistinctIds(es)
    ensures Ascending(SortById(es)) && SetOf(SortById(es)) == SetOf(es) && |SortById(es)| == |es|
  {
    if es != [] {
      SortByIdSorts(es[1..]);
      var rest := SortById(es[1..]);
      forall k | 0 <= k < |rest| ensures rest[k].id != es[0].id {
        assert rest[k] in SetOf(rest);
      }
      InsertionKeeps(es[0], rest);
      SetOfConcat([es[0]], es[1..]);
      SetOfOne(es[0]);
      assert [es[0]] + es[1..] == es;
    }
  }

  /** Two ascending lists of the same elements are equal. */
  lemma {:induction false} AscendingUnique<V>(a: seq<Element<V>>, b: seq<Element<V>>)
    requires Ascending(a) && Ascending(b) && SetOf(a) == SetOf(b)
    ensures a == b
  {
    NoElements(a);
    NoElements(b);
    if a != [] {
      assert a[0] in SetOf(b);
      FirstIsLeast(a, b);
      FirstIsLeast(b, a);
      AscendingRest(a);
      AscendingRest(b);
      AscendingUnique(a[1..], b[1..]);
      assert a == [a[0]] + a[1..] && b == [b[0]] + b[1..];
    }
  }

  lemma NoElements<V>(a: seq<Element<V>>)
    ensures SetOf(a) == {} <==> a == []
  {
    if a != [] {
      assert a[0] in SetOf(a);
    }
  }

  lemma FirstIsLeast<V>(a: seq<Element<V>>, b: seq<Element<V>>)
    requires Ascending(a) && a != [] && SetOf(b) == SetOf(a)
    ensures b != [] && a[0].id <= b[0].id
    ensures Ascending(b) ==> a[0] == b[0]
  {
    assert a[0] in SetOf(a);
    assert b[0] in SetOf(b);
    var j :| 0 <= j < |a| && a[j] == b[0];
    var k :| 0 <= k < |b| && b[k] == a[0];
  }

  lemma AscendingRest<V>(a: seq<Element<V>>)
    requires Ascending(a) && a != []
    ensures Ascending(a[1..]) && SetOf(a[1..]) == SetOf(a) - {a[0]}
  {
    forall e | e in SetOf(a) - {a[0]} ensures e in SetOf(a[1..]) {
      var j :| 0 <= j < |a| && a[j] == e;
      assert a[1..][j - 1] == e;
    }
    forall e | e in SetOf(a[1..]) ensures e in SetOf(a) - {a[0]} {
      var j :| 0 <= j < |a[1..]| && a[1..][j] == e;
      assert a[j + 1] == e;
    }
  }

  // ----- The buffers -----

  ghost function AllHandedIn<V>(r: Run<V>, n: nat): (s: Run<V>)
    requires n <= |r.store.workers|
    ensures |s.store.workers| == |r.store.workers| && |s.progress| == |r.progress|
  {
    if n == 0 then r else HandedIn(AllHandedIn(r, n - 1), n - 1)
  }

  ghost predicate AllRead<V>(i: Input<V>, progress: seq<Progress>)
    requires 1 <= |i.bounds| && |progress| == Batches(i)
  {
    forall b :: 0 <= b < |progress| ==>
      !progress[b].Waiting? && (progress[b].Active? ==> progress[b].p == i.bounds[b + 1])
  }

  lemma {:induction false} HandingAllIn<V>(i: Input<V>, r: Run<V>, n: nat)
    requires Invariant(i, r) && AllRead(i, r.progress) && n <= |r.store.workers|
    ensures var s := AllHandedIn(r, n);
            Invariant(i, s) && AllRead(i, s.progress) &&
            s.store.orphanage == CollectBuffers(r.store.workers, n, r.store.orphanage) &&
            s.store.published == r.store.published &&
            (forall w :: n <= w < |r.store.workers| ==> s.store.workers[w] == r.store.workers[w]) &&
            (forall b :: 0 <= b < |s.progress| && s.progress[b].Active? ==> n <= s.progress[b].worker)
  {
    hide Invariant;
    if n > 0 {
      HandingAllIn(i, r, n - 1);
      var s := AllHandedIn(r, n - 1);
      HandInKeeps(i, s, n - 1);
    }
  }

  lemma AllRetired<V>(i: Input<V>, r: Run<V>)
    requires Invariant(i, r) && AllRead(i, r.progress)
    ensures var s := AllHandedIn(r, |r.store.workers|);
            Invariant(i, s) && (forall b :: 0 <= b < |s.progress| ==> s.progress[b].Retired?) &&
            s.store.orphanage == CollectBuffers(r.store.workers, |r.store.workers|, r.store.orphanage) &&
            s.store.published == r.store.published
  {
    HandingAllIn(i, r, |r.store.workers|);
    var s := AllHandedIn(r, |r.store.workers|);
    forall b | 0 <= b < |s.progress| ensures s.progress[b].Retired? {
      WorkerInRange(i, s, b);
    }
  }

  lemma WorkerInRange<V>(i: Input<V>, r: Run<V>, b: nat)
    requires Invariant(i, r) && b < |r.progress|
    ensures r.progress[b].Active? ==> r.progress[b].worker < |r.store.workers|
  {
  }

  // ----- The end -----

  lemma {:induction false} MembersElements<V>(stream: seq<Element<V>>, g: nat)
    requires Ascending(stream)
    ensures Ascending(Members(stream, g))
    ensures SetOf(Members(stream, g)) == set k | 0 <= k < |stream| && Group(stream[k].id) == g :: stream[k]
    ensures forall k :: 0 <= k < |Members(stream, g)| ==> Group(Members(stream, g)[k].id) == g
  {
    hide Group, SetOf;
    if stream == [] {
      NoElements(stream);
    } else {
      var n := |stream| - 1;
      var front := stream[..n];
      MembersElements(front, g);
      SetOfConcat(Members(front, g), if Group(stream[n].id) == g then [stream[n]] else []);
      SetOfOne(stream[n]);
      NoElements<V>([]);
      MembersBefore(front, g, stream[n]);
      OneMoreElement(stream, g);
    }
  }

  lemma OneMoreElement<V>(stream: seq<Element<V>>, g: nat)
    requires stream != []
    ensures var n := |stream| - 1;
            var front := stream[..n];
            (set k | 0 <= k < |stream| && Group(stream[k].id) == g :: stream[k]) ==
              (set k | 0 <= k < |front| && Group(front[k].id) == g :: front[k])
              + if Group(stream[n].id) == g then {stream[n]} else {}
  {
    hide Group;
    var front := stream[..|stream| - 1];
    var before := set k | 0 <= k < |front| && Group(front[k].id) == g :: front[k];
    forall k | 0 <= k < |front| && Group(stream[k].id) == g ensures stream[k] in before {
      assert front[k] == stream[k];
    }
  }

  lemma MembersBefore<V>(front: seq<Element<V>>, g: nat, last: Element<V>)
    requires SetOf(Members(front, g)) == set k | 0 <= k < |front| && Group(front[k].id) == g :: front[k]
    requires forall k :: 0 <= k < |front| ==> front[k].id < last.id
    ensures forall k :: 0 <= k < |Members(front, g)| ==> Members(front, g)[k].id < last.id
  {
    var m := Members(front, g);
    forall k | 0 <= k < |m| ensures m[k].id < last.id {
      assert m[k] in SetOf(m);
    }
  }

  /** Ascending ids of one group are at most 65,536. */
  lemma AscendingInGroup<V>(es: seq<Element<V>>, g: nat)
    requires Ascending(es) && forall k :: 0 <= k < |es| ==> Group(es[k].id) == g
    ensures |es| <= GROUP
  {
    if es != [] {
      AscendingSpread(es, |es| - 1);
      SameGroupNear(es[0].id, es[|es| - 1].id);
    }
  }

  lemma {:induction false} AscendingSpread<V>(es: seq<Element<V>>, k: nat)
    requires Ascending(es) && k < |es|
    ensures k <= es[k].id - es[0].id
  {
    if k > 0 {
      AscendingSpread(es, k - 1);
    }
  }

  lemma StreamAscends<V>(i: Input<V>)
    requires GoodInput(i)
    ensures Ascending(i.stream)
  {
  }

  /** Once every batch is handed in, a group is published already or lies complete in
      the orphanage, never both. */
  lemma EitherOr<V>(i: Input<V>, r: Run<V>, g: nat)
    requires Invariant(i, r) && forall b :: 0 <= b < |r.progress| ==> r.progress[b].Retired?
    ensures g in r.store.published ==> OrphanSet(i, r.progress, g) == {}
    ensures g !in r.store.published ==>
      OrphanSet(i, r.progress, g) == set k | 0 <= k < |i.stream| && G(i, k) == g :: i.stream[k]
  {
    hide *;
    if g in r.store.published {
      PublishedIsNoOrphan(i, r, g);
    } else {
      UnpublishedIsOrphan(i, r, g);
    }
  }

  lemma PublishedIsNoOrphan<V>(i: Input<V>, r: Run<V>, g: nat)
    requires Invariant(i, r) && forall b :: 0 <= b < |r.progress| ==> r.progress[b].Retired?
    requires g in r.store.published
    ensures OrphanSet(i, r.progress, g) == {}
  {
    hide OrphanageOk;
    hide WorkersOk;
    hide InPublished;
    hide InOrphanage;
    hide Group;
    var k :| 0 <= k < |i.stream| && G(i, k) == g && InPublished(i, r.progress, k);
    forall j | 0 <= j < |i.stream| && G(i, j) == g ensures !InOrphanage(i, r.progress, j) {
      GroupNotSplit(i, r.progress, k, j);
    }
  }

  lemma GroupNotSplit<V>(i: Input<V>, progress: seq<Progress>, k: nat, j: nat)
    requires GoodInput(i) && |progress| == Batches(i) && k < |i.stream| && j < |i.stream|
    requires forall b :: 0 <= b < |progress| ==> progress[b].Retired?
    requires InPublished(i, progress, k) && G(i, j) == G(i, k)
    ensures !InOrphanage(i, progress, j)
  {
    hide Group;
    InnerGroupIsInner(i, Owner(i.bounds, k), k, j);
  }

  lemma UnpublishedIsOrphan<V>(i: Input<V>, r: Run<V>, g: nat)
    requires Invariant(i, r) && forall b :: 0 <= b < |r.progress| ==> r.progress[b].Retired?
    requires g !in r.store.published
    ensures OrphanSet(i, r.progress, g) == set k | 0 <= k < |i.stream| && G(i, k) == g :: i.stream[k]
  {
    hide OrphanageOk;
    hide WorkersOk;
    hide InPublished;
    hide InOrphanage;
    hide Group;
    forall k | 0 <= k < |i.stream| && G(i, k) == g ensures InOrphanage(i, r.progress, k) {
      assert !InPublished(i, r.progress, k);
      OneOrTheOther(i, r.progress, k);
    }
  }

  lemma OneOrTheOther<V>(i: Input<V>, progress: seq<Progress>, k: nat)
    requires GoodInput(i) && |progress| == Batches(i) && k < |i.stream|
    requires forall b :: 0 <= b < |progress| ==> progress[b].Retired?
    ensures InOrphanage(i, progress, k) <==> !InPublished(i, progress, k)
  {
    hide Group;
  }

  /** A group strictly inside a batch has no element outside of it. */
  lemma InnerGroupIsInner<V>(i: Input<V>, b: nat, k: nat, j: nat)
    requires GoodInput(i) && b < Batches(i) && k < |i.stream| && j < |i.stream|
    requires i.bounds[b] <= k < i.bounds[b + 1] && G(i, j) == G(i, k)
    requires G(i, k) != G(i, i.bounds[b]) && G(i, k) != G(i, i.bounds[b + 1] - 1)
    ensures Owner(i.bounds, j) == b
  {
    hide Group;
    var lo, hi := i.bounds[b], i.bounds[b + 1];
    GroupsAscend(i, lo, k);
    GroupsAscend(i, k, hi - 1);
    if j < lo {
      GroupsAscend(i, j, lo);
    } else if hi <= j {
      GroupsAscend(i, hi - 1, j);
    } else {
      OwnerIs(i.bounds, j, b);
    }
  }

  lemma OrphanGroup<V>(i: Input<V>, r: Run<V>, g: nat)
    requires Invariant(i, r) && (forall b :: 0 <= b < |r.progress| ==> r.progress[b].Retired?)
    requires g in r.store.orphanage
    ensures g !in r.store.published && SortById(r.store.orphanage[g]) == Members(i.stream, g)
    ensures CanPublish(i.slots, r.store.published, SortById(r.store.orphanage[g])) && Group(SortById(r.store.orphanage[g])[0].id) == g
  {
    hide *;
    OrphansOf(i, r, g);
    EitherOr(i, r, g);
    var es := r.store.orphanage[g];
    StreamAscends(i);
    MembersElements(i.stream, g);
    SortByIdSorts(es);
    SameSet(i, g);
    AscendingUnique(SortById(es), Members(i.stream, g));
    AscendingInGroup(Members(i.stream, g), g);
    Publishable(i, r, g);
  }

  lemma SameSet<V>(i: Input<V>, g: nat)
    ensures (set k | 0 <= k < |i.stream| && G(i, k) == g :: i.stream[k])
            == (set k | 0 <= k < |i.stream| && Group(i.stream[k].id) == g :: i.stream[k])
  {
    assert forall k :: 0 <= k < |i.stream| ==> G(i, k) == Group(i.stream[k].id);
  }

  lemma OrphansOf<V>(i: Input<V>, r: Run<V>, g: nat)
    requires Invariant(i, r) && g in r.store.orphanage
    ensures GoodInput(i) && |r.progress| == Batches(i)
    ensures r.store.orphanage[g] != [] && SetOf(r.store.orphanage[g]) == OrphanSet(i, r.progress, g) != {}
    ensures DistinctIds(r.store.orphanage[g])
  {
    hide WorkersOk;
    hide PublishedOk;
    hide InOrphanage;
    hide Group;
    var es := r.store.orphanage[g];
    assert Orphans(r.store.orphanage, g) == es;
    assert es[0] in SetOf(es);
    forall j, k | 0 <= j < k < |es| ensures es[j].id != es[k].id {
      assert es[j] in SetOf(es) && es[k] in SetOf(es);
      var x :| 0 <= x < |i.stream| && i.stream[x] == es[j];
      var y :| 0 <= y < |i.stream| && i.stream[y] == es[k];
      assert x != y;
    }
  }

  lemma Publishable<V>(i: Input<V>, r: Run<V>, g: nat)
    requires Invariant(i, r) && g !in r.store.published
    requires |Members(i.stream, g)| <= GROUP
    requires SetOf(Members(i.stream, g)) != {}
    requires SetOf(Members(i.stream, g)) == set k | 0 <= k < |i.stream| && Group(i.stream[k].id) == g :: i.stream[k]
    ensures CanPublish(i.slots, r.store.published, Members(i.stream, g)) && Group(Members(i.stream, g)[0].id) == g
  {
    hide OrphanageOk;
    hide WorkersOk;
    hide PublishedOk;
    var m := Members(i.stream, g);
    var e :| e in SetOf(m);
    assert m[0] in SetOf(m);
    var k :| 0 <= k < |i.stream| && Group(i.stream[k].id) == g && i.stream[k] == m[0];
  }

  /** The whole protocol. Whatever the cuts, the assignment and the interleaving, when
      all batches have been read finalize throws nothing and leaves published, for
      each group that occurs in the stream and no other, exactly its elements in
      order. */
  lemma EverythingPublishedOnce<V>(i: Input<V>, runs: seq<Run<V>>, steps: seq<Step>)
    requires IsRun(i, runs, steps) && AllRead(i, runs[|steps|].progress)
    ensures var s := Finalized(runs[|steps|].store);
            !s.failed &&
            (forall g :: g in s.published ==> s.published[g] == Members(i.stream, g) != []) &&
            (forall k :: 0 <= k < |i.stream| ==> G(i, k) in s.published)
  {
    hide Invariant;
    hide Finalized;
    hide Members;
    EveryRunKeepsInvariant(i, runs, steps, |steps|);
    FinalizeIsRight(i, runs[|steps|]);
  }

  lemma FinalizeIsRight<V>(i: Input<V>, r: Run<V>)
    requires Invariant(i, r) && AllRead(i, r.progress)
    ensures var s := Finalized(r.store);
            !s.failed &&
            (forall g :: g in s.published ==> s.published[g] == Members(i.stream, g) != []) &&
            (forall k :: 0 <= k < |i.stream| ==> G(i, k) in s.published)
  {
    AllRetired(i, r);
    var t := AllHandedIn(r, |r.store.workers|);
    hide *;
    forall g | g in t.store.orphanage
      ensures g !in t.store.published && SortById(t.store.orphanage[g]) == Members(i.stream, g) != []
      ensures CanPublish(i.slots, t.store.published, SortById(t.store.orphanage[g])) && Group(SortById(t.store.orphanage[g])[0].id) == g
    {
      OrphanGroup(i, t, g);
      OrphansOf(i, t, g);
      NotEmpty(i.slots, t.store.published, SortById(t.store.orphanage[g]));
    }
    NoneLeftOut(i, t);
    FinalizedFrom(i, r, t);
  }

  /** Finalizing asks nothing that a finished run does not give: each group's orphans have
      distinct ids, and can be published. */
  lemma ReadyToFinalize<V>(i: Input<V>, runs: seq<Run<V>>, steps: seq<Step>)
    requires IsRun(i, runs, steps) && AllRead(i, runs[|steps|].progress)
    ensures var s := runs[|steps|].store;
            var pooled := CollectBuffers(s.workers, |s.workers|, s.orphanage);
            !s.failed && CanPublishAll(s.slots, s.published, pooled) && forall g :: g in pooled ==> DistinctIds(pooled[g])
  {
    hide *;
    RunLength(i, runs, steps);
    EveryRunKeepsInvariant(i, runs, steps, |steps|);
    var r := runs[|steps|];
    FinalizeIsRight(i, r);
    PublishesAll(r.store);
    AllRetired(i, r);
    var t := AllHandedIn(r, |r.store.workers|);
    forall g | g in t.store.orphanage ensures DistinctIds(t.store.orphanage[g]) {
      OrphansOf(i, t, g);
    }
  }

  lemma RunLength<V>(i: Input<V>, runs: seq<Run<V>>, steps: seq<Step>)
    requires IsRun(i, runs, steps)
    ensures |runs| == |steps| + 1
  {
  }

  lemma PublishesAll<V>(s: Store<V>)
    requires !Finalized(s).failed
    ensures !s.failed && CanPublishAll(s.slots, s.published, CollectBuffers(s.workers, |s.workers|, s.orphanage))
  {
    hide CanPublishAll;
  }

  lemma NotEmpty<V>(slots: nat, published: map<nat, seq<Element<V>>>, es: seq<Element<V>>)
    requires CanPublish(slots, published, es)
    ensures es != []
  {
  }

  lemma NoneLeftOut<V>(i: Input<V>, t: Run<V>)
    requires Invariant(i, t) && forall b :: 0 <= b < |t.progress| ==> t.progress[b].Retired?
    ensures forall k :: 0 <= k < |i.stream| ==> G(i, k) in t.store.published || G(i, k) in t.store.orphanage
    ensures forall g :: g in t.store.published ==> t.store.published[g] == Members(i.stream, g) != []
    ensures !t.store.failed
  {
    hide WorkersOk;
    hide InOrphanage;
    hide InPublished;
    hide Group;
    forall k | 0 <= k < |i.stream| ensures G(i, k) in t.store.published || G(i, k) in t.store.orphanage {
      EitherOr(i, t, G(i, k));
      if G(i, k) !in t.store.published {
        assert i.stream[k] in OrphanSet(i, t.progress, G(i, k));
        assert SetOf(Orphans(t.store.orphanage, G(i, k))) == OrphanSet(i, t.progress, G(i, k));
      }
    }
    forall g | g in t.store.published ensures Members(i.stream, g) != [] {
      var k :| 0 <= k < |i.stream| && G(i, k) == g && InPublished(i, t.progress, k);
      StreamAscends(i);
      MembersElements(i.stream, g);
      assert i.stream[k] in SetOf(Members(i.stream, g));
    }
  }

  lemma FinalizedFrom<V>(i: Input<V>, r: Run<V>, t: Run<V>)
    requires t.store.orphanage == CollectBuffers(r.store.workers, |r.store.workers|, r.store.orphanage)
    requires t.store.published == r.store.published && !r.store.failed && r.store.slots == i.slots
    requires forall g :: g in t.store.orphanage ==>
      g !in t.store.published && SortById(t.store.orphanage[g]) == Members(i.stream, g) != [] &&
      CanPublish(i.slots, t.store.published, SortById(t.store.orphanage[g])) && Group(SortById(t.store.orphanage[g])[0].id) == g
    requires forall k :: 0 <= k < |i.stream| ==> G(i, k) in t.store.published || G(i, k) in t.store.orphanage
    requires forall g :: g in t.store.published ==> t.store.published[g] == Members(i.stream, g) != []
    ensures var s := Finalized(r.store);
            !s.failed &&
            (forall g :: g in s.published ==> s.published[g] == Members(i.stream, g) != []) &&
            (forall k :: 0 <= k < |i.stream| ==> G(i, k) in s.published)
  {
    hide Group;
    hide Members;
    hide SortById;
    hide CanPublish;
  }
}
