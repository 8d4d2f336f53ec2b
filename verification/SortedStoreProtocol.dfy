/** How several workers fill a store from one sorted stream. Each worker gets
    contiguous batches; a group of ids that lies wholly inside a batch is published
    at once, the groups at a batch's edges go through the orphanage. Nodes and ways
    are stored this way alike; V is what is stored for an id. */
module SortedStoreProtocol {

  /** 256 chunks of 256 ids. */
  const GROUP: nat := 65536

  datatype Element<V> = Element(id: nat, value: V)

  function Group(id: nat): nat {
    id / GROUP
  }

  /** A group is a stretch of 65,536 ids. */
  lemma GroupIsStretch(id: nat)
    ensures 65536 * Group(id) <= id < 65536 * Group(id) + 65536
  {
  }

  /** groupStart is -1 until the first element of a batch arrives. */
  datatype Worker<V> = Worker(collecting: bool, groupStart: int, local: seq<Element<V>>)

  /** slots is the size of the table of groups; failed records that an exception was
      thrown. */
  datatype Store<V> = Store(
    workers: seq<Worker<V>>,
    orphanage: map<nat, seq<Element<V>>>,
    published: map<nat, seq<Element<V>>>,
    failed: bool,
    slots: nat)

  function Orphans<V>(orphanage: map<nat, seq<Element<V>>>, g: nat): seq<Element<V>> {
    if g in orphanage then orphanage[g] else []
  }

  function CollectOrphans<V>(orphanage: map<nat, seq<Element<V>>>, orphans: seq<Element<V>>): map<nat, seq<Element<V>>>
    requires orphans != []
  {
    var g := Group(orphans[0].id);
    orphanage[g := Orphans(orphanage, g) + orphans]
  }

  /** publishGroup throws on a group that is empty, out of range, too big or there. */
  predicate CanPublish<V>(slots: nat, published: map<nat, seq<Element<V>>>, nodes: seq<Element<V>>) {
    nodes != [] && Group(nodes[0].id) < slots && |nodes| <= GROUP && Group(nodes[0].id) !in published
  }

  function PublishGroup<V>(s: Store<V>, nodes: seq<Element<V>>): Store<V> {
    if CanPublish(s.slots, s.published, nodes) then s.(published := s.published[Group(nodes[0].id) := nodes])
    else s.(failed := true)
  }

  function RoundDown(id: nat): nat {
    id / GROUP * GROUP
  }

  /** insert's work on one element. */
  function InsertOne<V>(s: Store<V>, w: nat, e: Element<V>): Store<V>
    requires w < |s.workers|
  {
    var me := s.workers[w];
    var start := if me.groupStart == -1 then RoundDown(e.id) else me.groupStart;
    if e.id < start + GROUP then
      s.(workers := s.workers[w := Worker(me.collecting, start, me.local + [e])])
    else
      var next := Worker(false, RoundDown(e.id), [e]);
      if !me.collecting then PublishGroup(s, me.local).(workers := s.workers[w := next])
      else if me.local == [] then s.(workers := s.workers[w := next], failed := true)
      else s.(workers := s.workers[w := next], orphanage := CollectOrphans(s.orphanage, me.local))
  }

  function InsertAll<V>(s: Store<V>, w: nat, es: seq<Element<V>>): (r: Store<V>)
    requires w < |s.workers|
    ensures |r.workers| == |s.workers|
  {
    if es == [] then s else InsertOne(InsertAll(s, w, es[..|es| - 1]), w, es[|es| - 1])
  }

  function BatchStart<V>(s: Store<V>, w: nat): Store<V>
    requires w < |s.workers|
  {
    var local := s.workers[w].local;
    s.(workers := s.workers[w := Worker(true, -1, [])],
       orphanage := if local == [] then s.orphanage else CollectOrphans(s.orphanage, local))
  }

  // ----- Schedules -----

  /** The stream and its cuts: batch b is the stretch from bounds[b] to bounds[b+1]. */
  datatype Input<V> = Input(stream: seq<Element<V>>, bounds: seq<nat>, slots: nat)

  ghost predicate GoodInput<V>(i: Input<V>) {
    && (forall j, k :: 0 <= j < k < |i.stream| ==> i.stream[j].id < i.stream[k].id)
    && (forall k :: 0 <= k < |i.stream| ==> Group(i.stream[k].id) < i.slots)
    && 1 <= |i.bounds| && i.bounds[0] == 0 && i.bounds[|i.bounds| - 1] == |i.stream|
    && (forall j, k :: 0 <= j <= k < |i.bounds| ==> i.bounds[j] <= i.bounds[k])
  }

  function Batches<V>(i: Input<V>): nat
    requires 1 <= |i.bounds|
  {
    |i.bounds| - 1
  }

  function G<V>(i: Input<V>, k: nat): nat
    requires k < |i.stream|
  {
    Group(i.stream[k].id)
  }

  /** A batch not yet taken; one its worker has read up to p, with the elements from a
      on in its buffer; one whose worker has moved on. */
  datatype Progress = Waiting | Active(worker: nat, a: nat, p: nat) | Retired

  datatype Run<V> = Run(store: Store<V>, progress: seq<Progress>)

  datatype Step = Start(w: nat, b: nat) | Next(b: nat)

  /** Worker w is free for a batch when it has read its current one to the end. */
  ghost predicate Free<V>(i: Input<V>, progress: seq<Progress>, w: nat)
    requires 1 <= |i.bounds| && |progress| == Batches(i)
  {
    forall b :: 0 <= b < |progress| && progress[b].Active? && progress[b].worker == w ==> progress[b].p == i.bounds[b + 1]
  }

  ghost predicate Enabled<V>(i: Input<V>, r: Run<V>, step: Step)
    requires 1 <= |i.bounds| && |r.progress| == Batches(i)
  {
    match step
    case Start(w, b) => w < |r.store.workers| && b < |r.progress| && r.progress[b].Waiting? && Free(i, r.progress, w)
    case Next(b) =>
      b < |r.progress| && r.progress[b].Active? && r.progress[b].worker < |r.store.workers| &&
      r.progress[b].p < i.bounds[b + 1] && r.progress[b].p < |i.stream|
  }

  function Retire(progress: seq<Progress>, w: nat): (r: seq<Progress>)
    ensures |r| == |progress|
  {
    seq(|progress|, j requires 0 <= j < |progress| =>
      if progress[j].Active? && progress[j].worker == w then Retired else progress[j])
  }

  ghost function After<V>(i: Input<V>, r: Run<V>, step: Step): Run<V>
    requires 1 <= |i.bounds| && |r.progress| == Batches(i) && Enabled(i, r, step)
  {
    match step
    case Start(w, b) =>
      Run(BatchStart(r.store, w), Retire(r.progress, w)[b := Active(w, i.bounds[b], i.bounds[b])])
    case Next(b) =>
      var Active(w, a, p) := r.progress[b];
      Run(InsertOne(r.store, w, i.stream[p]), r.progress[b := Active(w, if Crosses(i, b, p) then p else a, p + 1)])
  }

  /** Element p is the first of its group in its batch, but not the first of the batch. */
  predicate Crosses<V>(i: Input<V>, b: nat, p: nat)
    requires b < |i.bounds| && p < |i.stream|
  {
    i.bounds[b] < p && G(i, p) != G(i, p - 1)
  }

  ghost predicate Initial<V>(i: Input<V>, r: Run<V>)
    requires 1 <= |i.bounds|
  {
    && r.progress == seq(Batches(i), _ => Waiting)
    && r.store.slots == i.slots && r.store.orphanage == map[] && r.store.published == map[] && !r.store.failed
    && forall w :: 0 <= w < |r.store.workers| ==> r.store.workers[w] == Worker(true, -1, [])
  }

  // ----- The invariant -----

  /** The batch that element k belongs to. */
  ghost function Owner(bounds: seq<nat>, k: nat): (b: nat)
    requires 1 <= |bounds| && bounds[0] == 0 && k < bounds[|bounds| - 1]
    requires forall j, k :: 0 <= j <= k < |bounds| ==> bounds[j] <= bounds[k]
    ensures b + 1 < |bounds| && bounds[b] <= k < bounds[b + 1]
  {
    var n := |bounds| - 1;
    if bounds[n - 1] <= k then n - 1 else Owner(bounds[..n], k)
  }

  /** k has gone to the orphanage: it is in the first group of its batch and the
      worker is past that group, or in an edge group of a finished batch. */
  ghost predicate InOrphanage<V>(i: Input<V>, progress: seq<Progress>, k: nat)
    requires GoodInput(i) && |progress| == Batches(i) && k < |i.stream|
  {
    var b := Owner(i.bounds, k);
    match progress[b]
    case Waiting => false
    case Active(_, a, _) => k < a && G(i, k) == G(i, i.bounds[b])
    case Retired => G(i, k) == G(i, i.bounds[b]) || G(i, k) == G(i, i.bounds[b + 1] - 1)
  }

  ghost predicate InPublished<V>(i: Input<V>, progress: seq<Progress>, k: nat)
    requires GoodInput(i) && |progress| == Batches(i) && k < |i.stream|
  {
    var b := Owner(i.bounds, k);
    match progress[b]
    case Waiting => false
    case Active(_, a, _) => k < a && G(i, k) != G(i, i.bounds[b])
    case Retired => G(i, k) != G(i, i.bounds[b]) && G(i, k) != G(i, i.bounds[b + 1] - 1)
  }

  /** The stream's elements of one group, in order. */
  ghost function Members<V>(stream: seq<Element<V>>, g: nat): seq<Element<V>> {
    if stream == [] then []
    else
      var n := |stream| - 1;
      Members(stream[..n], g) + if Group(stream[n].id) == g then [stream[n]] else []
  }

  /** A worker's buffer holds ids of one group only, and the rest of the worker's state
      says where that group began. */
  ghost predicate BufferOk<V>(i: Input<V>, me: Worker<V>, b: nat, a: nat, p: nat)
    requires b + 1 < |i.bounds|
  {
    && i.bounds[b] <= a <= p <= i.bounds[b + 1] <= |i.stream|
    && me.local == i.stream[a..p]
    && (me.collecting <==> a == i.bounds[b])
    && (p == i.bounds[b] ==> me.groupStart == -1)
    && (i.bounds[b] < p ==> a < p && me.groupStart == G(i, p - 1) * GROUP)
    && (forall k :: a <= k < p ==> G(i, k) == G(i, a))
    && (i.bounds[b] < a < |i.stream| ==> G(i, a - 1) < G(i, a))
  }

  ghost predicate WorkersOk<V>(i: Input<V>, r: Run<V>)
    requires 1 <= |i.bounds| && |r.progress| == Batches(i)
  {
    && (forall b :: 0 <= b < |r.progress| && r.progress[b].Active? ==>
         r.progress[b].worker < |r.store.workers| &&
         BufferOk(i, r.store.workers[r.progress[b].worker], b, r.progress[b].a, r.progress[b].p))
    && (forall b, c :: 0 <= b < c < |r.progress| && r.progress[b].Active? && r.progress[c].Active? ==>
         r.progress[b].worker != r.progress[c].worker)
    && (forall w :: 0 <= w < |r.store.workers| && r.store.workers[w].local != [] ==>
         exists b :: 0 <= b < |r.progress| && r.progress[b].Active? && r.progress[b].worker == w)
  }

  ghost function SetOf<V>(es: seq<Element<V>>): set<Element<V>> {
    set j | 0 <= j < |es| :: es[j]
  }

  ghost predicate NoDuplicates<V>(es: seq<Element<V>>) {
    forall j, k :: 0 <= j < k < |es| ==> es[j] != es[k]
  }

  ghost function OrphanSet<V>(i: Input<V>, progress: seq<Progress>, g: nat): set<Element<V>>
    requires GoodInput(i) && |progress| == Batches(i)
  {
    set k | 0 <= k < |i.stream| && G(i, k) == g && InOrphanage(i, progress, k) :: i.stream[k]
  }

  ghost predicate OrphanageOk<V>(i: Input<V>, orphanage: map<nat, seq<Element<V>>>, progress: seq<Progress>)
    requires GoodInput(i) && |progress| == Batches(i)
  {
    && (forall g :: g in orphanage ==> orphanage[g] != [])
    && (forall g: nat :: NoDuplicates(Orphans(orphanage, g)) && SetOf(Orphans(orphanage, g)) == OrphanSet(i, progress, g))
  }

  ghost predicate PublishedOk<V>(i: Input<V>, published: map<nat, seq<Element<V>>>, progress: seq<Progress>)
    requires GoodInput(i) && |progress| == Batches(i)
  {
    && (forall g :: g in published ==> published[g] == Members(i.stream, g))
    && (forall g :: g in published ==> exists k :: 0 <= k < |i.stream| && G(i, k) == g && InPublished(i, progress, k))
    && (forall k :: 0 <= k < |i.stream| && InPublished(i, progress, k) ==> G(i, k) in published)
  }

  ghost predicate Invariant<V>(i: Input<V>, r: Run<V>) {
    && GoodInput(i) && |r.progress| == Batches(i)
    && WorkersOk(i, r)
    && OrphanageOk(i, r.store.orphanage, r.progress)
    && PublishedOk(i, r.store.published, r.progress)
    && !r.store.failed && r.store.slots == i.slots
  }

  // ----- Every step keeps it -----

  lemma OwnerIs(bounds: seq<nat>, k: nat, b: nat)
    requires 1 <= |bounds| && bounds[0] == 0 && k < bounds[|bounds| - 1]
    requires forall j, k :: 0 <= j <= k < |bounds| ==> bounds[j] <= bounds[k]
    requires b + 1 < |bounds| && bounds[b] <= k < bounds[b + 1]
    ensures Owner(bounds, k) == b
  {
    var o := Owner(bounds, k);
  }

  lemma GroupsAscend<V>(i: Input<V>, j: nat, k: nat)
    requires GoodInput(i) && j <= k < |i.stream|
    ensures G(i, j) <= G(i, k)
  {
    if j < k {
      assert i.stream[j].id < i.stream[k].id;
    }
  }

  /** What one step moves into the orphanage: nothing, or the stretch [x, y). */
  ghost predicate Moves<V>(i: Input<V>, before: seq<Progress>, after: seq<Progress>, x: nat, y: nat)
    requires GoodInput(i) && |before| == |after| == Batches(i) && x <= y <= |i.stream|
  {
    forall k :: 0 <= k < |i.stream| ==>
      (InOrphanage(i, after, k) <==> InOrphanage(i, before, k) || x <= k < y) &&
      (x <= k < y ==> !InOrphanage(i, before, k))
  }

  ghost predicate Publishes<V>(i: Input<V>, before: seq<Progress>, after: seq<Progress>, x: nat, y: nat)
    requires GoodInput(i) && |before| == |after| == Batches(i) && x <= y <= |i.stream|
  {
    forall k :: 0 <= k < |i.stream| ==>
      (InPublished(i, after, k) <==> InPublished(i, before, k) || x <= k < y) &&
      (x <= k < y ==> !InPublished(i, before, k))
  }

  /** The stretch is all of its group that a worker has, and the whole of it so far. */
  ghost predicate OneGroup<V>(i: Input<V>, x: nat, y: nat)
    requires y <= |i.stream|
  {
    x < y && forall k :: x <= k < y ==> G(i, k) == G(i, x)
  }

  lemma NothingCollected<V>(i: Input<V>, orphanage: map<nat, seq<Element<V>>>, before: seq<Progress>, after: seq<Progress>, x: nat)
    requires GoodInput(i) && |before| == |after| == Batches(i) && x <= |i.stream|
    requires OrphanageOk(i, orphanage, before) && Moves(i, before, after, x, x)
    ensures OrphanageOk(i, orphanage, after)
  {
    forall g: nat ensures OrphanSet(i, before, g) == OrphanSet(i, after, g) {
      assert forall k :: 0 <= k < |i.stream| ==> (InOrphanage(i, after, k) <==> InOrphanage(i, before, k));
    }
  }

  lemma SetOfConcat<V>(a: seq<Element<V>>, b: seq<Element<V>>)
    ensures SetOf(a + b) == SetOf(a) + SetOf(b)
  {
    var c := a + b;
    forall e | e in SetOf(a) + SetOf(b) ensures e in SetOf(c) {
      if e in SetOf(a) {
        var j :| 0 <= j < |a| && a[j] == e;
        assert c[j] == e;
      } else {
        var j :| 0 <= j < |b| && b[j] == e;
        assert c[|a| + j] == e;
      }
    }
  }

  lemma NoDuplicatesConcat<V>(a: seq<Element<V>>, b: seq<Element<V>>)
    requires NoDuplicates(a) && NoDuplicates(b) && SetOf(a) !! SetOf(b)
    ensures NoDuplicates(a + b)
  {
    var c := a + b;
    forall j, k | 0 <= j < k < |c| ensures c[j] != c[k] {
      if j < |a| <= k {
        assert a[j] in SetOf(a);
        assert b[k - |a|] in SetOf(b);
      }
    }
  }

  lemma StretchElements<V>(i: Input<V>, x: nat, y: nat)
    requires GoodInput(i) && x <= y <= |i.stream|
    ensures NoDuplicates(i.stream[x..y])
    ensures SetOf(i.stream[x..y]) == set k | x <= k < y :: i.stream[k]
  {
    var s := i.stream[x..y];
    forall e | e in (set k | x <= k < y :: i.stream[k]) ensures e in SetOf(s) {
      var k :| x <= k < y && i.stream[k] == e;
      assert s[k - x] == e;
    }
  }

  lemma OrphanSetMoved<V>(i: Input<V>, before: seq<Progress>, after: seq<Progress>, x: nat, y: nat, g: nat)
    requires GoodInput(i) && |before| == |after| == Batches(i) && y <= |i.stream|
    requires OneGroup(i, x, y) && Moves(i, before, after, x, y)
    ensures OrphanSet(i, after, g) == OrphanSet(i, before, g) + if g == G(i, x) then SetOf(i.stream[x..y]) else {}
    ensures OrphanSet(i, before, g) !! SetOf(i.stream[x..y])
  {
    hide InOrphanage;
    StretchElements(i, x, y);
    forall e | e in OrphanSet(i, before, g) ensures e !in SetOf(i.stream[x..y]) {
      var k :| 0 <= k < |i.stream| && G(i, k) == g && InOrphanage(i, before, k) && i.stream[k] == e;
      forall j | x <= j < y ensures i.stream[j] != e {
        assert j < k ==> i.stream[j].id < i.stream[k].id;
        assert k < j ==> i.stream[k].id < i.stream[j].id;
      }
    }
  }

  lemma StretchCollected<V>(i: Input<V>, orphanage: map<nat, seq<Element<V>>>, before: seq<Progress>, after: seq<Progress>, x: nat, y: nat)
    requires GoodInput(i) && |before| == |after| == Batches(i) && y <= |i.stream|
    requires OrphanageOk(i, orphanage, before) && OneGroup(i, x, y) && Moves(i, before, after, x, y)
    ensures i.stream[x..y] != [] && OrphanageOk(i, CollectOrphans(orphanage, i.stream[x..y]), after)
  {
    hide OrphanSet;
    hide Moves;
    hide SetOf;
    hide NoDuplicates;
    var moved := i.stream[x..y];
    var orphanage' := CollectOrphans(orphanage, moved);
    forall g: nat
      ensures NoDuplicates(Orphans(orphanage', g)) && SetOf(Orphans(orphanage', g)) == OrphanSet(i, after, g)
    {
      OrphanSetMoved(i, before, after, x, y, g);
      if g == G(i, x) {
        StretchElements(i, x, y);
        SetOfConcat(Orphans(orphanage, g), moved);
        NoDuplicatesConcat(Orphans(orphanage, g), moved);
      }
    }
  }

  /** A stretch bounded by other groups, or by the ends of the stream, is a whole group. */
  lemma {:induction false} WholeGroup<V>(stream: seq<Element<V>>, g: nat, x: nat, y: nat)
    requires x <= y <= |stream|
    requires forall k :: 0 <= k < |stream| ==> (Group(stream[k].id) == g <==> x <= k < y)
    ensures Members(stream, g) == stream[x..y]
  {
    hide Group;
    if stream != [] {
      var n := |stream| - 1;
      if y == |stream| && x < y {
        WholeGroup(stream[..n], g, x, y - 1);
        assert stream[x..y] == stream[..n][x..n] + [stream[n]];
      } else if x == y {
        WholeGroup(stream[..n], g, 0, 0);
      } else {
        WholeGroup(stream[..n], g, x, y);
        PrefixStretch(stream, n, x, y);
      }
    }
  }

  lemma PrefixStretch<T>(s: seq<T>, n: nat, x: nat, y: nat)
    requires x <= y <= n <= |s|
    ensures s[..n][x..y] == s[x..y]
  {
  }

  /** At most 65,536 ascending ids fit in one group. */
  lemma {:induction false} GroupSize<V>(i: Input<V>, x: nat, y: nat)
    requires GoodInput(i) && y <= |i.stream| && OneGroup(i, x, y)
    ensures y - x <= i.stream[y - 1].id - i.stream[x].id + 1 <= GROUP
    decreases y
  {
    if x + 1 < y {
      GroupSize(i, x, y - 1);
    }
    assert G(i, y - 1) == G(i, x);
    SameGroupNear(i.stream[x].id, i.stream[y - 1].id);
  }

  lemma SameGroupNear(a: nat, b: nat)
    requires Group(a) == Group(b)
    ensures b - a < GROUP
  {
  }

  lemma GroupPublished<V>(i: Input<V>, published: map<nat, seq<Element<V>>>, before: seq<Progress>, after: seq<Progress>, x: nat, y: nat)
    requires GoodInput(i) && |before| == |after| == Batches(i) && y <= |i.stream|
    requires PublishedOk(i, published, before) && OneGroup(i, x, y) && Publishes(i, before, after, x, y)
    requires (0 < x ==> G(i, x - 1) < G(i, x)) && (y < |i.stream| ==> G(i, x) < G(i, y))
    ensures CanPublish(i.slots, published, i.stream[x..y])
    ensures PublishedOk(i, published[G(i, x) := i.stream[x..y]], after)
  {
    hide InPublished;
    var g := G(i, x);
    GroupSize(i, x, y);
    forall k | 0 <= k < |i.stream| ensures Group(i.stream[k].id) == g <==> x <= k < y {
      assert x <= k < y ==> G(i, k) == g;
      if k < x {
        GroupsAscend(i, k, x - 1);
      } else if y <= k {
        GroupsAscend(i, y, k);
      }
    }
    WholeGroup(i.stream, g, x, y);
    PublishedGrows(i, published, before, after, x, y);
  }

  lemma PublishedGrows<V>(i: Input<V>, published: map<nat, seq<Element<V>>>, before: seq<Progress>, after: seq<Progress>, x: nat, y: nat)
    requires GoodInput(i) && |before| == |after| == Batches(i) && x < y <= |i.stream|
    requires PublishedOk(i, published, before) && Publishes(i, before, after, x, y)
    requires forall k :: 0 <= k < |i.stream| ==> (G(i, k) == G(i, x) <==> x <= k < y)
    requires Members(i.stream, G(i, x)) == i.stream[x..y]
    ensures G(i, x) !in published
    ensures PublishedOk(i, published[G(i, x) := i.stream[x..y]], after)
  {
    hide InPublished;
    hide Members;
    var published' := published[G(i, x) := i.stream[x..y]];
    forall h | h in published' ensures exists k :: 0 <= k < |i.stream| && G(i, k) == h && InPublished(i, after, k) {
      if h == G(i, x) {
        assert InPublished(i, after, x);
      } else {
        var k :| 0 <= k < |i.stream| && G(i, k) == h && InPublished(i, before, k);
        assert InPublished(i, after, k);
      }
    }
  }

  lemma NothingPublished<V>(i: Input<V>, published: map<nat, seq<Element<V>>>, before: seq<Progress>, after: seq<Progress>, x: nat)
    requires GoodInput(i) && |before| == |after| == Batches(i) && x <= |i.stream|
    requires PublishedOk(i, published, before) && Publishes(i, before, after, x, x)
    ensures PublishedOk(i, published, after)
  {
    hide InPublished;
    hide Members;
    forall g | g in published ensures exists k :: 0 <= k < |i.stream| && G(i, k) == g && InPublished(i, after, k) {
      var k :| 0 <= k < |i.stream| && G(i, k) == g && InPublished(i, before, k);
      assert InPublished(i, after, k);
    }
  }

  // ----- Steps -----

  lemma NextKeeps<V>(i: Input<V>, r: Run<V>, b: nat)
    requires Invariant(i, r) && Enabled(i, r, Next(b))
    ensures Invariant(i, After(i, r, Next(b)))
  {
    hide InOrphanage;
    hide InPublished;
    hide OrphanageOk;
    hide PublishedOk;
    hide WorkersOk;
    var Active(w, a, p) := r.progress[b];
    var r' := After(i, r, Next(b));
    BufferOf(i, r, b);
    if Crosses(i, b, p) {
      CrossingOut(i, r, b);
      CrossingMoves(i, r, b);
      WorkersAfterNext(i, r, b, Worker(false, RoundDown(i.stream[p].id), [i.stream[p]]));
      if a == i.bounds[b] {
        StretchCollected(i, r.store.orphanage, r.progress, r'.progress, a, p);
        NothingPublished(i, r.store.published, r.progress, r'.progress, a);
      } else {
        GroupPublished(i, r.store.published, r.progress, r'.progress, a, p);
        NothingCollected(i, r.store.orphanage, r.progress, r'.progress, a);
      }
    } else {
      StayingIn(i, r, b);
      StayingMoves(i, r, b);
      var me := r.store.workers[w];
      WorkersAfterNext(i, r, b, Worker(me.collecting, RoundDown(i.stream[p].id), me.local + [i.stream[p]]));
      NothingCollected(i, r.store.orphanage, r.progress, r'.progress, 0);
      NothingPublished(i, r.store.published, r.progress, r'.progress, 0);
    }
  }

  lemma BufferOf<V>(i: Input<V>, r: Run<V>, b: nat)
    requires Invariant(i, r) && b < |r.progress| && r.progress[b].Active?
    ensures r.progress[b].worker < |r.store.workers|
    ensures BufferOk(i, r.store.workers[r.progress[b].worker], b, r.progress[b].a, r.progress[b].p)
  {
  }

  /** When the group changes, what the worker holds goes to the orphanage if it is the
      first group of the batch, and is published otherwise. */
  lemma CrossingOut<V>(i: Input<V>, r: Run<V>, b: nat)
    requires GoodInput(i) && |r.progress| == Batches(i) && Enabled(i, r, Next(b))
    requires BufferOk(i, r.store.workers[r.progress[b].worker], b, r.progress[b].a, r.progress[b].p)
    requires Crosses(i, b, r.progress[b].p)
    ensures var Active(w, a, p) := r.progress[b];
            OneGroup(i, a, p) && G(i, a) < G(i, p) && (0 < a && a != i.bounds[b] ==> G(i, a - 1) < G(i, a)) &&
            var s' := InsertOne(r.store, w, i.stream[p]);
            s'.workers == r.store.workers[w := Worker(false, RoundDown(i.stream[p].id), [i.stream[p]])] &&
            s' == (if a == i.bounds[b]
                   then r.store.(workers := s'.workers, orphanage := CollectOrphans(r.store.orphanage, i.stream[a..p]))
                   else PublishGroup(r.store, i.stream[a..p]).(workers := s'.workers))
  {
    var Active(w, a, p) := r.progress[b];
    GroupsAscend(i, p - 1, p);
    assert G(i, p - 1) == G(i, a);
  }

  lemma StayingIn<V>(i: Input<V>, r: Run<V>, b: nat)
    requires GoodInput(i) && |r.progress| == Batches(i) && Enabled(i, r, Next(b))
    requires BufferOk(i, r.store.workers[r.progress[b].worker], b, r.progress[b].a, r.progress[b].p)
    requires !Crosses(i, b, r.progress[b].p)
    ensures var Active(w, a, p) := r.progress[b];
            var me := r.store.workers[w];
            InsertOne(r.store, w, i.stream[p]) ==
              r.store.(workers := r.store.workers[w := Worker(me.collecting, RoundDown(i.stream[p].id), me.local + [i.stream[p]])])
  {
  }

  lemma CrossingMoves<V>(i: Input<V>, r: Run<V>, b: nat)
    requires GoodInput(i) && |r.progress| == Batches(i) && Enabled(i, r, Next(b))
    requires BufferOk(i, r.store.workers[r.progress[b].worker], b, r.progress[b].a, r.progress[b].p)
    requires Crosses(i, b, r.progress[b].p)
    ensures var Active(w, a, p) := r.progress[b];
            var after := r.progress[b := Active(w, p, p + 1)];
            if a == i.bounds[b]
            then Moves(i, r.progress, after, a, p) && Publishes(i, r.progress, after, a, a)
            else Moves(i, r.progress, after, a, a) && Publishes(i, r.progress, after, a, p)
  {
    hide InOrphanage;
    hide InPublished;
    hide Group;
    var Active(w, a, p) := r.progress[b];
    var after := r.progress[b := Active(w, p, p + 1)];
    var first := a == i.bounds[b];
    forall k | 0 <= k < |i.stream|
      ensures InOrphanage(i, after, k) <==> InOrphanage(i, r.progress, k) || (first && a <= k < p)
      ensures InPublished(i, after, k) <==> InPublished(i, r.progress, k) || (!first && a <= k < p)
      ensures a <= k < p ==> if first then !InOrphanage(i, r.progress, k) else !InPublished(i, r.progress, k)
    {
      CrossingAt(i, r.store.workers[w], r.progress, b, k);
    }
  }

  /** Where element k is before and after the step. */
  ghost predicate CrossedAt<V>(i: Input<V>, before: seq<Progress>, b: nat, a: nat, p: nat, k: nat)
    requires GoodInput(i) && |before| == Batches(i) && b < |before| && before[b].Active? && k < |i.stream|
  {
    var after := before[b := Active(before[b].worker, p, p + 1)];
    if a == i.bounds[b] then
      (InOrphanage(i, after, k) <==> InOrphanage(i, before, k) || a <= k < p) &&
      (a <= k < p ==> !InOrphanage(i, before, k)) && (InPublished(i, after, k) <==> InPublished(i, before, k))
    else
      (InPublished(i, after, k) <==> InPublished(i, before, k) || a <= k < p) &&
      (a <= k < p ==> !InPublished(i, before, k)) && (InOrphanage(i, after, k) <==> InOrphanage(i, before, k))
  }

  lemma CrossingAt<V>(i: Input<V>, me: Worker<V>, before: seq<Progress>, b: nat, k: nat)
    requires GoodInput(i) && |before| == Batches(i) && b < |before| && before[b].Active? && k < |i.stream|
    requires BufferOk(i, me, b, before[b].a, before[b].p)
    requires before[b].p < i.bounds[b + 1] && Crosses(i, b, before[b].p)
    ensures CrossedAt(i, before, b, before[b].a, before[b].p, k)
  {
    hide CrossedAt, Group;
    if i.bounds[b] <= k < i.bounds[b + 1] {
      CrossedInBatch(i, me, before, b, k);
    } else {
      CrossedElsewhere(i, me, before, b, k);
    }
  }

  lemma CrossedInBatch<V>(i: Input<V>, me: Worker<V>, before: seq<Progress>, b: nat, k: nat)
    requires GoodInput(i) && |before| == Batches(i) && b < |before| && before[b].Active? && k < |i.stream|
    requires BufferOk(i, me, b, before[b].a, before[b].p)
    requires before[b].p < i.bounds[b + 1] && Crosses(i, b, before[b].p)
    requires i.bounds[b] <= k < i.bounds[b + 1]
    ensures CrossedAt(i, before, b, before[b].a, before[b].p, k)
  {
    hide Group;
    var Active(w, a, p) := before[b];
    OwnerIs(i.bounds, k, b);
    assert a <= k < p ==> G(i, k) == G(i, a);
    if i.bounds[b] < a {
      GroupsAscend(i, i.bounds[b], a - 1);
    }
  }

  lemma CrossedElsewhere<V>(i: Input<V>, me: Worker<V>, before: seq<Progress>, b: nat, k: nat)
    requires GoodInput(i) && |before| == Batches(i) && b < |before| && before[b].Active? && k < |i.stream|
    requires BufferOk(i, me, b, before[b].a, before[b].p)
    requires before[b].p < i.bounds[b + 1] && !(i.bounds[b] <= k < i.bounds[b + 1])
    ensures CrossedAt(i, before, b, before[b].a, before[b].p, k)
  {
    hide Group;
  }

  lemma StayingMoves<V>(i: Input<V>, r: Run<V>, b: nat)
    requires GoodInput(i) && |r.progress| == Batches(i) && Enabled(i, r, Next(b))
    ensures var Active(w, a, p) := r.progress[b];
            var after := r.progress[b := Active(w, a, p + 1)];
            Moves(i, r.progress, after, 0, 0) && Publishes(i, r.progress, after, 0, 0)
  {
  }

  /** Only this worker's buffer changed, and it is in order again. */
  lemma WorkersAfterNext<V>(i: Input<V>, r: Run<V>, b: nat, me: Worker<V>)
    requires Invariant(i, r) && Enabled(i, r, Next(b))
    requires var Active(w, a, p) := r.progress[b];
             me == if Crosses(i, b, p) then Worker(false, RoundDown(i.stream[p].id), [i.stream[p]])
                   else Worker(r.store.workers[w].collecting, RoundDown(i.stream[p].id), r.store.workers[w].local + [i.stream[p]])
    requires After(i, r, Next(b)).store.workers == r.store.workers[r.progress[b].worker := me]
    ensures WorkersOk(i, After(i, r, Next(b)))
  {
    hide Group;
    hide BufferOk;
    hide OrphanageOk;
    hide PublishedOk;
    hide InsertOne;
    var Active(w, a, p) := r.progress[b];
    BufferOf(i, r, b);
    BufferAfterNext(i, r.store.workers[w], b, a, p, me);
    var r' := After(i, r, Next(b));
    forall v | 0 <= v < |r'.store.workers| && r'.store.workers[v].local != []
      ensures exists c :: 0 <= c < |r'.progress| && r'.progress[c].Active? && r'.progress[c].worker == v
    {
      if v == w {
        assert r'.progress[b].Active? && r'.progress[b].worker == v;
      } else {
        var c :| 0 <= c < |r.progress| && r.progress[c].Active? && r.progress[c].worker == v;
        assert r'.progress[c] == r.progress[c];
      }
    }
  }

  lemma BufferAfterNext<V>(i: Input<V>, was: Worker<V>, b: nat, a: nat, p: nat, me: Worker<V>)
    requires GoodInput(i) && b < Batches(i) && BufferOk(i, was, b, a, p) && p < i.bounds[b + 1]
    requires me == if Crosses(i, b, p) then Worker(false, RoundDown(i.stream[p].id), [i.stream[p]])
                   else Worker(was.collecting, RoundDown(i.stream[p].id), was.local + [i.stream[p]])
    ensures BufferOk(i, me, b, if Crosses(i, b, p) then p else a, p + 1)
  {
    if Crosses(i, b, p) {
      GroupsAscend(i, p - 1, p);
      assert i.stream[p..p + 1] == [i.stream[p]];
    } else {
      assert i.stream[a..p + 1] == i.stream[a..p] + [i.stream[p]];
      if i.bounds[b] < p {
        assert G(i, p - 1) == G(i, a);
      }
    }
  }

  /** Worker w, at the end of its batch, hands its buffer in. */
  ghost function HandedIn<V>(r: Run<V>, w: nat): Run<V>
    requires w < |r.store.workers|
  {
    Run(BatchStart(r.store, w), Retire(r.progress, w))
  }

  lemma HandInKeeps<V>(i: Input<V>, r: Run<V>, w: nat)
    requires Invariant(i, r) && w < |r.store.workers| && Free(i, r.progress, w)
    ensures Invariant(i, HandedIn(r, w))
  {
    hide InOrphanage;
    hide InPublished;
    hide OrphanageOk;
    hide PublishedOk;
    hide WorkersOk;
    hide Group;
    var r' := HandedIn(r, w);
    WorkersAfterHandIn(i, r, w);
    if r.store.workers[w].local == [] {
      NothingHeld(i, r, w);
      NothingCollected(i, r.store.orphanage, r.progress, r'.progress, 0);
      NothingPublished(i, r.store.published, r.progress, r'.progress, 0);
    } else {
      var c := HolderOf(i, r, w);
      BufferOf(i, r, c);
      var Active(_, a, p) := r.progress[c];
      HandInMoves(i, r, w, c);
      StretchCollected(i, r.store.orphanage, r.progress, r'.progress, a, p);
      NothingPublished(i, r.store.published, r.progress, r'.progress, a);
    }
  }

  lemma HolderOf<V>(i: Input<V>, r: Run<V>, w: nat) returns (c: nat)
    requires Invariant(i, r) && w < |r.store.workers| && r.store.workers[w].local != []
    ensures c < |r.progress| && r.progress[c].Active? && r.progress[c].worker == w
  {
    c :| 0 <= c < |r.progress| && r.progress[c].Active? && r.progress[c].worker == w;
  }

  lemma WorkersAfterHandIn<V>(i: Input<V>, r: Run<V>, w: nat)
    requires Invariant(i, r) && w < |r.store.workers|
    ensures WorkersOk(i, HandedIn(r, w))
  {
    hide BufferOk;
    hide OrphanageOk;
    hide PublishedOk;
    var r' := HandedIn(r, w);
    forall v | 0 <= v < |r'.store.workers| && r'.store.workers[v].local != []
      ensures exists c :: 0 <= c < |r'.progress| && r'.progress[c].Active? && r'.progress[c].worker == v
    {
      var c := HolderOf(i, r, v);
      assert r'.progress[c] == r.progress[c];
    }
  }

  lemma NothingHeld<V>(i: Input<V>, r: Run<V>, w: nat)
    requires Invariant(i, r) && w < |r.store.workers| && Free(i, r.progress, w) && r.store.workers[w].local == []
    ensures Moves(i, r.progress, Retire(r.progress, w), 0, 0) && Publishes(i, r.progress, Retire(r.progress, w), 0, 0)
  {
    hide OrphanageOk;
    hide PublishedOk;
    hide Group;
    var after := Retire(r.progress, w);
    forall k | 0 <= k < |i.stream|
      ensures InOrphanage(i, after, k) <==> InOrphanage(i, r.progress, k)
      ensures InPublished(i, after, k) <==> InPublished(i, r.progress, k)
    {
      var b := Owner(i.bounds, k);
      if r.progress[b].Active? && r.progress[b].worker == w {
        BufferOf(i, r, b);
      }
    }
  }

  lemma HandInMoves<V>(i: Input<V>, r: Run<V>, w: nat, c: nat)
    requires Invariant(i, r) && w < |r.store.workers| && Free(i, r.progress, w) && r.store.workers[w].local != []
    requires c < |r.progress| && r.progress[c].Active? && r.progress[c].worker == w
    ensures var Active(_, a, p) := r.progress[c];
            OneGroup(i, a, p) && r.store.workers[w].local == i.stream[a..p] &&
            Moves(i, r.progress, Retire(r.progress, w), a, p) && Publishes(i, r.progress, Retire(r.progress, w), a, a)
  {
    hide OrphanageOk;
    hide PublishedOk;
    hide WorkersOk;
    hide Group;
    hide InOrphanage;
    hide InPublished;
    var Active(_, a, p) := r.progress[c];
    var after := Retire(r.progress, w);
    BufferOf(i, r, c);
    forall k | 0 <= k < |i.stream|
      ensures InOrphanage(i, after, k) <==> InOrphanage(i, r.progress, k) || a <= k < p
      ensures InPublished(i, after, k) <==> InPublished(i, r.progress, k)
      ensures a <= k < p ==> !InOrphanage(i, r.progress, k)
    {
      OnlyHolder(i, r, c, Owner(i.bounds, k));
      HandInAt(i, r.store.workers[w], r.progress, w, c, k);
    }
  }

  lemma OnlyHolder<V>(i: Input<V>, r: Run<V>, c: nat, d: nat)
    requires Invariant(i, r) && c < |r.progress| && d < |r.progress| && r.progress[c].Active?
    ensures r.progress[d].Active? && r.progress[d].worker == r.progress[c].worker ==> c == d
  {
  }

  /** For an element of the batch handed in, the two descriptions of "edge group" say
      the same. */
  lemma HandInAt<V>(i: Input<V>, me: Worker<V>, before: seq<Progress>, w: nat, c: nat, k: nat)
    requires GoodInput(i) && |before| == Batches(i) && c < |before| && k < |i.stream|
    requires before[c].Active? && before[c].worker == w && before[c].p == i.bounds[c + 1] && before[c].a < before[c].p
    requires BufferOk(i, me, c, before[c].a, before[c].p)
    requires var d := Owner(i.bounds, k); before[d].Active? && before[d].worker == w ==> c == d
    ensures var after := Retire(before, w);
            (InOrphanage(i, after, k) <==> InOrphanage(i, before, k) || before[c].a <= k < before[c].p) &&
            (InPublished(i, after, k) <==> InPublished(i, before, k)) &&
            (before[c].a <= k < before[c].p ==> !InOrphanage(i, before, k))
  {
    hide Group;
    var lo, a, hi := i.bounds[c], before[c].a, before[c].p;
    if lo <= k < hi {
      OwnerIs(i.bounds, k, c);
      assert G(i, hi - 1) == G(i, a);
      assert a <= k ==> G(i, k) == G(i, a);
      if lo <= k < a {
        GroupsAscend(i, k, a - 1);
      }
    }
  }

  lemma StartKeeps<V>(i: Input<V>, r: Run<V>, w: nat, b: nat)
    requires Invariant(i, r) && Enabled(i, r, Start(w, b))
    ensures Invariant(i, After(i, r, Start(w, b)))
  {
    hide InOrphanage;
    hide InPublished;
    hide OrphanageOk;
    hide PublishedOk;
    hide WorkersOk;
    HandInKeeps(i, r, w);
    var idle := HandedIn(r, w);
    var r' := After(i, r, Start(w, b));
    TakingMoves(i, idle, w, b);
    WorkersAfterTaking(i, idle, w, b);
    NothingCollected(i, idle.store.orphanage, idle.progress, r'.progress, 0);
    NothingPublished(i, idle.store.published, idle.progress, r'.progress, 0);
  }

  lemma TakingMoves<V>(i: Input<V>, idle: Run<V>, w: nat, b: nat)
    requires Invariant(i, idle) && b < |idle.progress| && idle.progress[b].Waiting?
    ensures var after := idle.progress[b := Active(w, i.bounds[b], i.bounds[b])];
            Moves(i, idle.progress, after, 0, 0) && Publishes(i, idle.progress, after, 0, 0)
  {
    hide OrphanageOk;
    hide PublishedOk;
    hide WorkersOk;
    hide Group;
  }

  lemma WorkersAfterTaking<V>(i: Input<V>, idle: Run<V>, w: nat, b: nat)
    requires Invariant(i, idle) && b < |idle.progress| && idle.progress[b].Waiting? && w < |idle.store.workers|
    requires idle.store.workers[w] == Worker(true, -1, [])
    requires forall c :: 0 <= c < |idle.progress| && idle.progress[c].Active? ==> idle.progress[c].worker != w
    ensures WorkersOk(i, Run(idle.store, idle.progress[b := Active(w, i.bounds[b], i.bounds[b])]))
  {
    hide OrphanageOk;
    hide PublishedOk;
    var r' := Run(idle.store, idle.progress[b := Active(w, i.bounds[b], i.bounds[b])]);
    FreshBuffer(i, b);
    hide BufferOk;
    forall v | 0 <= v < |r'.store.workers| && r'.store.workers[v].local != []
      ensures exists c :: 0 <= c < |r'.progress| && r'.progress[c].Active? && r'.progress[c].worker == v
    {
      var c := HolderOf(i, idle, v);
      assert r'.progress[c] == idle.progress[c];
    }
  }

  lemma FreshBuffer<V>(i: Input<V>, b: nat)
    requires GoodInput(i) && b < Batches(i)
    ensures BufferOk(i, Worker(true, -1, []), b, i.bounds[b], i.bounds[b])
  {
  }

  // ----- Runs -----

  ghost predicate IsRun<V>(i: Input<V>, runs: seq<Run<V>>, steps: seq<Step>) {
    && GoodInput(i) && |runs| == |steps| + 1
    && Initial(i, runs[0])
    && (forall j :: 0 <= j < |runs| ==> |runs[j].progress| == Batches(i))
    && forall j :: 0 <= j < |steps| ==> Enabled(i, runs[j], steps[j]) && runs[j + 1] == After(i, runs[j], steps[j])
  }

  /** Whatever the cuts, the assignment of batches to workers and the interleaving:
      at every moment each buffer holds one group, what is published is whole groups,
      and nothing has been thrown. */
  lemma {:induction false} EveryRunKeepsInvariant<V>(i: Input<V>, runs: seq<Run<V>>, steps: seq<Step>, j: nat)
    requires IsRun(i, runs, steps) && j < |runs|
    ensures Invariant(i, runs[j])
  {
    if j == 0 {
      InitialIsGood(i, runs[0]);
    } else {
      EveryRunKeepsInvariant(i, runs, steps, j - 1);
      RunStep(i, runs, steps, j);
      hide *;
      match steps[j - 1] {
        case Start(w, b) => StartKeeps(i, runs[j - 1], w, b);
        case Next(b) => NextKeeps(i, runs[j - 1], b);
      }
    }
  }

  lemma RunStep<V>(i: Input<V>, runs: seq<Run<V>>, steps: seq<Step>, j: nat)
    requires IsRun(i, runs, steps) && 0 < j < |runs|
    ensures GoodInput(i) && |runs[j - 1].progress| == Batches(i)
    ensures Enabled(i, runs[j - 1], steps[j - 1]) && runs[j] == After(i, runs[j - 1], steps[j - 1])
  {
  }

  lemma InitialIsGood<V>(i: Input<V>, r: Run<V>)
    requires GoodInput(i) && |r.progress| == Batches(i) && Initial(i, r)
    ensures Invariant(i, r)
  {
    forall g: nat ensures OrphanSet(i, r.progress, g) == {} {
    }
  }
}
