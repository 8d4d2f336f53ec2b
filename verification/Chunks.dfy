/** A group's elements cut into chunks of 256 ids. */
module Chunks {
  import opened Wrappers
  import opened BitMask
  import opened SortedStoreProtocol

  /** Number of an id's chunk inside its group, and of the id inside its chunk. */
  function ChunkOf(id: nat): index {
    id % 65536 / 256
  }

  function Slot(id: nat): index {
    id % 256
  }

  lemma IdParts(id: nat)
    ensures id == 65536 * Group(id) + 256 * ChunkOf(id) + Slot(id)
  {
  }

  /** Group, chunk and slot order ids as the ids themselves. */
  lemma PartsOrder(a: nat, b: nat)
    requires a < b && Group(a) == Group(b)
    ensures ChunkOf(a) <= ChunkOf(b)
    ensures ChunkOf(a) == ChunkOf(b) ==> Slot(a) < Slot(b)
  {
    IdParts(a);
    IdParts(b);
  }

  ghost predicate GroupList<V>(es: seq<Element<V>>, g: nat) {
    && (forall k :: 0 <= k < |es| ==> Group(es[k].id) == g)
    && (forall j, k :: 0 <= j < k < |es| ==> es[j].id < es[k].id)
  }

  ghost function ChunkNumber<V>(c: seq<Element<V>>): index {
    if c == [] then 0 else ChunkOf(c[0].id)
  }

  ghost predicate NonEmpty<V>(cs: seq<seq<Element<V>>>) {
    forall c :: 0 <= c < |cs| ==> cs[c] != []
  }

  /** One more element: into the last chunk if it belongs there, else into a new one. */
  ghost function Grown<V>(cs: seq<seq<Element<V>>>, e: Element<V>): (r: seq<seq<Element<V>>>)
    ensures r != []
    ensures NonEmpty(cs) ==> NonEmpty(r)
  {
    var m := |cs| - 1;
    if cs != [] && ChunkNumber(cs[m]) == ChunkOf(e.id) then cs[..m] + [cs[m] + [e]] else cs + [[e]]
  }

  /** Consecutive elements of the same chunk, together. */
  ghost function Split<V>(es: seq<Element<V>>): (cs: seq<seq<Element<V>>>)
    ensures (es == [] <==> cs == []) && NonEmpty(cs)
  {
    if es == [] then [] else Grown(Split(es[..|es| - 1]), es[|es| - 1])
  }

  ghost function ChunkNumbers<V>(cs: seq<seq<Element<V>>>): (ns: seq<index>)
    ensures |ns| == |cs|
  {
    seq(|cs|, c requires 0 <= c < |cs| => ChunkNumber(cs[c]))
  }

  ghost function Slots<V>(c: seq<Element<V>>): (s: seq<index>)
    ensures |s| == |c|
  {
    seq(|c|, k requires 0 <= k < |c| => Slot(c[k].id))
  }

  ghost predicate GoodChunk<V>(c: seq<Element<V>>, g: nat) {
    && c != [] && GroupList(c, g)
    && (forall k :: 0 <= k < |c| ==> ChunkOf(c[k].id) == ChunkNumber(c))
  }

  ghost predicate GoodChunks<V>(cs: seq<seq<Element<V>>>, g: nat) {
    && (forall c :: 0 <= c < |cs| ==> GoodChunk(cs[c], g))
    && (forall c, d :: 0 <= c < d < |cs| ==> ChunkNumber(cs[c]) < ChunkNumber(cs[d]))
  }

  ghost function Joined<V>(cs: seq<seq<Element<V>>>): seq<Element<V>> {
    if cs == [] then [] else Joined(cs[..|cs| - 1]) + cs[|cs| - 1]
  }

  ghost function LastOf<V>(cs: seq<seq<Element<V>>>): Element<V>
    requires cs != [] && cs[|cs| - 1] != []
  {
    var l := cs[|cs| - 1];
    l[|l| - 1]
  }

  lemma GrownIsGood<V>(cs: seq<seq<Element<V>>>, g: nat, e: Element<V>)
    requires GoodChunks(cs, g) && Group(e.id) == g
    requires cs != [] ==> cs[|cs| - 1] != [] && LastOf(cs).id < e.id
    ensures GoodChunks(Grown(cs, e), g)
    ensures Grown(cs, e)[|Grown(cs, e)| - 1] != [] && LastOf(Grown(cs, e)) == e
    ensures Joined(Grown(cs, e)) == Joined(cs) + [e]
  {
    hide ChunkOf;
    hide Group;
    hide GroupList;
    var m := |cs| - 1;
    if cs != [] && ChunkNumber(cs[m]) == ChunkOf(e.id) {
      ChunkGrows(cs[m], e, g);
      JoinedGrows(cs, e);
    } else {
      assert (cs + [[e]])[..|cs|] == cs;
      SingleChunk(e, g);
      if cs != [] {
        LastChunkNumber(cs[m], g);
        PartsOrder(LastOf(cs).id, e.id);
        NumbersBelow(cs, g, ChunkOf(e.id));
      }
    }
  }

  lemma JoinedGrows<V>(cs: seq<seq<Element<V>>>, e: Element<V>)
    requires cs != []
    ensures Joined(cs[..|cs| - 1] + [cs[|cs| - 1] + [e]]) == Joined(cs) + [e]
  {
    hide *;
    var front, last := cs[..|cs| - 1], cs[|cs| - 1];
    JoinedUnfold(cs);
    JoinedLast(front, last + [e]);
    Regrouped(Joined(front), last, e);
  }

  lemma JoinedUnfold<V>(cs: seq<seq<Element<V>>>)
    requires cs != []
    ensures Joined(cs) == Joined(cs[..|cs| - 1]) + cs[|cs| - 1]
  {
  }

  lemma Regrouped<V>(a: seq<V>, b: seq<V>, e: V)
    ensures a + (b + [e]) == a + b + [e]
  {
  }

  lemma JoinedLast<V>(front: seq<seq<Element<V>>>, last: seq<Element<V>>)
    ensures Joined(front + [last]) == Joined(front) + last
  {
    assert (front + [last])[..|front|] == front;
  }

  lemma SingleChunk<V>(e: Element<V>, g: nat)
    requires Group(e.id) == g
    ensures GoodChunk([e], g) && ChunkNumber([e]) == ChunkOf(e.id)
  {
  }

  lemma LastChunkNumber<V>(c: seq<Element<V>>, g: nat)
    requires GoodChunk(c, g)
    ensures ChunkOf(c[|c| - 1].id) == ChunkNumber(c) && Group(c[|c| - 1].id) == g
  {
    hide ChunkOf;
    hide Group;
  }

  lemma NumbersBelow<V>(cs: seq<seq<Element<V>>>, g: nat, n: nat)
    requires GoodChunks(cs, g) && cs != [] && ChunkNumber(cs[|cs| - 1]) < n
    ensures forall c :: 0 <= c < |cs| ==> ChunkNumber(cs[c]) < n
  {
    hide GoodChunk;
    hide ChunkNumber;
    forall c | 0 <= c < |cs| ensures ChunkNumber(cs[c]) < n {
      if c < |cs| - 1 {
        assert ChunkNumber(cs[c]) < ChunkNumber(cs[|cs| - 1]);
      }
    }
  }

  lemma {:induction false} SplitIsGood<V>(es: seq<Element<V>>, g: nat)
    requires GroupList(es, g)
    ensures GoodChunks(Split(es), g) && Joined(Split(es)) == es
    ensures es != [] ==> Split(es)[|Split(es)| - 1] != [] && LastOf(Split(es)) == es[|es| - 1]
  {
    hide Grown;
    hide GoodChunks;
    hide ChunkOf;
    hide Group;
    if es == [] {
      EmptySplit<V>(g);
    } else {
      var n := |es| - 1;
      SplitIsGood(es[..n], g);
      GrownIsGood(Split(es[..n]), g, es[n]);
      assert es[..n] + [es[n]] == es;
    }
  }

  lemma EmptySplit<V>(g: nat)
    ensures GoodChunks<V>([], g) && Joined<V>([]) == []
  {
  }

  lemma ChunkGrows<V>(c: seq<Element<V>>, e: Element<V>, g: nat)
    requires GoodChunk(c, g) && Group(e.id) == g && ChunkOf(e.id) == ChunkNumber(c) && c[|c| - 1].id < e.id
    ensures GoodChunk(c + [e], g) && ChunkNumber(c + [e]) == ChunkNumber(c)
  {
    hide ChunkOf;
    hide Group;
    forall k | 0 <= k < |c| ensures c[k].id < e.id {
      if k < |c| - 1 {
        assert c[k].id < c[|c| - 1].id;
      }
    }
  }

  lemma ChunkPositions<V>(cs: seq<seq<Element<V>>>, g: nat)
    requires GoodChunks(cs, g)
    ensures Positions(ChunkNumbers(cs)) && |cs| <= 256
  {
    hide ChunkOf;
    PositionsFew(ChunkNumbers(cs), |cs|);
  }

  lemma SlotPositions<V>(c: seq<Element<V>>, g: nat)
    requires GoodChunk(c, g)
    ensures Positions(Slots(c)) && |c| <= 256
  {
    forall j, k | 0 <= j < k < |c| ensures Slots(c)[j] < Slots(c)[k] {
      PartsOrder(c[j].id, c[k].id);
    }
    PositionsFew(Slots(c), |c|);
  }

  lemma {:induction false} PositionsFew(ps: seq<index>, n: nat)
    requires Positions(ps) && n <= |ps|
    ensures n <= 256 && (n > 0 ==> n - 1 <= ps[n - 1])
  {
    if n > 0 {
      PositionsFew(ps, n - 1);
      assert n > 1 ==> ps[n - 2] < ps[n - 1];
    }
  }

  // ----- Finding an id -----

  ghost predicate At<V>(cs: seq<seq<Element<V>>>, c: nat, k: nat, id: nat) {
    c < |cs| && k < |cs[c]| && cs[c][k].id == id
  }

  /** An element of the group is found at its chunk and slot. */
  lemma {:induction false} InSomeChunk<V>(cs: seq<seq<Element<V>>>, j: nat) returns (c: nat, k: nat)
    requires j < |Joined(cs)|
    ensures c < |cs| && k < |cs[c]| && cs[c][k] == Joined(cs)[j]
  {
    var n := |cs| - 1;
    var front := Joined(cs[..n]);
    if j < |front| {
      c, k := InSomeChunk(cs[..n], j);
    } else {
      c, k := n, j - |front|;
    }
  }

  lemma {:induction false} ChunkInJoined<V>(cs: seq<seq<Element<V>>>, c: nat, k: nat) returns (j: nat)
    requires c < |cs| && k < |cs[c]|
    ensures j < |Joined(cs)| && Joined(cs)[j] == cs[c][k]
  {
    var n := |cs| - 1;
    if c < n {
      j := ChunkInJoined(cs[..n], c, k);
    } else {
      j := |Joined(cs[..n])| + k;
    }
  }

  /** Chunk and slot numbers identify an id of the group. */
  lemma PlaceIsId<V>(cs: seq<seq<Element<V>>>, g: nat, c: nat, k: nat, id: nat)
    requires GoodChunks(cs, g) && c < |cs| && k < |cs[c]| && Group(id) == g
    ensures cs[c][k].id == id <==> ChunkNumber(cs[c]) == ChunkOf(id) && Slots(cs[c])[k] == Slot(id)
  {
    assert GoodChunk(cs[c], g);
    assert ChunkOf(cs[c][k].id) == ChunkNumber(cs[c]);
    IdParts(cs[c][k].id);
    IdParts(id);
  }

  ghost function Lookup<V>(es: seq<Element<V>>, id: nat): Option<V> {
    if exists k :: 0 <= k < |es| && es[k].id == id then
      var k :| 0 <= k < |es| && es[k].id == id;
      Some(es[k].value)
    else None
  }

  lemma LookupIs<V>(es: seq<Element<V>>, g: nat, j: nat)
    requires GroupList(es, g) && j < |es|
    ensures Lookup(es, es[j].id) == Some(es[j].value)
  {
    var k :| 0 <= k < |es| && es[k].id == es[j].id;
  }

  lemma LookupNone<V>(es: seq<Element<V>>, id: nat)
    requires forall j :: 0 <= j < |es| ==> es[j].id != id
    ensures Lookup(es, id) == None
  {
  }
}
