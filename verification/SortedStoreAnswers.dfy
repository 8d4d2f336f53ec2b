/** What a filled store knows of an id. */
module SortedStoreAnswers {
  import opened Wrappers
  import opened SortedStoreProtocol
  import opened SortedStoreFinalize
  import opened Chunks

  /** The value under an id in the published groups. */
  ghost function Answer<V>(published: map<nat, seq<Element<V>>>, id: nat): Option<V> {
    if Group(id) in published then Lookup(published[Group(id)], id) else None
  }

  lemma LookupInMembers<V>(stream: seq<Element<V>>, id: nat)
    requires Ascending(stream)
    ensures Lookup(Members(stream, Group(id)), id) == Lookup(stream, id)
  {
    hide Group;
    var g := Group(id);
    MembersElements(stream, g);
    var m := Members(stream, g);
    if j: nat :| j < |stream| && stream[j].id == id {
      assert stream[j] in SetOf(m);
      var k :| 0 <= k < |m| && m[k] == stream[j];
      LookupAscending(m, k);
      LookupAscending(stream, j);
    } else {
      forall k | 0 <= k < |m| ensures m[k].id != id {
        assert m[k] in SetOf(m);
      }
    }
  }

  lemma LookupAscending<V>(es: seq<Element<V>>, j: nat)
    requires Ascending(es) && j < |es|
    ensures Lookup(es, es[j].id) == Some(es[j].value)
  {
    var k :| 0 <= k < |es| && es[k].id == es[j].id;
  }

  /** However the sorted stream was cut into batches and the batches were worked on, a
      filled store answers for every id as a scan of the stream would. */
  lemma FilledStoreAnswers<V>(i: Input<V>, runs: seq<Run<V>>, steps: seq<Step>, id: nat)
    requires IsRun(i, runs, steps) && AllRead(i, runs[|steps|].progress)
    ensures var s := Finalized(runs[|steps|].store); !s.failed && Answer(s.published, id) == Lookup(i.stream, id)
  {
    hide *;
    RunInput(i, runs, steps);
    EverythingPublishedOnce(i, runs, steps);
    LookupInMembers(i.stream, id);
    AnswerIs(i, Finalized(runs[|steps|].store).published, id);
  }

  lemma RunInput<V>(i: Input<V>, runs: seq<Run<V>>, steps: seq<Step>)
    requires IsRun(i, runs, steps)
    ensures Ascending(i.stream) && |runs| == |steps| + 1
  {
  }

  lemma AnswerIs<V>(i: Input<V>, published: map<nat, seq<Element<V>>>, id: nat)
    requires forall g :: g in published ==> published[g] == Members(i.stream, g)
    requires forall k :: 0 <= k < |i.stream| ==> G(i, k) in published
    requires Lookup(Members(i.stream, Group(id)), id) == Lookup(i.stream, id)
    ensures Answer(published, id) == Lookup(i.stream, id)
  {
    hide Members;
    hide Group;
    if Group(id) !in published {
      assert forall k :: 0 <= k < |i.stream| ==> i.stream[k].id != id by {
        forall k | 0 <= k < |i.stream| ensures i.stream[k].id != id {
          assert G(i, k) in published;
        }
      }
    }
  }
}
