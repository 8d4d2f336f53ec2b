/** Reading a way's coordinates: its node ids from the way store, and each node's place
    from the node store. */
module WayReading {
  import opened Coordinates
  import opened Wrappers
  import opened SortedStoreProtocol
  import opened SortedStoreFinalize
  import opened SortedStoreAnswers
  import opened Chunks
  import opened IntCodec
  import opened WayCodec
  import Nodes = SortedNodeStore
  import Ways = SortedWayStore

  /** The places of some nodes. None where one of them is missing, and the program throws. */
  ghost function Places(published: map<nat, seq<Element<LatpLon>>>, ids: seq<nat>): (r: Option<seq<LatpLon>>) {
    if ids == [] then Some([])
    else
      var before := Places(published, ids[..|ids| - 1]);
      var last := Answer(published, ids[|ids| - 1]);
      if before.Some? && last.Some? then Some(before.value + [last.value]) else None
  }

  /** Neither store's table of groups ends before these ids. */
  ghost predicate InTable(ids: seq<nat>) {
    forall k :: 0 <= k < |ids| ==> ids[k] < 0x4_0000_0000
  }

  /** What reading a way gives, from what is published. */
  ghost function WayPlaces(ways: map<nat, seq<Element<seq<NodeId>>>>, nodes: map<nat, seq<Element<LatpLon>>>, id: nat): Option<seq<LatpLon>> {
    match Ways.Read(Answer(ways, id))
    case Some(ids) => Places(nodes, ids)
    case None => None
  }

  /** at of the way store. */
  method At(ways: Ways.SortedWayStore, nodes: Nodes.SortedNodeStore, id: nat) returns (r: Option<seq<LatpLon>>)
    requires ways.Valid() && nodes.Valid() && id < 0x8000_0000
    requires Ways.Read(Answer(ways.published, id)).Some? ==> InTable(Ways.Read(Answer(ways.published, id)).value)
    modifies nodes`cachedChunk, nodes`cacheChunkLatps, nodes`cacheChunkLons
    ensures nodes.Valid() && r == WayPlaces(ways.published, nodes.published, id)
  {
    hide *;
    var read := ways.At(id);
    WayPlacesIs(ways.published, nodes.published, id);
    if read.None? {
      return None;
    }
    var ids := read.value;
    var places: seq<LatpLon> := [];
    NoPlaces(nodes.published, ids);
    for i := 0 to |ids|
      invariant nodes.Valid() && Places(nodes.published, ids[..i]) == Some(places)
    {
      InTableAt(ids, i);
      var place := nodes.At(ids[i]);
      OneMorePlace(nodes.published, ids, i);
      if place.None? {
        PlacesStop(nodes.published, ids, i + 1);
        return None;
      }
      places := places + [place.value];
    }
    assert ids[..|ids|] == ids;
    r := Some(places);
  }

  lemma WayPlacesIs(ways: map<nat, seq<Element<seq<NodeId>>>>, nodes: map<nat, seq<Element<LatpLon>>>, id: nat)
    ensures var read := Ways.Read(Answer(ways, id));
            WayPlaces(ways, nodes, id) == if read.Some? then Places(nodes, read.value) else None
  {
    hide Answer, Places;
  }

  lemma InTableAt(ids: seq<nat>, i: nat)
    requires InTable(ids) && i < |ids|
    ensures ids[i] < 0x4_0000_0000
  {
  }

  lemma NoPlaces(published: map<nat, seq<Element<LatpLon>>>, ids: seq<nat>)
    ensures Places(published, ids[..0]) == Some([])
  {
  }

  lemma OneMorePlace(published: map<nat, seq<Element<LatpLon>>>, ids: seq<nat>, i: nat)
    requires i < |ids|
    ensures var before, last := Places(published, ids[..i]), Answer(published, ids[i]);
            Places(published, ids[..i + 1]) == if before.Some? && last.Some? then Some(before.value + [last.value]) else None
  {
    hide Answer;
    assert ids[..i + 1][..i] == ids[..i];
  }

  lemma {:induction false} PlacesStop(published: map<nat, seq<Element<LatpLon>>>, ids: seq<nat>, i: nat)
    requires i <= |ids| && Places(published, ids[..i]) == None
    ensures Places(published, ids) == None
  {
    hide Answer;
    if i == |ids| {
      assert ids[..i] == ids;
    } else {
      assert ids[..|ids| - 1][..i] == ids[..i];
      PlacesStop(published, ids[..|ids| - 1], i);
    }
  }

  // ----- Both stores filled -----

  /** A way's nodes looked up one by one in the stream of nodes. */
  ghost function PlacesIn(stream: seq<Element<LatpLon>>, ids: seq<nat>): Option<seq<LatpLon>> {
    if ids == [] then Some([])
    else
      var before := PlacesIn(stream, ids[..|ids| - 1]);
      var last := Lookup(stream, ids[|ids| - 1]);
      if before.Some? && last.Some? then Some(before.value + [last.value]) else None
  }

  /** However nodes and ways came in, a way is read as the places that its nodes have in
      the stream of nodes, if all of them do, and any other way is missing. */
  lemma FilledStoresRead(ic: IntCodec, compress: bool,
                         nodes: Input<LatpLon>, nodeRuns: seq<Run<LatpLon>>, nodeSteps: seq<Step>,
                         ways: Input<seq<NodeId>>, wayRuns: seq<Run<seq<NodeId>>>, waySteps: seq<Step>, id: nat)
    requires GoodIntCodec(ic)
    requires IsRun(nodes, nodeRuns, nodeSteps) && AllRead(nodes, nodeRuns[|nodeSteps|].progress)
    requires IsRun(ways, wayRuns, waySteps) && AllRead(ways, wayRuns[|waySteps|].progress)
    requires forall k :: 0 <= k < |ways.stream| ==> Ways.Storable(compress, ways.stream[k].value)
    ensures var w, n := Finalized(wayRuns[|waySteps|].store).published, Finalized(nodeRuns[|nodeSteps|].store).published;
            WayPlaces(w, n, id) ==
              match Lookup(ways.stream, id)
              case Some(way) => PlacesIn(nodes.stream, way)
              case None => None
  {
    hide *;
    RunInput(nodes, nodeRuns, nodeSteps);
    RunInput(ways, wayRuns, waySteps);
    Ways.FilledStoreReads(ic, compress, ways, wayRuns, waySteps, id);
    var w, n := Finalized(wayRuns[|waySteps|].store).published, Finalized(nodeRuns[|nodeSteps|].store).published;
    WayPlacesIs(w, n, id);
    if Lookup(ways.stream, id).Some? {
      PlacesAreIn(nodes, nodeRuns, nodeSteps, Lookup(ways.stream, id).value);
    }
  }

  lemma {:induction false} PlacesAreIn(nodes: Input<LatpLon>, runs: seq<Run<LatpLon>>, steps: seq<Step>, ids: seq<nat>)
    requires IsRun(nodes, runs, steps) && AllRead(nodes, runs[|steps|].progress)
    ensures Places(Finalized(runs[|steps|].store).published, ids) == PlacesIn(nodes.stream, ids)
  {
    hide IsRun, AllRead, Finalized, Answer, Lookup;
    if ids != [] {
      PlacesAreIn(nodes, runs, steps, ids[..|ids| - 1]);
      FilledStoreAnswers(nodes, runs, steps, ids[|ids| - 1]);
    }
  }
}
