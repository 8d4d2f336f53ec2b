# tilemaker: a model of its indexes, codecs and line algorithms

tilemaker reads OpenStreetMap data and writes vector tiles. Between reading and writing, it keeps
nodes, ways and attributes in compact concurrent stores, indexes objects by tile, simplifies and
joins lines, and packs tiles into an archive. This project models those parts and proves that
they answer as simple maps, lists and scans would.

Code that updates state is a class or a method with loops, proved against a specification
function; what the program promises is proved about that function. Threads are state machines
with one step for each critical section, and the invariants hold in every state of every run.
`Arithmetic`, `Coordinates` and `Wrappers` are shared by all parts.

**PMTiles archive** (`Hilbert`, `Varint`, `Directory`, `DirectoryIndex`, `RunLengths`, `Archive`,
`PMTilesProtocol`, `PMTilesDirectories`, `PMTiles`). Tile ids along the Hilbert curve; varints;
directories printed by column and parsed back; run-length encoding; the split into a root and
leaf directories; `saveTile` in its three critical sections; `close`; `get_tile`. The main result
is `PMTiles.PMTiles.Close`: in a closed file, sparse or dense, following the directories finds
for every (z, x, y) the region stored last for it, and nothing for a tile never saved.
`PMTilesProtocol.EveryRunKeepsInvariant` and `IndexNamesLastSaved` say the same of the index
under every interleaving of savers.

**Sorted stores** (`SortedStoreProtocol`, `SortedStoreFinalize`, `SortedStoreAnswers`, `BitMask`,
`Memory`, `IntCodec`, `StreamVByte`, `Chunks`, `NodeGroup`, `NodeGroupWriter`, `SortedNodeStore`,
`WayCodec`, `WayGroup`, `WayGroupWriter`, `SortedWayStore`, `WayReading`). Workers read
contiguous batches of one sorted stream, publish the groups inside a batch and leave the groups
at its edges to the orphanage. The protocol is generic in what is stored, so that it covers nodes
and ways. For any batches, workers and interleaving every element is published exactly once
(`SortedStoreFinalize.EverythingPublishedOnce`), and a filled store answers as a search of the
stream would (`SortedStoreAnswers.FilledStoreAnswers`). The byte layouts of groups are modelled
to the byte: masks, ranks by popcount, scaled 16-bit offsets, padding, compression flags. Reading
them back gives what was published, also through the one-chunk cache. Both stores together read a
way as the places that its nodes have in the stream of nodes (`WayReading.FilledStoresRead`).

**Tile index** (`TileOrder`, `TileIndex`, `TileDataSource`, `TileCoverage`). Objects sorted by
tile at every zoom in turn; the query by `lower_bound` that stops at the first mismatch; the
copies for low zooms; the bitmaps of tiles to write. A query returns the multiset that a full
scan of everything added returns. The bitmaps mark every tile for which a query returns
something, and no other unless something reaches the row behind the map's last.

**Lines** (`Supercover`, `MinHeap`, `Triangles`, `Visvalingam`, `WayMerge`). The rasteriser marks exactly the
tiles whose closed square meets a segment. The simplifier, with its indexed heap and linked list,
removes points in ascending order of area and leaves none below the threshold that it may remove;
what the area is, `Triangles` says without its formula.
Ways of a multipolygon are joined end to end, each used once.

**Interning and buffering** (`DequeMap`, `AttributePairs`, `AttributePairStore`, `MBTiles`).
Append-only indexes under a sorted permutation; attribute pairs in shards with stale per-thread
copies and caches; the MBTiles writer's double buffer.

## Where the code falls short of what it promises

The model follows the code. Where a promise holds only under a condition, the condition is
proved exact, or it is proved sufficient and an input that breaks the promise is given.

- A directory comes back from `serialize_directory` and `deserialize_directory` if and only if
  tile ids do not descend, no entry that continues the one before does so past 2^64, and no other
  entry but the first has the offset 2^64 - 1 (`Directory.RoundTrip`).
- `run_length++` wraps at 2^32: a run of 2^32 tiles turns into a pointer to a leaf directory
  (`DirectoryIndex.HugeRunBecomesPointer`). An encoded list answers as the tiles do if and only
  if no 2^32 consecutive ids share an offset (`RunLengths.EncodingIsExact`).
- `TileOffset` has 40 bits for an offset and 24 for a length, and cuts what does not fit
  (`PMTilesProtocol.PackedKeeps`).
- `encodeWay` refuses some node ids of 2^35 and more, and silently cuts others: a way that is
  encoded comes back if and only if its ids are all below 2^35 (`WayCodec.RoundTrip`,
  `WayCodec.HighIdIsCutShort`).
- `encodeWay` compresses into 8,192 bytes of scratch memory without checking that the result
  fits. A way of ids below 2^35 is encoded if and only if its compressed deltas fit, which can be
  told from the way (`WayCodec.SmallIdsFit`, `WayCodec.ScratchIs`). Up to 1,928 points they
  always do; 1,930 nodes far apart do not (`WayCodec.ScratchIsEnough`, `WayCodec.WayOverruns`).
- `PreciseTileCoordinatesSet::set` does not check the row: a box that reaches row 2^zoom sets the
  bit of the next column's first tile. Tiles that are needed are always marked; the marked tiles
  are just those if nothing reaches that row (`TileCoverage.NeededIsMarked`,
  `TileCoverage.MarkedIsNeeded`, `TileCoverage.EdgeRowWraps`, `TileCoverage.WrongTileMarked`).
- A cold attribute shard throws when a pair is added past 2^18, but the pair stays: the next
  `addPair` of it finds it and returns an index that names a pair of the next shard
  (`AttributePairs.OverflowAliases`). Over all runs, an answer yields its pair if and only if the
  pair's offset is below 2^18 (`AttributePairs.AnswerYieldsPair`).
- MBTiles drains a buffer from its end, and the thread that wins the lock writes before what
  waits, so that an older version of a tile may replace a newer one (`MBTiles.BufferedTwice`,
  `MBTiles.WonWhileWaiting`). The newest version is kept if and only if, when it was saved, no
  version of its tile was waiting in either buffer, for a thread that won the lock, or in the
  first buffer, for one that did not (`MBTiles.NewestIsKept`).
- `isClosed` in `src/osm_store.cpp` compares iterators, so that it holds for an empty way only,
  although the comments describe it as start == end. A ring in the list therefore goes through
  the joining loop like any other way. It is a result of its own if no other available way ends
  at its node (`WayMerge.RingAlone`), and may be spliced into an open result if one does
  (`WayMerge.RingInAList`).

## Model

| member | source | states |
|---|---|---|
| Hilbert.Rotate | include/external/pmtiles.hpp:318-328 | reflects a quadrant, for any integers, as the curve's definition does |
| Hilbert.TOnLevel | include/external/pmtiles.hpp:330-345 | the loop from the lowest bits up finds the tile at a position of the recursively defined curve |
| Hilbert.ZxyToTileId | include/external/pmtiles.hpp:414-434 | the loop, on coordinates that go negative and keep stale high bits, finds the tile's position on the curve plus the start of its zoom; succeeds exactly for zooms up to 31 and coordinates below 2^z, with both errors |
| Hilbert.TileIdToZxy | include/external/pmtiles.hpp:402-412 | finds the zoom whose interval holds the id and the tile at that position; fails exactly from the id (4^32 - 1) / 3 on, 0x5555555555555555 |
| Hilbert.PlacedInverse | include/external/pmtiles.hpp:318-328 | placing a quadrant's tile on the level above loses nothing |
| Hilbert.InsideInverse | include/external/pmtiles.hpp:318-328 | taking a tile into its quadrant and placing it back gives the tile |
| Hilbert.TileAtPosition | include/external/pmtiles.hpp:330-345 | the tile at a tile's position is that tile |
| Hilbert.PositionOfTileAt | include/external/pmtiles.hpp:414-434 | the position of the tile at p is p |
| Hilbert.DecodeStep | include/external/pmtiles.hpp:330-345 | one round of the decoder's loop reads one quadrant of the recursion |
| Hilbert.EncodeStep | include/external/pmtiles.hpp:421-431 | one round of the encoder's loop, on the low bits of arbitrary integers, takes one quadrant off the recursion |
| Hilbert.CurveEnds | include/external/pmtiles.hpp:330-345 | the curve of each order runs from the corner (0, 0) to the corner (2^k - 1, 0) |
| Hilbert.ConsecutiveAreAdjacent | include/external/pmtiles.hpp:330-345 | tiles at consecutive positions of a zoom share an edge |
| Hilbert.ParentAtQuarter | include/external/pmtiles.hpp:330-345 | the parent of the tile at p of zoom z + 1 is the tile at p / 4 of zoom z |
| Hilbert.LevelStartClosedForm | include/external/pmtiles.hpp:402-412 | the levels before z hold (4^z - 1) / 3 ids |
| Hilbert.LevelInterval | include/external/pmtiles.hpp:414-434 | a zoom's ids lie in the interval of 4^z ids from (4^z - 1) / 3 and fit in 63 bits |
| Hilbert.EndOfLevels | include/external/pmtiles.hpp:402-412 | the zooms up to 31 have (4^32 - 1) / 3 ids |
| Hilbert.TilesWithIds | include/external/pmtiles.hpp:414-420 | a tile has an id if and only if its zoom is at most 31 and both coordinates are below 2^z; from zoom 32 on the zoom is refused, otherwise the coordinates; ids are below (4^32 - 1) / 3 |
| Hilbert.DecodeOfEncode | include/external/pmtiles.hpp:402-434 | whatever zoom an encoded id falls in, it is the tile's, and decoding gives the tile |
| Hilbert.EncodeOfDecode | include/external/pmtiles.hpp:402-434 | encoding the tile of an id gives the id |
| Hilbert.RoundTripTile | include/external/pmtiles.hpp:402-434 | both loops in turn return every tile of every zoom up to 31 |
| Hilbert.RoundTripId | include/external/pmtiles.hpp:402-434 | both loops in turn return every id below (4^32 - 1) / 3 |
| Hilbert.TileIdsAreDistinct | include/external/pmtiles.hpp:414-434 | tiles of any zooms have one id only if they are the same |
| Varint.WriteVarint | include/external/pmtiles.hpp:347-358 | appends the base-128 digits of the value, least first, and counts them |
| Varint.DecodeVarint | include/external/pmtiles.hpp:307-316 | the one-byte shortcut and the two long paths all read the same value and length, with the same errors |
| Varint.DecodeFast | include/external/pmtiles.hpp:237-290 | with ten bytes ahead, reads up to ten, one bit of the tenth, and refuses an eleventh |
| Varint.DecodeSlow | include/external/pmtiles.hpp:291-301 | near the end of the buffer, reads to the terminator or reports the end |
| Varint.GroupsOfEncoding | include/external/pmtiles.hpp:347-358 | the seven-bit groups of an encoding spell the value, and its last byte is the first terminator |
| Varint.EncodingLength | include/external/pmtiles.hpp:347-358 | a value below 128^k takes at most k bytes |
| Varint.DecodedOfEncoding | include/external/pmtiles.hpp:231-358 | decoding an encoding followed by anything gives the value and uses exactly the encoding, on every path |
| Directory.SerializeDirectory | include/external/pmtiles.hpp:437-465 | prints the count and the columns of id differences, run lengths, lengths and offset codes |
| Directory.ContinuedIsZero | include/external/pmtiles.hpp:456-462 | an offset is printed as 0 exactly where the region begins at the end of the one before, or one past it wraps to 0, and as one more otherwise |
| Directory.DeserializeDirectory | include/external/pmtiles.hpp:474-535 | parses the columns, with each of the parser's errors, and demands the whole buffer |
| Directory.ReadIds | include/external/pmtiles.hpp:489-498 | sums the differences, and refuses a sum past 64 bits |
| Directory.ReadOffsets | include/external/pmtiles.hpp:516-527 | reads offsets, a zero continuing the previous entry, and refuses a sum past 64 bits |
| Directory.IdsRoundTrip | include/external/pmtiles.hpp:437-498 | printed ids are parsed back if they do not descend, and are malformed otherwise |
| Directory.OffsetsRoundTrip | include/external/pmtiles.hpp:437-527 | printed offsets are parsed back if every one is safe, and never otherwise |
| Directory.RoundTrip | include/external/pmtiles.hpp:437-535 | a directory comes back, the whole buffer used, if and only if ids do not descend and every offset is safe |
| DirectoryIndex.FindTile | include/external/pmtiles.hpp:374-398 | in a sorted list the binary search finds the last entry not after the id, if it is a pointer or its run covers the id, and the null entry otherwise; in any list, what it returns is for the id |
| DirectoryIndex.AppendWithRLE | src/pmtiles.cpp:102-111 | appends the entry or lengthens the last run in place |
| DirectoryIndex.WithTileKeepsRuns | src/pmtiles.cpp:102-111 | as tiles arrive in ascending order, the runs agree with the map of tiles, unless the run extended would have 2^32 ids of one offset |
| DirectoryIndex.RunsExtendLast | src/pmtiles.cpp:103-110 | merging by offset alone is sound where equal offsets have equal lengths and the counter does not wrap |
| DirectoryIndex.HugeRunBecomesPointer | src/pmtiles.cpp:110-110 | adding a tile to a run makes it read as a pointer if and only if the run had 2^32 - 1 tiles |
| DirectoryIndex.LastRunIsShort | src/pmtiles.cpp:103-110 | the counter of the run that a tile extends is full only if the tile is the last of 2^32 consecutive ids of one offset |
| DirectoryIndex.FoundInRuns | include/external/pmtiles.hpp:374-398 | in a list of runs, an id of the index is found with its region, and any other is not found |
| RunLengths.EncodingIsExact | src/pmtiles.cpp:101-111 | the list made of any ascending tiles answers for every id as the tiles do if and only if no 2^32 consecutive ids share an offset |
| RunLengths.EncodedIs | src/pmtiles.cpp:101-111 | at every length of the list: a counter has wrapped if and only if there is such a stretch, and until then runs are right, apart, and as long as they can be |
| RunLengths.LastRunHolds | src/pmtiles.cpp:103-110 | runs being as long as they can be, the last one holds all the ids before a tile that share its offset |
| RunLengths.WrapStays | src/pmtiles.cpp:103-110 | a wrapped run is never lengthened again |
| DirectoryIndex.ThroughPointers | src/pmtiles.cpp:114-130 | the leaf a pointer leads to holds the entry that the undivided list would give |
| DirectoryIndex.PointersSorted | src/pmtiles.cpp:127-129 | the root's pointers are in order, at ids of the list |
| Archive.GetTile | include/external/pmtiles.hpp:605-635 | with the directories in order, follows up to four of them to a region, the empty answer, or an error; in any archive, fails as a bad tile exactly for one, and a region has its place in the tile data |
| Archive.StoredReads | include/external/pmtiles.hpp:615-620 | a directory stored by the writer is read back |
| Archive.RootFinds | include/external/pmtiles.hpp:374-398 | the root directory gives the entry of the undivided list, or the pointer to the leaf that has it |
| Archive.HoldsReads | include/external/pmtiles.hpp:605-635 | root then leaf gives every id's region, nothing for other ids, and every directory met is sorted |
| PMTilesProtocol.PackedKeeps | src/pmtiles.cpp:152-152 | a packed offset and length are kept if and only if they are below 2^40 and 2^24 |
| PMTilesProtocol.LowZoomsFirst | include/pmtiles.h:20-21 | the tile ids before the first one for leaf directories are those of the zooms below 6 |
| PMTilesProtocol.LookupKeeps | src/pmtiles.cpp:140-148 | the first critical section keeps the invariant; a cached region holds the data's compression |
| PMTilesProtocol.WriteKeeps | src/pmtiles.cpp:149-155 | the second critical section keeps it: regions stay written, apart from each other, and named by what named them |
| PMTilesProtocol.AppendKeepsRegions | src/pmtiles.cpp:150-153 | appending to the file leaves each region's bytes and keeps regions apart |
| PMTilesProtocol.StoreKeeps | src/pmtiles.cpp:158-172 | the third critical section keeps it, with the cache emptied at its limit and never overwritten |
| PMTilesProtocol.CacheRemembers | src/pmtiles.cpp:169-172 | data of less than 100 bytes, and no other, is in the cache once saved; the cache keeps what it had up to 10,000 entries and never exceeds 10,001 |
| PMTilesProtocol.EqualOffsetsEqualLengths | src/pmtiles.cpp:102-111 | index entries of equal offset are equal and hold the same data |
| PMTilesProtocol.EveryRunKeepsInvariant | src/pmtiles.cpp:135-173 | under every interleaving, index and cache entries name written regions that hold exactly their data's compression, and regions do not overlap |
| PMTilesProtocol.IndexNamesLastSaved | src/pmtiles.cpp:135-173 | under every interleaving, a tile is in the index if and only if it was stored, with the data its last storer was called with |
| PMTilesDirectories.LeafSize | src/pmtiles.cpp:117-118 | a leaf directory's compressed size is positive and fits in 32 bits |
| PMTilesDirectories.PartRunsAreShort | src/pmtiles.cpp:89-99 | what has been entered of an index without long runs has none |
| PMTilesDirectories.LowRunsAreShort | src/pmtiles.cpp:92-94 | the root's runs cannot be long |
| PMTilesDirectories.ListPrints | include/external/pmtiles.hpp:437-465 | sorted entries with offsets below 2^62 print as a directory that parses back |
| PMTilesDirectories.TileFitsLow | src/pmtiles.cpp:91-94 | entering a tile below zoom 6 keeps root, leaves, runs and counts consistent |
| PMTilesDirectories.TileFitsHigh | src/pmtiles.cpp:95-97 | entering a tile from zoom 6 on does |
| PMTilesDirectories.FlushFits | src/pmtiles.cpp:114-130 | writing a leaf directory and its pointer does |
| PMTilesDirectories.Complete | src/pmtiles.cpp:25-69 | when every tile is entered and the root is written, the file holds the index |
| PMTiles.PMTiles.constructor | src/pmtiles.cpp:16-22 | starts with an empty index and room for header and root directory |
| PMTiles.PMTiles.LookUpTiny | src/pmtiles.cpp:140-148 | is the first step of the protocol |
| PMTiles.PMTiles.WriteTile | src/pmtiles.cpp:149-155 | is the second step |
| PMTiles.PMTiles.StoreInIndex | src/pmtiles.cpp:158-172 | is the third step, in a sparse or dense index alike |
| PMTiles.PMTiles.StoreDense | src/pmtiles.cpp:164-165 | growing the table with fillers and setting an element is an update of the map it stands for |
| PMTiles.PMTiles.SaveTile | src/pmtiles.cpp:135-173 | the tile's index entry names a region with the data's compression; every other entry is as it was; a bad tile changes nothing; a tile of less than 100 bytes whose data is remembered is not written again, any other is written once, and tiny tiles are remembered |
| PMTiles.PMTiles.FlushEntries | src/pmtiles.cpp:114-130 | moves the pending entries into a leaf directory in the file |
| PMTiles.PMTiles.AppendTileEntry | src/pmtiles.cpp:90-99 | enters one tile more in root or leaf, and writes a leaf directory as soon as it has 10,000,000 entries |
| PMTiles.PMTiles.EnterSparse | src/pmtiles.cpp:30-33 | enters all of the map in ascending order |
| PMTiles.PMTiles.EnterDense | src/pmtiles.cpp:34-38 | enters all of the table but the fillers |
| PMTiles.PMTiles.WriteFooter | src/pmtiles.cpp:47-63 | puts metadata at the end and the root at byte 127, or fails if it takes more than 16,257 bytes |
| PMTiles.PMTiles.Close | src/pmtiles.cpp:25-87 | for an index in which no 2^32 consecutive ids of zoom 6 and up share an offset: reading any (z, x, y) of the closed file gives the region of the index, or none if the index has none; the region holds the compression of the data saved last; the root directory, at byte 127, has all entries if there are fewer than 2,200, and otherwise those of the zooms below 6 and a pointer for each leaf directory, each but the last of 10,000,000 entries; fails only when such a root takes more than 16,257 bytes |
| PMTiles.EnteredNext | src/pmtiles.cpp:30-33 | taking the least remaining id enters the map in order |
| PMTiles.DenseNext | src/pmtiles.cpp:35-37 | one element of the table enters one id or, as a filler, none |
| PMTiles.ReadBack | src/pmtiles.cpp:25-87 | a complete file with its header answers as the index does, and tile data written before is untouched |
| SortedStoreProtocol.NextKeeps | src/sorted_node_store.cpp:239-283 | inserting the next element of a batch keeps the invariant: stays in the group, hands the first group in, or publishes a middle group |
| SortedStoreProtocol.StartKeeps | src/sorted_node_store.cpp:285-294 | starting a batch keeps the invariant, handing in what the worker still held |
| SortedStoreProtocol.CrossingOut | src/sorted_node_store.cpp:260-278 | at a group's end, the buffer is one whole group's stretch, and goes to the orphanage only if it is the batch's first |
| SortedStoreProtocol.WholeGroup | src/sorted_node_store.cpp:271-282 | a stretch with nothing of its group outside is the whole group |
| SortedStoreProtocol.GroupSize | src/sorted_node_store.cpp:350-353 | a group's stretch has at most 65,536 elements |
| SortedStoreProtocol.GroupIsStretch | src/sorted_node_store.cpp:251-277 | a group is a stretch of 65,536 consecutive ids |
| SortedStoreProtocol.GroupPublished | src/sorted_node_store.cpp:343-353 | a middle group is not empty, not out of range, not too big and not yet present when it is published |
| SortedStoreProtocol.StretchCollected | src/sorted_node_store.cpp:331-339 | handing a stretch in adds exactly its elements to its group's orphans, none twice |
| SortedStoreProtocol.HandInKeeps | src/sorted_node_store.cpp:285-294 | handing a buffer in retires the worker's batch and keeps the invariant |
| SortedStoreProtocol.EveryRunKeepsInvariant | src/sorted_node_store.cpp:239-294 | for any batches, workers and interleaving: each buffer holds a stretch of one group, each element is in one place, published groups are whole, and nothing has thrown |
| SortedStoreFinalize.SortByIdSorts | src/sorted_node_store.cpp:311-315 | sorting orphans of distinct ids gives them in ascending order, none lost |
| SortedStoreFinalize.AscendingUnique | src/sorted_node_store.cpp:310-315 | the order in which workers handed orphans in does not matter: sorted, they are one list |
| SortedStoreFinalize.HandingAllIn | src/sorted_node_store.cpp:297-302 | emptying the buffers hands every batch in |
| SortedStoreFinalize.MembersElements | src/sorted_node_store.cpp:306-318 | a group's list has exactly the stream's elements of the group, in order |
| SortedStoreFinalize.EitherOr | src/sorted_node_store.cpp:296-320 | when all is handed in, a group is published whole or orphaned whole |
| SortedStoreFinalize.OrphanGroup | src/sorted_node_store.cpp:306-318 | an orphaned group, sorted, is the whole group and can be published |
| SortedStoreFinalize.EverythingPublishedOnce | src/sorted_node_store.cpp:239-339 | after any run that reads every batch, finalize throws nothing and leaves each group published once, as exactly its elements of the stream |
| SortedStoreFinalize.FinalizeIsRight | src/sorted_node_store.cpp:296-320 | finalize from any state that satisfies the invariant, with the batches read, does that |
| SortedStoreFinalize.ReadyToFinalize | src/sorted_node_store.cpp:296-320 | what finalize needs holds after any such run: distinct ids among each group's orphans, and nothing that publishing refuses |
| SortedStoreAnswers.LookupInMembers | src/sorted_node_store.cpp:130-154 | looking in the id's group is looking in the stream |
| SortedStoreAnswers.FilledStoreAnswers | src/sorted_node_store.cpp:130-329 | a filled store answers each id as the stream does: its value, or nothing for an id not in it |
| BitMask.RankCounts | src/sorted_node_store.cpp:105-110 | a popcount of whole bytes plus one masked byte counts the bits set before a position |
| BitMask.IncludingSets | src/sorted_node_store.cpp:600-602 | setting a bit sets that bit only |
| BitMask.CountOfPosition | src/sorted_node_store.cpp:145-154 | in the mask of ascending positions, k bits are set before the k-th |
| BitMask.RankOfPosition | src/sorted_node_store.cpp:145-156 | the rank of the k-th position is k: ranks index the offsets that were appended in order |
| BitMask.PopCountOfMask | src/sorted_node_store.cpp:165-165 | a mask has as many bits as positions |
| IntCodec.DeltasRoundTrip | src/sorted_node_store.cpp:177-187 | delta coding and compression give the values back, whatever bytes follow |
| IntCodec.DeltasSize | src/external/streamvbyte_encode.c:69-78 | the compressed size is exactly one byte for four deltas and one to four bytes a delta, told by its size; zero only for a single value |
| IntCodec.WidestDeltas | src/external/streamvbyte_encode.c:14-37 | neighbours more than 2^23 apart take four bytes each |
| IntCodec.NarrowestDeltas | src/external/streamvbyte_encode.c:14-37 | neighbours at most 127 apart take one byte each |
| IntCodec.WidthIsLeast | src/external/streamvbyte_encode.c:14-37 | a word takes at most k bytes if and only if it is below 2^(8k), for k from 1 to 4 |
| StreamVByte.Encode | src/external/streamvbyte_encode.c:39-62 | the loop, with a control byte in the making, writes the format: control bytes, then the values' bytes; what it writes decodes to the values, followed by anything, and no bytes that decode to them are fewer |
| StreamVByte.Decode | src/external/streamvbyte_decode.c:41-60 | the loop reads what the format says, control byte by control byte |
| StreamVByte.DecodedOfEncoded | src/external/streamvbyte_decode.c:41-60 | decoding an encoding followed by anything gives the values |
| StreamVByte.EncodedLength | src/external/streamvbyte_encode.c:69-78 | an encoding's length is that of its control bytes and of its values' bytes |
| StreamVByte.EncodedIsShortest | src/external/streamvbyte_encode.c:14-37 | whatever bytes decode to the values, as many are read as the encoding has, or more |
| StreamVByte.SmallValues | src/external/streamvbyte_encode.c:14-37 | values below 256 are encoded as a control byte of zeros for every four, and a byte each |
| StreamVByte.FourValues | src/external/streamvbyte_encode.c:14-62 | four values of one to four bytes: codes 0, 1, 2 and 3 from the lowest bits of the control byte up, and each value lowest byte first |
| StreamVByte.ZigzagDeltaEncode | src/external/streamvbyte_zigzag.c:13-18 | gives the zigzag of each difference to the value before, wrapped to 32 bits |
| StreamVByte.ZigzagDeltaDecode | src/external/streamvbyte_zigzag.c:32-38 | adds the differences up, wrapped |
| StreamVByte.UndeltasOfDeltas | src/external/streamvbyte_zigzag.c:13-38 | decoding the deltas of any values gives them back, though differences wrap |
| StreamVByte.CompressionIsGood | src/external/streamvbyte_encode.c:14-62 | together they are a compression such as all results about the stores ask for |
| Chunks.SplitIsGood | src/sorted_node_store.cpp:375-426 | cutting a sorted group at changes of chunk number gives non-empty ascending chunks that join to the group |
| Chunks.ChunkPositions | src/sorted_node_store.cpp:584-587 | a group has at most 256 chunks, at ascending positions of the mask |
| Chunks.SlotPositions | src/sorted_node_store.cpp:597-602 | a chunk has at most 256 nodes, at ascending positions of the mask |
| Chunks.PlaceIsId | src/sorted_node_store.cpp:131-137 | in a group, an id is its chunk number and slot |
| NodeGroup.PlainReads | src/sorted_node_store.cpp:201-210 | an uncompressed chunk gives each node's coordinates at its rank |
| NodeGroup.PackedDecodes | src/sorted_node_store.cpp:159-188 | a compressed chunk decodes to all its coordinates, sizes taken from its flags and mask |
| NodeGroup.ChunkReads | src/sorted_node_store.cpp:156-210 | a chunk's bytes, compressed or not, give each node's coordinates and nothing for other slots |
| NodeGroup.ChunkSize | src/sorted_node_store.cpp:439-454 | a chunk takes at most 2,096 bytes, padding included, since compression is used only when smaller |
| NodeGroup.CompressesIs | src/sorted_node_store.cpp:385-413 | a chunk is compressed, if at all, exactly if both compressed sizes are below 1,024 and the chunk gets smaller; its size can be told from its coordinates |
| NodeGroup.NearNodesAreShort | src/sorted_node_store.cpp:385-413 | two nodes or more at most 127 apart are compressed, to one byte a delta |
| NodeGroup.OffsetFits | src/sorted_node_store.cpp:518-525 | every scaled offset is exact and fits in 16 bits: neither exception about offsets can be thrown |
| NodeGroup.AreaHolds | src/sorted_node_store.cpp:501-578 | each chunk's bytes stand whole at its offset |
| NodeGroup.LayoutReads | src/sorted_node_store.cpp:130-211 | reading an id from a published group's memory gives the group's value for it, or nothing if it has none |
| NodeGroupWriter.SizeIsNotTheSentinel | src/sorted_node_store.cpp:365-368 | a real chunk's recorded size is never the 0 that means no chunk, and is ~0 exactly when uncompressed |
| NodeGroupWriter.SpaceIsPaddedSize | src/sorted_node_store.cpp:439-453 | the space computed for a chunk is the padded size of its bytes |
| NodeGroupWriter.MeasureChunks | src/sorted_node_store.cpp:375-428 | the first walk counts the chunks and records each one's sizes and nodes |
| NodeGroupWriter.MeasureChunk | src/sorted_node_store.cpp:385-412 | decides whether compression pays, by the ten-bit and total limits |
| NodeGroupWriter.AreaNeeded | src/sorted_node_store.cpp:435-455 | the loop that stops at the sentinel adds up every chunk's space |
| NodeGroupWriter.WriteChunk | src/sorted_node_store.cpp:527-560 | writes a chunk's bytes, and its recompressed sizes are the recorded ones: the size exceptions cannot be thrown |
| NodeGroupWriter.WriteChunks | src/sorted_node_store.cpp:497-607 | the second walk writes the group's layout and throws nothing |
| SortedNodeStore.SortedNodeStore.constructor | src/sorted_node_store.cpp:60-68 | starts empty, all workers collecting |
| SortedNodeStore.RoomForIds | src/sorted_node_store.cpp:79-83 | the table has room for the ids below 2^34 |
| SortedNodeStore.SortedNodeStore.PublishGroup | src/sorted_node_store.cpp:341-618 | publishes the group's layout, or fails if the group is empty, too big, out of range or present |
| SortedNodeStore.SortedNodeStore.CollectOrphans | src/sorted_node_store.cpp:331-339 | appends to the orphans of the group |
| SortedNodeStore.SortedNodeStore.BatchStart | src/sorted_node_store.cpp:285-294 | is the protocol's start of a batch |
| SortedNodeStore.SortedNodeStore.InsertCollecting | src/sorted_node_store.cpp:258-269 | a turn of the first loop inserts the next element as the protocol does |
| SortedNodeStore.SortedNodeStore.InsertPublishing | src/sorted_node_store.cpp:271-282 | a turn of the second loop does |
| SortedNodeStore.SortedNodeStore.Insert | src/sorted_node_store.cpp:239-283 | both loops together insert the elements one by one as the protocol does |
| SortedNodeStore.SortedNodeStore.PoolBuffers | src/sorted_node_store.cpp:297-302 | moves every buffer into the orphanage |
| SortedNodeStore.SortedNodeStore.Finalize | src/sorted_node_store.cpp:296-329 | publishes every orphaned group, sorted, as the protocol's end does, and fails exactly if one cannot be published |
| SortedNodeStore.SortedNodeStore.At | src/sorted_node_store.cpp:130-211 | gives the coordinates published for the id, or fails if there are none, whatever the cached chunk is; keeps the cache right |
| SortedNodeStore.SortedNodeStore.Contains | src/sorted_node_store.cpp:90-128 | holds exactly when reading succeeds |
| SortedNodeStore.CacheSurvives | src/sorted_node_store.cpp:171-188 | publishing another group leaves the cached chunk right |
| SortedNodeStore.CachedIs | src/sorted_node_store.cpp:167-188 | a cache with the chunk's number holds that chunk, decoded |
| SortedNodeStore.Pushing | src/sorted_node_store.cpp:257-282 | a worker's buffer only ever holds ids of one group |
| WayCodec.EncodeWay | src/sorted_way_store.cpp:372-462 | gives the flags and bytes of the format, one of its three errors, or the write past the scratch buffer |
| WayCodec.PackUpper | src/sorted_way_store.cpp:406-422 | packs four bits a node, two nodes a byte, and fails exactly if one does not fit |
| WayCodec.PushLow | src/sorted_way_store.cpp:431-459 | appends the low bits plain, or the first value and the compressed deltas, if these fit in the 8,192 bytes of the scratch buffer |
| WayCodec.DecodeWay | src/sorted_way_store.cpp:317-370 | reads flags and bytes as the format says |
| WayCodec.ReadUpper | src/sorted_way_store.cpp:325-345 | reads each node's high bits, shared or packed |
| WayCodec.EncodedSize | src/sorted_way_store.cpp:372-462 | an encoded way takes at most 9,198 bytes |
| WayCodec.ScratchIs | src/sorted_way_store.cpp:446-459 | whether the deltas fit in the scratch buffer can be told from the way |
| WayCodec.ScratchIsEnough | src/sorted_way_store.cpp:446-459 | they do for up to 1,928 points; points more than 2^23 apart fit only then |
| WayCodec.NearWayIsShort | src/sorted_way_store.cpp:372-479 | a way of up to 2,000 nodes whose neighbours' low parts are at most 127 apart fits, and takes one byte a delta, one for four deltas, and seven for the rest if its high parts are the same |
| WayCodec.WayOverruns | src/sorted_way_store.cpp:56-56 | 1,930 nodes that alternate between 0 and 2^30 do not fit; 1,929 do, being closed |
| WayCodec.FlagParts | src/sorted_way_store.cpp:320-325 | length and flags do not disturb each other in 16 bits |
| WayCodec.FlagsTell | src/sorted_way_store.cpp:372-400 | an encoded way's flags tell how many points are stored, all but the last of a closed way, whether it is closed and whether it is compressed |
| WayCodec.LowsSigned | src/sorted_way_store.cpp:396-397 | with 31 low bits, every value and every difference of two is a signed 32-bit value |
| WayCodec.HighReads | src/sorted_way_store.cpp:325-345 | the high bits read are those written |
| WayCodec.LowReads | src/sorted_way_store.cpp:347-365 | the low bits read are those written, compressed or not |
| WayCodec.DecodedIsKept | src/sorted_way_store.cpp:317-462 | decoding an encoded way, followed by anything, gives what the bytes kept of it, for any ids |
| WayCodec.SmallIdsFit | src/sorted_way_store.cpp:372-459 | a non-empty way of at most 2,000 ids below 2^35 is encoded if its deltas fit in the scratch buffer, and overruns it otherwise |
| WayCodec.KeptIsWay | src/sorted_way_store.cpp:398-428 | the bytes keep the way if and only if its ids are below 2^35 |
| WayCodec.RoundTrip | src/sorted_way_store.cpp:317-462 | ways with ids below 2^35 are encoded if and only if their deltas fit, and an encoded way is decoded to itself if and only if its ids are below 2^35 |
| WayCodec.HighIdIsCutShort | src/sorted_way_store.cpp:415-418 | the way 0, 2^39, 0 is encoded without complaint and decoded as 0, 0, 0 |
| WayGroup.OffsetsFit | src/sorted_way_store.cpp:617-639 | small offsets and big offsets divided by 64 are exact and fit in 16 bits |
| WayGroup.SizedAre | src/sorted_way_store.cpp:545-553 | the small ways are those of less than 256 bytes, the big ones the others, each counted once |
| WayGroup.ShortWaysArePlain | src/sorted_way_store.cpp:520-520 | only ways of four nodes or more are compressed |
| WayGroup.ChunkOffsetFits | src/sorted_way_store.cpp:591-591 | a chunk's offset fits in 32 bits |
| WayGroup.WaySize | src/sorted_way_store.cpp:547-547 | a stored way takes at most 9,504 bytes |
| WayGroup.ChunkSize | src/sorted_way_store.cpp:590-652 | a chunk takes at most three million bytes |
| WayGroup.ChunkFinds | src/sorted_way_store.cpp:164-193 | in a chunk's memory, the rank in the small or big mask leads to exactly the way's bytes |
| WayGroup.ChunkLacks | src/sorted_way_store.cpp:170-190 | an id that is not in the chunk is in neither mask |
| WayGroup.ChunkIsReached | src/sorted_way_store.cpp:153-164 | the rank in the group's mask leads to the chunk's memory |
| WayGroup.WayDecodes | src/sorted_way_store.cpp:195-195 | the bytes found decode to what was kept of the way |
| WayGroup.LayoutReads | src/sorted_way_store.cpp:138-195 | reading any id from a published group's memory gives its way as kept, or nothing if the group lacks it |
| WayGroup.EncodingsDone | src/sorted_way_store.cpp:509-528 | encoding a list of ways ends well if and only if each can be encoded |
| WayGroup.EncodingsStop | src/sorted_way_store.cpp:509-528 | otherwise the first that cannot decides how it ends |
| WayGroupWriter.EncodeChunks | src/sorted_way_store.cpp:503-528 | encodes the ways chunk by chunk, and ends with the first that cannot be encoded, by the exception or the overrun |
| WayGroupWriter.SpaceNeeded | src/sorted_way_store.cpp:534-563 | the space computed is the layout's size plus the decoder's padding |
| WayGroupWriter.PopulateMask | src/sorted_way_store.cpp:464-473 | sets exactly the bits of the ids |
| WayGroupWriter.WriteSmallWays | src/sorted_way_store.cpp:610-630 | packs the small ways, with the offset of each, and pads to 64 bytes |
| WayGroupWriter.WriteBigWays | src/sorted_way_store.cpp:631-647 | places the big ways on multiples of 64 bytes; the alignment exception cannot be thrown |
| WayGroupWriter.WriteChunk | src/sorted_way_store.cpp:593-651 | writes a chunk's masks, offsets and ways |
| WayGroupWriter.WriteGroup | src/sorted_way_store.cpp:581-652 | writes the mask, the chunk offsets and the chunks |
| WayGroupWriter.WriteWays | src/sorted_way_store.cpp:475-653 | writes the group's layout in exactly the computed space less the padding, unless a way cannot be encoded |
| SortedWayStore.SortedWayStore.constructor | src/sorted_way_store.cpp:61-64 | starts empty |
| SortedWayStore.RoomForIds | src/sorted_way_store.cpp:81-85 | the table has room for the ids below 2^31 |
| SortedWayStore.SortedWayStore.PublishGroup | src/sorted_way_store.cpp:475-653 | publishes the group, or publishes nothing and fails if the group or one of its ways is refused, or overruns the scratch buffer |
| SortedWayStore.SortedWayStore.At | src/sorted_way_store.cpp:138-195 | gives the node ids published for the way, or fails if there is no such way |
| SortedWayStore.SortedWayStore.Contains | src/sorted_way_store.cpp:89-136 | holds exactly when reading succeeds |
| SortedWayStore.Locate | src/sorted_way_store.cpp:144-193 | both levels of masks in turn find the way's address, or that there is none |
| SortedWayStore.ReadsBack | src/sorted_way_store.cpp:138-195 | ways with ids below 2^35 are read as they were published |
| SortedWayStore.FilledStoreReads | src/sorted_way_store.cpp:138-315 | however non-empty ways of at most 2,000 nodes with ids below 2^35, whose deltas fit in the scratch buffer, come in, no group is refused, and each way is read back as it was inserted, and no other |
| WayReading.At | src/sorted_way_store.cpp:138-200 | gives the places of a way's nodes in order, and fails if the way or one of the nodes is missing |
| WayReading.FilledStoresRead | src/sorted_way_store.cpp:138-200 | however nodes and ways came in to both stores, a way is read as the places that its nodes have in the stream of nodes, if all of them do, and any other way is missing |
| Supercover.TouchedIsMeeting | src/coordinates_geom.cpp:120-177 | the integer condition on a tile's steps holds if and only if its closed unit square meets the segment between the end tiles' centres |
| Supercover.MeetsIsNear | src/coordinates_geom.cpp:120-177 | a point of the segment in the square bounds the tile's deviation |
| Supercover.NearMeets | src/coordinates_geom.cpp:120-177 | a tile within the bound has such a point, which is constructed |
| Supercover.ColumnCells | src/coordinates_geom.cpp:134-176 | which neighbours of the walk's cell are touched, decided by the error alone |
| Supercover.StepLevel | src/coordinates_geom.cpp:134-176 | a step along the major axis adds exactly the touched cell ahead |
| Supercover.StepUp | src/coordinates_geom.cpp:134-176 | a diagonal step adds exactly the touched corner cells, both when the line meets the corner |
| Supercover.WalkEnds | src/coordinates_geom.cpp:120-177 | the walk ends at the segment's end |
| Supercover.MarkedAll | src/coordinates_geom.cpp:120-177 | when the walk is done, exactly the touched tiles are marked |
| Supercover.WalkFlat | src/coordinates_geom.cpp:135-156 | the loop of the flat octants adds exactly the touched tiles |
| Supercover.WalkSteep | src/coordinates_geom.cpp:157-177 | so does that of the steep ones |
| Supercover.MarkSegment | src/coordinates_geom.cpp:120-177 | adds exactly the touched tiles, in both octants and all directions |
| Supercover.InsertIntermediateTiles | src/coordinates_geom.cpp:101-178 | adds exactly the tiles of the points and those touched by a segment |
| Supercover.StepBack | src/coordinates_geom.cpp:120-177 | a touched tile other than the first has a touched neighbour nearer the start |
| Supercover.Connected | src/coordinates_geom.cpp:120-177 | each touched tile is reached from the start by touched tiles that share edges |
| MinHeap.SwapKeeps | src/visvalingam.cpp:95-100 | swapping two nodes keeps the items and their back indexes |
| MinHeap.UpStep | src/visvalingam.cpp:84-104 | a swap upwards moves the one possible disorder up |
| MinHeap.DownStep | src/visvalingam.cpp:106-140 | a swap with the least child moves the one possible disorder down |
| MinHeap.RootIsLeast | src/visvalingam.cpp:58-70 | in heap order the root is least of all |
| MinHeap.OrderOfAreas | src/visvalingam.cpp:84-140 | areas are in the order of the reals, and the ends' infinity comes after them |
| MinHeap.MinHeap.Up | src/visvalingam.cpp:84-104 | restores heap order and back indexes, items kept |
| MinHeap.MinHeap.Down | src/visvalingam.cpp:106-140 | restores heap order and back indexes, items kept |
| MinHeap.MinHeap.Push | src/visvalingam.cpp:52-56 | adds the item, order and back indexes kept |
| MinHeap.MinHeap.Pop | src/visvalingam.cpp:58-70 | removes an item of least area, order and back indexes kept |
| MinHeap.MinHeap.Update | src/visvalingam.cpp:72-82 | changes one item's area, order and back indexes kept |
| Triangles.RightTriangle | src/visvalingam.cpp:143-150 | twice the area of a right triangle with legs along the axes is the product of the legs |
| Triangles.AreaStays | src/visvalingam.cpp:143-150 | moving the three points does not change the area, nor does their order |
| Triangles.Sheared | src/visvalingam.cpp:143-150 | moving one point by a multiple of the side between the others does not change the area |
| Triangles.FlatIsOnLine | src/visvalingam.cpp:143-150 | the area is 0 if and only if the first and third point are the same or the second is on the line through them |
| Triangles.BaseTimesHeight | src/visvalingam.cpp:143-150 | twice the area is at most the distance of two of the points times that of the third from any point of their line |
| Triangles.FootOf | src/visvalingam.cpp:143-150 | and exactly that at one point of the line |
| Triangles.SpansIs | src/visvalingam.cpp:143-150 | twice the area exceeds a bound if and only if the distance of two points times that of the third from their line does, and then the third is not on it |
| Visvalingam.Build | src/visvalingam.cpp:159-193 | links the points, and heaps them by the areas of their triangles, the ends by infinity |
| Visvalingam.LinksWithout | src/visvalingam.cpp:204-209 | unlinking a point leaves the links of the points without it |
| Visvalingam.WithoutIsGood | src/visvalingam.cpp:204-231 | removing an interior point keeps both ends, and infinite areas for them only |
| Visvalingam.RecordedKept | src/visvalingam.cpp:212-231 | recorded areas are never below the last one removed or below the triangle's, and equal one of these |
| Visvalingam.RunKeeps | src/visvalingam.cpp:195-232 | in every state of a run, one point less at each step, never fewer than to retain, areas removed within the threshold and not decreasing |
| Visvalingam.AreasAscend | src/visvalingam.cpp:195-232 | areas removed never decrease over a whole run |
| Visvalingam.SurvivorsExceed | src/visvalingam.cpp:195-232 | if more points remain than must be retained, each interior one's own triangle exceeds the threshold |
| Visvalingam.Visvalingam | src/visvalingam.cpp:152-241 | heap and linked list together make a run of removals of least area, to its end, and output what is left |
| Visvalingam.Output | src/visvalingam.cpp:234-240 | following the links lists the remaining points in order |
| Visvalingam.RunSimplifies | src/visvalingam.cpp:152-241 | what a finished run leaves is a subsequence with both ends, of enough points, and of triangles above the threshold |
| Visvalingam.LeftIsSimplified | src/visvalingam.cpp:152-241 | every output of the simplifier is such a choice of the input's points |
| Visvalingam.SimplifiedSpans | src/visvalingam.cpp:195-248 | where more points are left than must be retained, no inner one lies on the line through its neighbours; its distance from that line times theirs exceeds the threshold |
| Visvalingam.StraightIsEnds | src/visvalingam.cpp:195-248 | of an open line whose points are all on one line, only the two ends are left |
| Visvalingam.SimplifyVis | src/visvalingam.cpp:243-248 | short lines are returned as they are; others simplified so, keeping three points of a closed line; where more points are left, each is off the line through its neighbours, so far that the distance times theirs exceeds the threshold |
| TileOrder.Compare | include/tile_data.h:112-134 | the loop over zooms is the recursive order |
| TileOrder.TilesDecide | include/tile_data.h:112-134 | between objects of different tiles at a zoom, only the tiles decide |
| TileOrder.CornerIsFirst | include/tile_data.h:252-264 | nothing with larger coordinates comes before a tile's corner |
| TileOrder.Between | include/tile_data.h:112-134 | the order is negatively transitive, as a sort's comparison must be |
| TileOrder.NotItself | include/tile_data.h:112-134 | the order is asymmetric |
| TileOrder.TileIsARun | include/tile_data.h:306-312 | a sorted list has no object of a tile before the lower bound of its corner, and none after the first mismatch |
| TileIndex.OffsetsFit | src/tile_data.cpp:130-149 | offsets inside a cell fit in 8 bits up to index zoom 14, and lose nothing |
| TileIndex.CellsAreTiles | src/tile_data.cpp:130-134 | a cell is the tile of zoom 6 that contains the index tile, or the index tile itself at lower index zooms |
| TileIndex.WorldIs | src/tile_data.cpp:102-110 | from index zoom 6 on, the objects that are indexed are those with both coordinates below 2^indexZoom |
| TileIndex.CellsAreNumbered | src/tile_data.cpp:107-112 | the 64 by 64 cells have each a number of its own below 4,096 |
| TileIndex.WantsIs | src/tile_data.cpp:202-212 | an object is in a tile up to the index zoom if its index tile is part of the tile, and in a tile past it if the tile is part of its index tile; and is wanted if it is shown at that zoom |
| TileIndex.NeedleIsCorner | include/tile_data.h:249-256 | the needle is the tile's corner inside its z6 tile |
| TileIndex.TileInCell | include/tile_data.h:293-302 | an object is in a tile if and only if its z6 tile and its offset say so |
| TileIndex.WantedInCell | src/tile_data.cpp:202-212 | objects of a tile from zoom 6 on are all in the one list that is searched |
| TileIndex.CellScan | include/tile_data.h:293-315 | scanning that list picks what scanning everything picks |
| TileIndex.NothingOutside | src/tile_data.cpp:206-209 | a tile outside the world has no objects |
| TileIndex.OneMoreCell | include/tile_data.h:201-220 | at low zooms each cell contributes exactly its own objects of the tile |
| TileIndex.AllCells | include/tile_data.h:189-221 | all cells together give what a scan of everything gives |
| TileIndex.LowPicked | include/tile_data.h:85-89 | objects left out of the low-zoom copies would not be picked at low zooms |
| TileIndex.LowOnlyIs | include/tile_data.h:85-89 | the low-zoom copies are exactly the objects shown below zoom 6 |
| TileIndex.PickedPermutes | include/tile_data.h:109-136 | what is picked does not depend on how equal objects are sorted |
| TileDataSource.SortedIsInOrder | include/tile_data.h:109-136 | sorting puts a list in tile order and keeps its objects |
| TileDataSource.LowerBound | include/tile_data.h:265-291 | finds the place before which everything, and after which nothing, comes before the corner |
| TileDataSource.RunIsAll | include/tile_data.h:293-315 | what stands between the lower bound and the first mismatch is all that a scan picks |
| TileDataSource.CollectFromCell | include/tile_data.h:223-317 | clamping, needle, lower bound and early stop pick what a scan of the list picks |
| TileDataSource.TileDataSource.AddObjectToSmallIndexUnsafe | src/tile_data.cpp:130-149 | adds the object to its cell only |
| TileDataSource.TileDataSource.AddObjectToSmallIndex | src/tile_data.cpp:102-128 | an object in the world is added now or left for later, once; an object outside is dropped |
| TileDataSource.TileDataSource.Finalize | src/tile_data.cpp:87-100 | every object added or left is indexed once, lists sorted and low-zoom copies made |
| TileDataSource.TileDataSource.CopyLowZoom | include/tile_data.h:85-89 | copies exactly the objects shown below zoom 6 |
| TileDataSource.TileDataSource.CollectObjectsForTile | src/tile_data.cpp:188-216 | at any zoom, also above an index zoom of 6 or more, returns the multiset of a full scan of the objects indexed |
| TileDataSource.TileDataSource.CollectLowZoomObjectsForTile | include/tile_data.h:189-221 | so does the scan of the low-zoom copies |
| TileCoverage.SameBitSameTile | src/tile_coordinates_set.cpp:30-35 | tiles of a zoom whose rows are on the map have a bit each |
| TileCoverage.ZoomResults.constructor | src/tilemaker.cpp:384-390 | starts with empty bitmaps for the zooms |
| TileCoverage.ZoomResults.Set | src/tile_coordinates_set.cpp:30-35 | sets the bit of the tile, which for a row past the last is that of a tile of the next column, and no other |
| TileCoverage.ZoomResults.Mark | include/tile_data.h:169-173 | sets the bits of the tile and all its ancestors, and no others |
| TileCoverage.ZoomResults.CollectTilesWithObjects | include/tile_data.h:142-177 | marks every object's tile and ancestors, although repeats of the last tile are skipped |
| TileCoverage.ZoomResults.AddCoveredTilesToOutput | src/tile_data.cpp:157-176 | marks every tile of the box, wherever it reaches, and its ancestors |
| TileCoverage.ZoomResults.MarkSource | src/tile_data.cpp:151-185 | a source marks exactly the tiles in which a small object falls, which a large object's box meets, or to which one of these wraps around |
| TileCoverage.ZoomResults.PopulateTilesAtZoom | src/tile_data.cpp:438-449 | for any sources, a tile is marked afterwards if and only if it was before or some source has something that sets its bit; more than 15 zooms are refused |
| TileCoverage.MeetsIsAncestor | src/tile_data.cpp:219-244 | a tile's box meets an interval if and only if the tile is an ancestor of some tile in it |
| TileCoverage.BoxCovers | src/tile_data.cpp:157-176 | a box meets a tile if and only if the tile covers one that was marked for the box |
| TileCoverage.SmallCovers | include/tile_data.h:157-173 | an object is in a tile if and only if the tile covers the object's tile at the deepest zoom |
| TileCoverage.CoversIs | include/tile_data.h:142-177 | the bits of all marked tiles and their ancestors are those of the tiles with objects |
| TileCoverage.NeededIsMarked | src/tile_coordinates_set.cpp:37-44 | at every zoom, also past the last bitmap, every tile that a small or large query returns an object for is marked, whatever the boxes |
| TileCoverage.MarkedIsNeeded | src/tile_coordinates_set.cpp:30-44 | every marked tile has something for such a query, if nothing reaches the row behind the last |
| TileCoverage.NothingWraps | src/tile_coordinates_set.cpp:30-35 | then no bit is set by a wrap-around |
| TileCoverage.EdgeRowWraps | src/tile_coordinates_set.cpp:30-35 | any box that reaches that row sets the bit of the next column's first tile |
| TileCoverage.WrongTileMarked | src/tile_coordinates_set.cpp:30-35 | at zoom 6, the box of tile (5, 64) sets the bit of (6, 0), which it does not meet |
| TileCoverage.WrongTileOfObject | src/tile_coordinates_set.cpp:30-35 | with index zoom 5, an object at (3, 32) sets the bit of (4, 0) |
| WayMerge.DeleteFromWayList | src/osm_store.cpp:145-150 | removes every occurrence of the way, and the list if it is then empty |
| WayMerge.DeletedOk | src/osm_store.cpp:145-158 | deleting a way at its own end keeps the map; deleting it at its other end changes nothing |
| WayMerge.RemoveFromMaps | src/osm_store.cpp:151-158 | both maps are those of the other ways |
| WayMerge.Appended | src/osm_store.cpp:172-188 | appending a way, as it is or reversed, joins it at equal coordinates |
| WayMerge.Prepended | src/osm_store.cpp:190-206 | so does prepending |
| WayMerge.ReverseConcat | src/osm_store.cpp:179-188 | turning two parts round turns each round and changes their order |
| WayMerge.ReverseOne | src/osm_store.cpp:179-188 | a single point is turned round to itself |
| WayMerge.JoinedFollows | src/osm_store.cpp:172-206 | point by point, a result is its ways one after the other, each from first to last or from last to first |
| WayMerge.StepsAreOfWays | src/osm_store.cpp:172-206 | two neighbouring points of a result are neighbouring points of one of its ways, in that way's direction, or the same point where two ways meet |
| WayMerge.StepsOfWayRemain | src/osm_store.cpp:172-206 | two neighbouring points of a way are neighbours in its result, in the way's direction |
| WayMerge.WayMerger.RemoveWay | src/osm_store.cpp:151-160 | takes the way out of both maps and marks it done |
| WayMerge.WayMerger.Attach | src/osm_store.cpp:172-206 | extends one result by one remaining way |
| WayMerge.WayMerger.Seed | src/osm_store.cpp:216-223 | starts a result with one remaining way |
| WayMerge.WayMerger.Collect | src/osm_store.cpp:124-143 | a list may have missing, done and repeated ways: each available way is the first result or in the maps, each missing way is done |
| WayMerge.WayMerger.Extend | src/osm_store.cpp:166-211 | extends a result until it is closed or no remaining way touches its ends; remaining ways decrease |
| WayMerge.WayMerger.ExtendAll | src/osm_store.cpp:166-211 | extends all results, and open results stay apart |
| WayMerge.WayMerger.SeedOne | src/osm_store.cpp:213-224 | seeds if any way is left |
| WayMerge.WayMerger.MergeMultiPolygonWays | src/osm_store.cpp:122-226 | terminates with every listed way done, every available way in exactly one place of one result, forwards or from its last point to its first, joined at equal coordinates, no open result sharing an end with any later one, and the first available way in the first result |
| WayMerge.GrownApart | src/osm_store.cpp:166-211 | a result grown from remaining ways shares no end with a settled one |
| WayMerge.SeedApart | src/osm_store.cpp:213-224 | nor does a new one |
| WayMerge.RingAlone | src/osm_store.cpp:116-116 | a closed way is a result of its own, as it was, if no other available way ends at its node |
| WayMerge.RingIsJoined | src/osm_store.cpp:116-136 | it is not if it comes with an open way, first in the list, that touches it |
| WayMerge.RingInAList | src/osm_store.cpp:16-18 | the ways a, b and b, c, b are merged into one result, and the ring is not among the results |
| WayMerge.TurnedRound | src/osm_store.cpp:172-188 | the ways p, q and t, s, r, q are merged into p, q, q, r, s, t |
| DequeMap.KeyInserted | include/deque_map.h:49-70 | inserting the new index at the lower bound keeps a sorted permutation |
| DequeMap.AtLowerBound | include/deque_map.h:43-44 | an entry is there if and only if it is at the lower bound |
| DequeMap.LowerBound | include/deque_map.h:33-40 | finds the first key that is not less |
| DequeMap.Find | include/deque_map.h:80-96 | gives the entry's index, or -1 exactly if it is not there |
| DequeMap.DequeMap.Add | include/deque_map.h:30-72 | gives the index of an entry that is there; appends one that is not, unless the map is full; never moves another |
| DequeMap.ObjectsAreDistinct | include/deque_map.h:30-72 | no entry is there twice |
| AttributePairs.IndexNamesPlace | src/attribute_store.cpp:173-186 | shard and offset are recovered from an index if and only if the offset is below 2^18; at 2^18 the index names the start of the next shard |
| AttributePairs.IndexesArePlaces | src/attribute_store.cpp:69-72 | every index of 32 bits is that of one place of one of the 16,384 shards |
| AttributePairs.LowBitsDecide | src/attribute_store.cpp:158-163 | the low 14 bits of the hash name the shard, if they are not 0 |
| AttributePairs.HigherBitsDecide | src/attribute_store.cpp:158-163 | otherwise the 14 bits from bit 8, 16 or 24 do, and shard 1 if all of these are 0 |
| AttributePairs.StepKeeps | src/attribute_store.cpp:106-188 | each critical section keeps the invariant, overflows included: copies are prefixes of the hot shard, cached and issued indexes are those of their pairs' places, a pair has one shard |
| AttributePairs.EveryRunKeepsInvariant | src/attribute_store.cpp:106-188 | so does every interleaving, with copies and caches as stale as they come, also after an exception |
| AttributePairs.PairsAreSpread | src/attribute_store.cpp:106-188 | in every state of every run the hot shard has candidates only, in its first 65,536 places; any other pair is in the shard of its hash, and is no candidate unless the hot shard is full without it |
| AttributePairs.RememberedUntilReplaced | src/attribute_store.cpp:139-179 | a thread remembers a pair it found, in one of 64 slots by its hash, until it finds another pair of that slot |
| AttributePairs.OnePlaceEach | src/attribute_store.cpp:106-188 | indexes that name pairs are equal exactly if the pairs are |
| AttributePairs.EqualIndexesEqualPairs | src/attribute_store.cpp:106-188 | over any run, any two calls of addPair returned equal indexes exactly if their pairs were equal |
| AttributePairs.IssuedIsGot | src/attribute_store.cpp:69-87 | an index once returned gives its pair, to any thread at any later time |
| AttributePairs.OverflowAliases | src/attribute_store.cpp:171-184 | from any state of a run: a new pair of a full shard is refused, is given an index by the next call, and that index reads as the first pair of the next shard |
| AttributePairs.AnswerYieldsPair | src/attribute_store.cpp:69-188 | over all runs, overflows included, an answer yields its pair, to any thread, if and only if the pair's offset in its shard is below 2^18 |
| AttributePairs.NamedIfWithin | src/attribute_store.cpp:173-186 | an index names the pair of its place if and only if that offset is below 2^18 |
| AttributePairStore.LeadingKeeps | src/attribute_store.cpp:106-188 | steps in a row keep the invariant |
| AttributePairStore.AttributePairStore.FindInShard | src/attribute_store.cpp:171-178 | searches the shard's sorted keys for the pair, and gives its offset, or -1 exactly if it is not there |
| AttributePairStore.FoundIs | include/deque_map.h:80-96 | an offset found by the sorted search is the one place of the pair |
| AttributePairStore.AttributePairStore.AddTo | src/attribute_store.cpp:180-181 | appends the pair to the shard, behind all others |
| AttributePairStore.AttributePairStore.FindOrAddHotPair | src/attribute_store.cpp:122-134 | finds the pair in the hot shard, adds it if there is room, or passes it on |
| AttributePairStore.AttributePairStore.constructor | include/attribute_store.h:192-206 | starts with the sentinel alone |
| AttributePairStore.AttributePairStore.AddPair | src/attribute_store.cpp:106-188 | takes steps of the protocol, to an index issued for the pair or to the exception |
| AttributePairStore.AttributePairStore.AddColdPair | src/attribute_store.cpp:137-188 | does so by the cache or the pair's cold shard |
| AttributePairStore.AttributePairStore.GetPair | src/attribute_store.cpp:69-87 | gives the pair of an index, refreshing the thread's copy only if it is too short |
| AttributePairStore.AddedPairIsNamed | src/attribute_store.cpp:106-188 | the index that addPair returned names the pair |
| MBTiles.MBTiles.InsertOrReplace | src/mbtiles.cpp:58-65 | executes one statement on the row counted from the south, row + y + 1 = 2^zoom: INSERT fails if there is such a row, REPLACE overwrites it, and no other row changes |
| MBTiles.KeyStandsFor | src/mbtiles.cpp:58-65 | a tile has one row: its zoom, the column x, and the row with row + y + 1 = 2^zoom |
| MBTiles.SouthernmostRow | src/mbtiles.cpp:60-60 | the row is 0 exactly for y = 2^zoom - 1 |
| MBTiles.OneStepNorth | src/mbtiles.cpp:60-60 | one tile further north, the row is one more and the column the same |
| MBTiles.RowsOnLevel | src/mbtiles.cpp:60-60 | the row is from 0 to 2^zoom - 1 exactly for the tiles of the zoom |
| MBTiles.ParentsRow | src/mbtiles.cpp:60-60 | the row and column of a tile's parent are half of the tile's |
| MBTiles.TableHoldsLast | src/mbtiles.cpp:58-65 | unless a constraint fails, the table has for each tile, in the row counted from the south, what was executed last for it, and no row for a tile without a statement |
| MBTiles.MBTiles.DrainPending | src/mbtiles.cpp:71-75 | executes the second buffer from its end |
| MBTiles.MBTiles.FlushPendingStatements | src/mbtiles.cpp:67-80 | executes both buffers, each from its end, and leaves them empty |
| MBTiles.MBTiles.SaveTile | src/mbtiles.cpp:82-93 | with the lock, writes the tile and what was buffered; without it, buffers the tile |
| MBTiles.MBTiles.CloseForWriting | src/mbtiles.cpp:95-99 | leaves nothing buffered and nothing lost |
| MBTiles.StepConserves | src/mbtiles.cpp:67-93 | each critical section conserves the saved tiles |
| MBTiles.EveryRunConserves | src/mbtiles.cpp:67-99 | under every interleaving, tiles saved are tiles written, tiles in both buffers and the one in hand |
| MBTiles.ClosingEmpties | src/mbtiles.cpp:67-99 | while nobody saves, two rounds of draining and swapping empty both buffers |
| MBTiles.ClosedIsComplete | src/mbtiles.cpp:95-99 | after closing with no saver active, each saved tile has been written exactly once |
| MBTiles.EverySaveOnce | src/mbtiles.cpp:67-93 | in every state of every run, what is written and waiting, in the order in which it will be written, holds each save once |
| MBTiles.OrderIsSettled | src/mbtiles.cpp:67-93 | the order of two saves is settled when the later is made: the earlier comes first if and only if the later does not get in front of it |
| MBTiles.WrittenInOrder | src/mbtiles.cpp:67-93 | over every run, of two saves that have been written the earlier was written first if and only if it was not waiting, in either buffer if the later won the lock, in the first if it did not, when the later was made |
| MBTiles.NewestIsKept | src/mbtiles.cpp:67-99 | after closing, the newest version of a tile is the last written if and only if no other version of it was so waiting when it was saved |
| MBTiles.TableKeepsNewest | src/mbtiles.cpp:58-99 | in just that case the table's row holds it, if no statement fails |
| MBTiles.BufferedTwice | src/mbtiles.cpp:67-80 | two versions in one buffer: the older is written last |
| MBTiles.WonWhileWaiting | src/mbtiles.cpp:82-93 | a version waits in the second buffer while a newer one wins the lock: the older is written last |

## Left out

- Lua profiles, configuration, option parsing, shapefiles, GeoJSON, the HTTP server and progress output.
- gzip is a parameter: two functions that undo each other and bound the size. SQLite and file output are sequences of statements and of bytes.
- The vector instructions of Stream VByte: the stores' results hold for any compression that can be undone and has its sizes, and the code for one value at a time is proved to be one (StreamVByte.CompressionIsGood). Reads past the end of the input are zeros here.
- The bytes of the PMTiles header, the JSON metadata and the counters in the header, but for the fields that lead to directories and tiles.
- PMTiles.PMTiles.SaveTile: asks that file and tile fit in the 40 and 24 bits of an index entry when a tile is written; PackedKeeps says when they do. It asks for a length below 2^24 - 1, although an entry can hold 2^24 - 1 too: the dense table fills its gaps with that length, so that a tile of exactly 2^24 - 1 compressed bytes vanishes from a dense index, and from that only.
- PMTiles.PMTiles.Close: its condition on long runs is sufficient. A leaf directory that becomes full within a run of 2^32 ids splits it, so that a longer run may still be read back. Directories of 2^50 tiles and more, whose file offsets may not fit in 64 bits, are excluded.
- Archive.GetTile: reading past the end of the mapped file is an answer of its own, undefined in the program. What is found in directories out of order is told only so far as its contract goes.
- SortedStoreProtocol.EveryRunKeepsInvariant: the limit of 256 worker buffers is not modelled, and ids of the stream strictly ascend.
- SortedNodeStore.SortedNodeStore.Finalize: asks for distinct ids in each group's orphans, since the order of equal ids after std::sort is not specified. Every run of the protocol has them (ReadyToFinalize).
- SortedNodeStore.SortedNodeStore.At: an id beyond the table of groups is not checked by the program and is excluded here. Reading after `reopen` is not modelled; the cache is not reset there.
- WayReading.At: so are ways beyond the table of groups, and nodes of a way that are.
- SortedWayStore: inserting, starting batches and finalizing repeat the node store's code and are covered by the generic protocol, not by methods of this class. What a write past the scratch buffer does to the program is undefined; it is recorded and nothing is said of what follows.
- Arenas, allocation, statistics and what state an exception leaves behind in the stores.
- Supercover.InsertIntermediateTiles: points are given as tiles; projecting and flooring coordinates is left out.
- Visvalingam.Visvalingam: areas are real numbers, without rounding or NaN; lines of fewer than two points are excluded, as they are by `simplifyVis` for lines. The overloads for polygons are left out.
- TileDataSource.TileDataSource.CollectObjectsForTile: an index below zoom 6 is not asked above its own zoom. The program does not check this, and would search the wrong list or shift by a negative number; its zooms never exceed the base zoom, from which the index zoom is taken.
- TileDataSource: lists with and without object ids are one list, and the list of objects that met a locked cell is the source's own. The library's parallel sort is any sort by the comparison.
- TileCoverage: the R-tree query is the test of rectangles it is documented to be; boxes have no negative coordinates, and their least corner is not past their greatest. The later filters on tiles, by clipping box and shard, are left out.
- WayMerge.WayMerger.MergeMultiPolygonWays: ways have at least one point, since the code takes the first and last of each; the geometry made of the results is left out.
- DequeMap: the less-than of a stored type is a strict total order that agrees with equality. Indexes are unbounded; the program's are 32 bits.
- AttributePairs: keys, values and hashes of pairs are abstract; packing of attribute sets and the key store are left out.
- MBTiles.TableKeepsNewest: a statement that fails ends the program with an exception, and what happens to the buffers then is left out.
- Polylabel, geometry repair, clipping and output of tiles.
