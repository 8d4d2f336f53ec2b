/** A finished PMTiles file and how a tile is read from it: the header names the root
    directory, and directories lead to other directories or to tile data. */
module Archive {
  import opened Wrappers
  import opened Varint
  import opened Directory
  import opened DirectoryIndex
  import Hilbert

  /** Combined size of header and root directory: where tile data starts. */
  const HEADER_ROOT: nat := 16384
  const HEADER_SIZE: nat := 127

  /** gzip, as far as it matters: what is compressed can be got back, is never empty,
      and is not much longer than it was. */
  datatype Codec = Codec(compress: seq<byte> -> seq<byte>, decompress: seq<byte> -> seq<byte>)

  ghost predicate GoodCodec(c: Codec) {
    && (forall s :: c.decompress(c.compress(s)) == s)
    && (forall s :: 0 < |c.compress(s)| <= 2 * |s| + 1000)
  }

  /** The fields of the header that lead to directories and tiles. */
  datatype Header = Header(rootDirOffset: nat, rootDirBytes: nat, leafDirsOffset: nat, tileDataOffset: nat)

  /** (0, 0) stands for "no such tile". OutOfMap is the read past the end of the
      mapped file, which the program leaves undefined. */
  datatype Answer = Region(offset: nat, length: nat) | BadTile | BadDirectory(error: Error) | OutOfMap

  const NO_TILE: Answer := Region(0, 0)

  function Slice(file: seq<byte>, offset: nat, length: nat): seq<byte>
    requires offset + length <= |file|
  {
    file[offset..offset + length]
  }

  /** Following directories from the one at dirOffset, with so many levels left. */
  ghost function Followed(c: Codec, file: seq<byte>, h: Header, dirOffset: nat, dirLength: nat, id: nat, levels: nat): Answer
    decreases levels
  {
    if levels == 0 then NO_TILE
    else if dirOffset + dirLength > |file| then OutOfMap
    else
      match Deserialized(c.decompress(Slice(file, dirOffset, dirLength)))
      case Err(e) => BadDirectory(e)
      case Ok(entries) =>
        var e := Found(entries, id);
        if e.length == 0 then NO_TILE
        else if e.runLength > 0 then Region(h.tileDataOffset + e.offset, e.length)
        else Followed(c, file, h, h.leafDirsOffset + e.offset, e.length, id, levels - 1)
  }

  /** The directories met on the way are in order. Sorted is what find_tile's binary
      search takes for granted. */
  ghost predicate SortedAlong(c: Codec, file: seq<byte>, h: Header, dirOffset: nat, dirLength: nat, id: nat, levels: nat)
    decreases levels
  {
    levels == 0 || dirOffset + dirLength > |file| ||
    match Deserialized(c.decompress(Slice(file, dirOffset, dirLength)))
    case Err(_) => true
    case Ok(entries) =>
      && Sorted(entries)
      && var e := Found(entries, id);
      (e.length > 0 && e.runLength == 0 ==>
        SortedAlong(c, file, h, h.leafDirsOffset + e.offset, e.length, id, levels - 1))
  }

  /** So are all that reading (z, x, y) meets. */
  ghost predicate InOrder(c: Codec, file: seq<byte>, h: Header, z: nat, x: nat, y: nat) {
    Hilbert.TileIdOf(z, x, y).Id? ==>
      SortedAlong(c, file, h, h.rootDirOffset, h.rootDirBytes, Hilbert.TileIdOf(z, x, y).id, 4)
  }

  ghost function Got(c: Codec, file: seq<byte>, h: Header, z: nat, x: nat, y: nat): Answer {
    match Hilbert.TileIdOf(z, x, y)
    case Id(id) =>
      if h.rootDirBytes > 0xFFFF_FFFF then BadDirectory(MalformedDirectory)
      else Followed(c, file, h, h.rootDirOffset, h.rootDirBytes, id, 4)
    case _ => BadTile
  }

  /** get_tile takes the order of the directories for granted, as find_tile does. */
  method GetTile(c: Codec, file: seq<byte>, h: Header, z: nat, x: nat, y: nat) returns (r: Answer)
    ensures InOrder(c, file, h, z, x, y) ==> r == Got(c, file, h, z, x, y)
    ensures r == BadTile <==> !Hilbert.TileIdOf(z, x, y).Id?
    ensures r.Region? ==> r == NO_TILE || (h.tileDataOffset <= r.offset && 0 < r.length)
  {
    hide *;
    var t := Hilbert.ZxyToTileId(z, x, y);
    AtTheRoot(c, file, h, z, x, y);
    if !t.Id? {
      return BadTile;
    }
    if h.rootDirBytes > 0xFFFF_FFFF {
      return BadDirectory(MalformedDirectory);
    }
    var dirOffset: nat, dirLength: nat := h.rootDirOffset, h.rootDirBytes;
    var depth: nat := 0;
    while depth <= 3
      invariant 0 <= depth <= 4
      invariant InOrder(c, file, h, z, x, y) ==>
        SortedAlong(c, file, h, dirOffset, dirLength, t.id, 4 - depth) &&
        Got(c, file, h, z, x, y) == Followed(c, file, h, dirOffset, dirLength, t.id, 4 - depth)
    {
      OneLevel(c, file, h, dirOffset, dirLength, t.id, 4 - depth);
      if dirOffset + dirLength > |file| {
        return OutOfMap;
      }
      var dir := DeserializeDirectory(c.decompress(Slice(file, dirOffset, dirLength)));
      if dir.Err? {
        return BadDirectory(dir.error);
      }
      var entry := FindTile(dir.entries, t.id);
      if entry.length > 0 {
        if entry.runLength > 0 {
          return Region(h.tileDataOffset + entry.offset, entry.length);
        }
        dirOffset := h.leafDirsOffset + entry.offset;
        dirLength := entry.length;
      } else {
        return NO_TILE;
      }
      depth := depth + 1;
    }
    NoMoreLevels(c, file, h, dirOffset, dirLength, t.id);
    r := NO_TILE;
  }

  lemma AtTheRoot(c: Codec, file: seq<byte>, h: Header, z: nat, x: nat, y: nat)
    ensures var t := Hilbert.TileIdOf(z, x, y);
            if !t.Id? then Got(c, file, h, z, x, y) == BadTile
            else
              t.id < 0x8000_0000_0000_0000 &&
              (InOrder(c, file, h, z, x, y) ==> SortedAlong(c, file, h, h.rootDirOffset, h.rootDirBytes, t.id, 4)) &&
              Got(c, file, h, z, x, y) ==
                if h.rootDirBytes > 0xFFFF_FFFF then BadDirectory(MalformedDirectory)
                else Followed(c, file, h, h.rootDirOffset, h.rootDirBytes, t.id, 4)
    ensures NO_TILE.Region?
  {
    hide Followed, SortedAlong;
    if Hilbert.TileIdOf(z, x, y).Id? {
      Hilbert.LevelInterval(z, x, y);
    }
  }

  lemma NoMoreLevels(c: Codec, file: seq<byte>, h: Header, dirOffset: nat, dirLength: nat, id: nat)
    ensures Followed(c, file, h, dirOffset, dirLength, id, 0) == NO_TILE
  {
  }

  lemma OneLevel(c: Codec, file: seq<byte>, h: Header, dirOffset: nat, dirLength: nat, id: nat, levels: nat)
    requires 0 < levels
    ensures SortedAlong(c, file, h, dirOffset, dirLength, id, levels) ==>
      var answer := Followed(c, file, h, dirOffset, dirLength, id, levels);
      if dirOffset + dirLength > |file| then answer == OutOfMap
      else
        match Deserialized(c.decompress(Slice(file, dirOffset, dirLength)))
        case Err(e) => answer == BadDirectory(e)
        case Ok(entries) =>
          var e := Found(entries, id);
          Sorted(entries) &&
          if e.length == 0 then answer == NO_TILE
          else if e.runLength > 0 then answer == Region(h.tileDataOffset + e.offset, e.length)
          else
            answer == Followed(c, file, h, h.leafDirsOffset + e.offset, e.length, id, levels - 1) &&
            SortedAlong(c, file, h, h.leafDirsOffset + e.offset, e.length, id, levels - 1)
  {
    hide Found, Sorted, Deserialized, Slice;
  }

  // ----- What a written file must look like -----

  /** A directory of these entries is stored, compressed, at the given place. */
  ghost predicate Stored(c: Codec, file: seq<byte>, offset: nat, length: nat, entries: seq<Entry>) {
    && |entries| < TWO_64
    && offset + length <= |file|
    && Slice(file, offset, length) == c.compress(Serialized(entries))
    && IdsAscend(entries) && OffsetsOk(entries)
  }

  lemma StoredReads(c: Codec, file: seq<byte>, offset: nat, length: nat, entries: seq<Entry>)
    requires GoodCodec(c) && Stored(c, file, offset, length, entries)
    ensures offset + length <= |file|
    ensures Deserialized(c.decompress(Slice(file, offset, length))) == Ok(entries)
  {
    RoundTrip(entries);
  }

  /** The answer a map of tiles gives. */
  function Expected(h: Header, m: map<nat, TileOffset>, id: nat): Answer {
    if id in m then Region(h.tileDataOffset + m[id].offset, m[id].length) else NO_TILE
  }

  /** An archive holding the map m: low-zoom runs and leaf pointers in the root, the
      rest of the runs cut into leaves. Without leaves the root holds every run. */
  ghost predicate Holds(c: Codec, file: seq<byte>, h: Header, m: map<nat, TileOffset>,
                        low: seq<Entry>, pointers: seq<Entry>, leaves: seq<seq<Entry>>)
  {
    && h.rootDirBytes <= 0xFFFF_FFFF
    && Stored(c, file, h.rootDirOffset, h.rootDirBytes, low + pointers)
    && PointAt(pointers, leaves)
    && Runs(low + Flatten(leaves), m)
    && (forall i :: 0 <= i < |pointers| ==>
         Stored(c, file, h.leafDirsOffset + pointers[i].offset, pointers[i].length, leaves[i]))
    && forall id :: id in m ==> 0 < m[id].length
  }

  /** The root sends an id either to a run of its own or to the leaf that has it. */
  lemma RootFinds(low: seq<Entry>, pointers: seq<Entry>, leaves: seq<seq<Entry>>, m: map<nat, TileOffset>, id: nat)
    requires PointAt(pointers, leaves) && Runs(low + Flatten(leaves), m)
    ensures Sorted(low + pointers)
    ensures LastAtMost(pointers, id).None? ==> Found(low + pointers, id) == Found(low + Flatten(leaves), id)
    ensures LastAtMost(pointers, id).Some? ==>
      exists j :: 0 <= j < |leaves| && Found(low + pointers, id) == pointers[j] && Sorted(leaves[j]) &&
        Found(leaves[j], id) == Found(low + Flatten(leaves), id)
  {
    var flat := Flatten(leaves);
    assert |pointers| == |leaves|;
    hide *;
    SortedOfRuns(low + flat, m);
    SortedParts(low, flat);
    PointersSorted(pointers, leaves);
    RootSorted(low, pointers, flat);
    LastAtMostConcat(low, pointers, id);
    LastAtMostConcat(low, flat, id);
    ThroughPointers(pointers, leaves, id);
    if LastAtMost(pointers, id).None? {
      SameFound(low + pointers, low + flat, id);
    } else {
      var j :| 0 <= j < |leaves| && LastAtMost(pointers, id) == Some(pointers[j]) &&
        LastAtMost(leaves[j], id).Some? && LastAtMost(flat, id) == LastAtMost(leaves[j], id);
      LeafSorted(leaves, j);
      SameFound(leaves[j], low + flat, id);
      PointerFound(pointers, leaves, j, low, id);
    }
  }

  lemma SameFound(a: seq<Entry>, b: seq<Entry>, id: nat)
    requires LastAtMost(a, id) == LastAtMost(b, id)
    ensures Found(a, id) == Found(b, id)
  {
  }

  lemma PointerFound(pointers: seq<Entry>, leaves: seq<seq<Entry>>, j: nat, low: seq<Entry>, id: nat)
    requires PointAt(pointers, leaves) && j < |leaves|
    requires LastAtMost(low + pointers, id) == Some(pointers[j])
    ensures Found(low + pointers, id) == pointers[j]
  {
    LastAtMostInList(low + pointers, id);
  }

  lemma SortedOfRuns(es: seq<Entry>, m: map<nat, TileOffset>)
    requires Runs(es, m)
    ensures Sorted(es)
  {
  }

  lemma RootSorted(low: seq<Entry>, pointers: seq<Entry>, flat: seq<Entry>)
    requires Sorted(low) && Sorted(pointers)
    requires forall x, y :: x in low && y in flat ==> x.tileId < y.tileId
    requires forall p :: p in pointers ==> exists e :: e in flat && e.tileId == p.tileId
    ensures Sorted(low + pointers)
  {
    var c := low + pointers;
    forall i, j | 0 <= i < j < |c| ensures c[i].tileId < c[j].tileId {
      if i < |low| <= j {
        assert c[j] in pointers;
        var e :| e in flat && e.tileId == c[j].tileId;
        assert c[i] in low;
      }
    }
  }

  /** Reading any tile of such an archive gives what the map has for it. */
  lemma HoldsReads(c: Codec, file: seq<byte>, h: Header, m: map<nat, TileOffset>,
                   low: seq<Entry>, pointers: seq<Entry>, leaves: seq<seq<Entry>>, id: nat)
    requires GoodCodec(c) && Holds(c, file, h, m, low, pointers, leaves)
    ensures SortedAlong(c, file, h, h.rootDirOffset, h.rootDirBytes, id, 4)
    ensures Followed(c, file, h, h.rootDirOffset, h.rootDirBytes, id, 4) == Expected(h, m, id)
  {
    hide *;
    var root := low + pointers;
    var flat := low + Flatten(leaves);
    HoldsParts(c, file, h, m, low, pointers, leaves);
    StoredReads(c, file, h.rootDirOffset, h.rootDirBytes, root);
    RootFinds(low, pointers, leaves, m, id);
    FoundInRuns(flat, m, id);
    if LastAtMost(pointers, id).Some? {
      var j :| 0 <= j < |leaves| && Found(root, id) == pointers[j] && Sorted(leaves[j]) &&
        Found(leaves[j], id) == Found(flat, id);
      var p := pointers[j];
      StoredReads(c, file, h.leafDirsOffset + p.offset, p.length, leaves[j]);
      RunLevel(c, file, h, m, h.leafDirsOffset + p.offset, p.length, leaves[j], id, 3);
      PointerLevel(c, file, h, h.rootDirOffset, h.rootDirBytes, root, id, 4);
    } else {
      RunLevel(c, file, h, m, h.rootDirOffset, h.rootDirBytes, root, id, 4);
    }
  }

  lemma HoldsParts(c: Codec, file: seq<byte>, h: Header, m: map<nat, TileOffset>,
                   low: seq<Entry>, pointers: seq<Entry>, leaves: seq<seq<Entry>>)
    requires Holds(c, file, h, m, low, pointers, leaves)
    ensures PointAt(pointers, leaves) && |pointers| == |leaves|
    ensures Runs(low + Flatten(leaves), m)
    ensures Stored(c, file, h.rootDirOffset, h.rootDirBytes, low + pointers)
    ensures forall i :: 0 <= i < |leaves| ==>
      pointers[i].runLength == 0 && 0 < pointers[i].length &&
      Stored(c, file, h.leafDirsOffset + pointers[i].offset, pointers[i].length, leaves[i])
    ensures forall id :: id in m ==> 0 < m[id].length
  {
    hide Stored;
    hide Runs;
  }

  /** A directory whose answer for id is a run or nothing settles it. */
  lemma RunLevel(c: Codec, file: seq<byte>, h: Header, m: map<nat, TileOffset>,
                 offset: nat, length: nat, entries: seq<Entry>, id: nat, levels: nat)
    requires 0 < levels && offset + length <= |file|
    requires Deserialized(c.decompress(Slice(file, offset, length))) == Ok(entries)
    requires Sorted(entries)
    requires var e := Found(entries, id);
             if id in m then 0 < m[id].length && 0 < e.runLength && m[id] == TileOffset(e.offset, e.length) else e == NULL_ENTRY
    ensures SortedAlong(c, file, h, offset, length, id, levels)
    ensures Followed(c, file, h, offset, length, id, levels) == Expected(h, m, id)
  {
    hide Found;
    hide Sorted;
    hide Deserialized;
  }

  /** One whose answer is a pointer passes the question on. */
  lemma PointerLevel(c: Codec, file: seq<byte>, h: Header, offset: nat, length: nat, entries: seq<Entry>, id: nat, levels: nat)
    requires 0 < levels && offset + length <= |file|
    requires Deserialized(c.decompress(Slice(file, offset, length))) == Ok(entries)
    requires Sorted(entries)
    requires Found(entries, id).runLength == 0 && 0 < Found(entries, id).length
    requires SortedAlong(c, file, h, h.leafDirsOffset + Found(entries, id).offset, Found(entries, id).length, id, levels - 1)
    ensures SortedAlong(c, file, h, offset, length, id, levels)
    ensures Followed(c, file, h, offset, length, id, levels)
            == Followed(c, file, h, h.leafDirsOffset + Found(entries, id).offset, Found(entries, id).length, id, levels - 1)
  {
    hide Found;
    hide Sorted;
    hide Deserialized;
  }
}
