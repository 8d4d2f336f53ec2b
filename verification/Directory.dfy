/** PMTiles directories (section 4 of the PMTiles version 3 specification): a list of
    entries printed column by column as variable-length integers. Tile ids are
    written as differences, an offset that continues the previous entry as zero. */
module Directory {
  import opened Varint

  datatype Entry = Entry(tileId: uint64, offset: uint64, length: uint32, runLength: uint32)

  datatype Error = EndOfBufferError | VarintTooLong | MalformedDirectory

  datatype Result = Ok(entries: seq<Entry>) | Err(error: Error)

  /** A column read so far and the bytes still ahead. */
  datatype Parse = Parsed(column: seq<uint64>, rest: seq<byte>) | Failed(error: Error)

  // ----- Printing -----

  function Wrapped(v: int): uint64 {
    v % TWO_64
  }

  function IdDelta(es: seq<Entry>, i: nat): uint64
    requires i < |es|
  {
    Wrapped(es[i].tileId as int - (if i == 0 then 0 else es[i - 1].tileId as int))
  }

  predicate Contiguous(es: seq<Entry>, i: nat)
    requires i < |es|
  {
    i > 0 && es[i].offset == Wrapped(es[i - 1].offset as int + es[i - 1].length as int)
  }

  function OffsetCode(es: seq<Entry>, i: nat): uint64
    requires i < |es|
  {
    if Contiguous(es, i) then 0 else Wrapped(es[i].offset as int + 1)
  }

  /** An offset is printed as 0 exactly where the entry's region begins at the end of the
      one before it, or if it is the last 64-bit number; otherwise as one more. */
  lemma ContinuedIsZero(es: seq<Entry>, i: nat)
    requires i < |es|
    ensures var continues := i > 0 && es[i].offset as int == (es[i - 1].offset as int + es[i - 1].length as int) % 0x1_0000_0000_0000_0000;
            if continues || es[i].offset == 0xFFFF_FFFF_FFFF_FFFF then OffsetCode(es, i) == 0
            else OffsetCode(es, i) as int == es[i].offset as int + 1
  {
  }

  ghost function IdDeltas(es: seq<Entry>): seq<uint64> {
    seq(|es|, i requires 0 <= i < |es| => IdDelta(es, i))
  }

  ghost function RunLengths(es: seq<Entry>): seq<uint64> {
    seq(|es|, i requires 0 <= i < |es| => es[i].runLength as uint64)
  }

  ghost function Lengths(es: seq<Entry>): seq<uint64> {
    seq(|es|, i requires 0 <= i < |es| => es[i].length as uint64)
  }

  ghost function OffsetCodes(es: seq<Entry>): seq<uint64> {
    seq(|es|, i requires 0 <= i < |es| => OffsetCode(es, i))
  }

  ghost function TileIds(es: seq<Entry>): seq<uint64> {
    seq(|es|, i requires 0 <= i < |es| => es[i].tileId)
  }

  ghost function Offsets(es: seq<Entry>): seq<uint64> {
    seq(|es|, i requires 0 <= i < |es| => es[i].offset)
  }

  ghost function EncodeAll(vs: seq<uint64>): (s: seq<byte>)
    ensures |vs| <= |s|
  {
    if vs == [] then [] else Encoding(vs[0]) + EncodeAll(vs[1..])
  }

  lemma {:induction false} EncodeAllAppend(vs: seq<uint64>, v: uint64)
    ensures EncodeAll(vs + [v]) == EncodeAll(vs) + Encoding(v)
  {
    if vs == [] {
      assert [] + [v] == [v];
      assert EncodeAll([v][1..]) == [];
    } else {
      assert (vs + [v])[1..] == vs[1..] + [v];
      EncodeAllAppend(vs[1..], v);
    }
  }

  ghost function Serialized(es: seq<Entry>): seq<byte> {
    Encoding(|es|) + (EncodeAll(IdDeltas(es)) + (EncodeAll(RunLengths(es)) +
      (EncodeAll(Lengths(es)) + EncodeAll(OffsetCodes(es)))))
  }

  /** One number more of a column, behind what is already there. */
  lemma ColumnStep(start: seq<byte>, vs: seq<uint64>, i: nat)
    requires i < |vs|
    ensures start + EncodeAll(vs[..i]) + Encoding(vs[i]) == start + EncodeAll(vs[..i + 1])
  {
    hide EncodeAll, Encoding;
    assert vs[..i + 1] == vs[..i] + [vs[i]];
    EncodeAllAppend(vs[..i], vs[i]);
  }

  lemma ColumnStarts(start: seq<byte>, vs: seq<uint64>)
    ensures start == start + EncodeAll(vs[..0])
    ensures EncodeAll(vs[..|vs|]) == EncodeAll(vs)
  {
    assert vs[..|vs|] == vs;
  }

  lemma ColumnSizes(es: seq<Entry>)
    ensures |IdDeltas(es)| == |RunLengths(es)| == |Lengths(es)| == |OffsetCodes(es)| == |es|
  {
  }

  /** What an entry adds to each column. */
  lemma ColumnsAt(es: seq<Entry>, i: nat)
    requires i < |es| == |IdDeltas(es)| == |RunLengths(es)| == |Lengths(es)| == |OffsetCodes(es)|
    ensures IdDeltas(es)[i] == Wrapped(es[i].tileId as int - (if i == 0 then 0 else es[i - 1].tileId as int))
    ensures RunLengths(es)[i] == es[i].runLength && Lengths(es)[i] == es[i].length
    ensures OffsetCodes(es)[i] ==
            if i > 0 && es[i].offset == Wrapped(es[i - 1].offset as int + es[i - 1].length as int) then 0
            else Wrapped(es[i].offset as int + 1)
  {
    hide Wrapped;
  }

  lemma ColumnsJoin(es: seq<Entry>)
    ensures Encoding(|es|) + EncodeAll(IdDeltas(es)) + EncodeAll(RunLengths(es)) + EncodeAll(Lengths(es)) +
            EncodeAll(OffsetCodes(es)) == Serialized(es)
  {
    hide Encoding, EncodeAll, IdDeltas, RunLengths, Lengths, OffsetCodes;
  }

  method SerializeDirectory(entries: seq<Entry>) returns (data: seq<byte>)
    requires |entries| < TWO_64
    ensures data == Serialized(entries)
  {
    hide EncodeAll, Encoding, Serialized, IdDeltas, RunLengths, Lengths, OffsetCodes, Wrapped;
    var n: nat;
    data, n := WriteVarint([], |entries|);
    ColumnSizes(entries);
    ghost var start := data;
    ghost var ids := IdDeltas(entries);
    ColumnStarts(start, ids);
    var lastId: uint64 := 0;
    for i := 0 to |entries|
      invariant lastId == if i == 0 then 0 else entries[i - 1].tileId
      invariant data == start + EncodeAll(ids[..i])
    {
      ColumnsAt(entries, i);
      ColumnStep(start, ids, i);
      data, n := WriteVarint(data, Wrapped(entries[i].tileId as int - lastId as int));
      lastId := entries[i].tileId;
    }
    ghost var afterIds := data;
    ghost var runs := RunLengths(entries);
    ColumnStarts(afterIds, runs);
    for i := 0 to |entries|
      invariant data == afterIds + EncodeAll(runs[..i])
    {
      ColumnsAt(entries, i);
      ColumnStep(afterIds, runs, i);
      data, n := WriteVarint(data, entries[i].runLength);
    }
    ghost var afterRuns := data;
    ghost var lengths := Lengths(entries);
    ColumnStarts(afterRuns, lengths);
    for i := 0 to |entries|
      invariant data == afterRuns + EncodeAll(lengths[..i])
    {
      ColumnsAt(entries, i);
      ColumnStep(afterRuns, lengths, i);
      data, n := WriteVarint(data, entries[i].length);
    }
    ghost var afterLengths := data;
    ghost var codes := OffsetCodes(entries);
    ColumnStarts(afterLengths, codes);
    for i := 0 to |entries|
      invariant data == afterLengths + EncodeAll(codes[..i])
    {
      ColumnsAt(entries, i);
      ColumnStep(afterLengths, codes, i);
      if i > 0 && entries[i].offset == Wrapped(entries[i - 1].offset as int + entries[i - 1].length as int) {
        data, n := WriteVarint(data, 0);
      } else {
        data, n := WriteVarint(data, Wrapped(entries[i].offset as int + 1));
      }
    }
    ColumnsJoin(entries);
  }

  lemma EmptyColumn()
    ensures EncodeAll([]) == []
  {
  }

  // ----- Parsing -----

  function FailureOf(d: Decode): Error
    requires !d.Value?
  {
    if d.EndOfBuffer? then EndOfBufferError else VarintTooLong
  }

  ghost function Rest(s: seq<byte>): seq<byte>
    requires Decoded(s).Value?
  {
    s[Decoded(s).used..]
  }

  /** The tile id column, n ids still to read; ids is what has been read. */
  ghost function ParseIds(s: seq<byte>, n: nat, ids: seq<uint64>): Parse {
    if n == 0 then Parsed(ids, s)
    else
      var d := Decoded(s);
      var last := if ids == [] then 0 else ids[|ids| - 1];
      if !d.Value? then Failed(FailureOf(d))
      else if d.value > TWO_64 - 1 - last then Failed(MalformedDirectory)
      else ParseIds(Rest(s), n - 1, ids + [last + d.value])
  }

  /** A column of 32-bit numbers. */
  ghost function ParseSmall(s: seq<byte>, n: nat, column: seq<uint64>): Parse {
    if n == 0 then Parsed(column, s)
    else
      var d := Decoded(s);
      if !d.Value? then Failed(FailureOf(d))
      else if d.value > 0xFFFF_FFFF then Failed(MalformedDirectory)
      else ParseSmall(Rest(s), n - 1, column + [d.value])
  }

  /** The offset column. */
  ghost function ParseOffsets(s: seq<byte>, lengths: seq<uint64>, offsets: seq<uint64>): Parse
    requires |offsets| <= |lengths|
    decreases |lengths| - |offsets|
  {
    var i := |offsets|;
    if i == |lengths| then Parsed(offsets, s)
    else
      var d := Decoded(s);
      if !d.Value? then Failed(FailureOf(d))
      else if i > 0 && d.value == 0 then
        if offsets[i - 1] > TWO_64 - 1 - lengths[i - 1] then Failed(MalformedDirectory)
        else ParseOffsets(Rest(s), lengths, offsets + [offsets[i - 1] + lengths[i - 1]])
      else ParseOffsets(Rest(s), lengths, offsets + [Wrapped(d.value as int - 1)])
  }

  ghost predicate SmallColumn(c: seq<uint64>) {
    forall i :: 0 <= i < |c| ==> c[i] <= 0xFFFF_FFFF
  }

  ghost function Assembled(ids: seq<uint64>, runs: seq<uint64>, lengths: seq<uint64>, offsets: seq<uint64>): seq<Entry>
    requires |ids| == |runs| == |lengths| == |offsets|
    requires SmallColumn(runs) && SmallColumn(lengths)
  {
    seq(|ids|, i requires 0 <= i < |ids| => Entry(ids[i], offsets[i], lengths[i], runs[i]))
  }

  lemma {:induction false} ParsedIdsExtend(s: seq<byte>, n: nat, ids: seq<uint64>)
    ensures ParseIds(s, n, ids).Parsed? ==>
      |ParseIds(s, n, ids).column| == |ids| + n && ids <= ParseIds(s, n, ids).column
    decreases n
  {
    hide Decoded;
    if n > 0 {
      var d := Decoded(s);
      var last := if ids == [] then 0 else ids[|ids| - 1];
      if d.Value? && d.value <= TWO_64 - 1 - last {
        ParsedIdsExtend(Rest(s), n - 1, ids + [last + d.value]);
      }
    }
  }

  lemma {:induction false} ParsedSmallIsSmall(s: seq<byte>, n: nat, column: seq<uint64>)
    requires SmallColumn(column)
    ensures ParseSmall(s, n, column).Parsed? ==>
      |ParseSmall(s, n, column).column| == |column| + n && SmallColumn(ParseSmall(s, n, column).column)
    decreases n
  {
    hide Decoded;
    if n > 0 {
      var d := Decoded(s);
      if d.Value? && d.value <= 0xFFFF_FFFF {
        ParsedSmallIsSmall(Rest(s), n - 1, column + [d.value]);
      }
    }
  }

  lemma {:induction false} ParsedOffsetsExtend(s: seq<byte>, lengths: seq<uint64>, offsets: seq<uint64>)
    requires |offsets| <= |lengths|
    ensures ParseOffsets(s, lengths, offsets).Parsed? ==>
      |ParseOffsets(s, lengths, offsets).column| == |lengths| && offsets <= ParseOffsets(s, lengths, offsets).column
    decreases |lengths| - |offsets|
  {
    hide Decoded;
    var i := |offsets|;
    if i < |lengths| {
      var d := Decoded(s);
      if d.Value? {
        if i > 0 && d.value == 0 {
          if offsets[i - 1] <= TWO_64 - 1 - lengths[i - 1] {
            ParsedOffsetsExtend(Rest(s), lengths, offsets + [offsets[i - 1] + lengths[i - 1]]);
          }
        } else {
          ParsedOffsetsExtend(Rest(s), lengths, offsets + [Wrapped(d.value as int - 1)]);
        }
      }
    }
  }

  /** What deserialize_directory makes of any buffer. */
  ghost function Deserialized(data: seq<byte>): Result {
    var d := Decoded(data);
    if !d.Value? then Err(FailureOf(d))
    else if d.value / 4 > |data| then Err(MalformedDirectory)
    else DeserializedColumns(Rest(data), d.value)
  }

  ghost function DeserializedColumns(s: seq<byte>, n: nat): Result {
    var ids := ParseIds(s, n, []);
    if ids.Failed? then Err(ids.error) else
    var runs := ParseSmall(ids.rest, n, []);
    if runs.Failed? then Err(runs.error) else
    var lengths := ParseSmall(runs.rest, n, []);
    if lengths.Failed? then Err(lengths.error) else
    ParsedSmallIsSmall(runs.rest, n, []);
    var offsets := ParseOffsets(lengths.rest, lengths.column, []);
    if offsets.Failed? then Err(offsets.error)
    else if offsets.rest != [] then Err(MalformedDirectory)
    else
      ParsedIdsExtend(s, n, []);
      ParsedSmallIsSmall(ids.rest, n, []);
      ParsedOffsetsExtend(lengths.rest, lengths.column, []);
      Ok(Assembled(ids.column, runs.column, lengths.column, offsets.column))
  }

  method DeserializeDirectory(decompressed: seq<byte>) returns (r: Result)
    ensures r == Deserialized(decompressed)
  {
    hide Decoded;
    hide ParseIds;
    hide ParseSmall;
    hide ParseOffsets;
    hide Assembled;
    var t := decompressed;
    var d := DecodeVarint(t);
    if !d.Value? {
      return Err(FailureOf(d));
    }
    t := t[d.used..];
    if d.value / 4 > |decompressed| {
      return Err(MalformedDirectory);
    }
    var n: nat := d.value;
    var ids := ReadIds(t, n);
    if ids.Failed? {
      return Err(ids.error);
    }
    var runs := ReadSmall(ids.rest, n);
    if runs.Failed? {
      return Err(runs.error);
    }
    var lengths := ReadSmall(runs.rest, n);
    if lengths.Failed? {
      return Err(lengths.error);
    }
    ParsedSmallIsSmall(runs.rest, n, []);
    var offsets := ReadOffsets(lengths.rest, lengths.column);
    if offsets.Failed? {
      return Err(offsets.error);
    }
    if offsets.rest != [] {
      return Err(MalformedDirectory);
    }
    ParsedIdsExtend(t, n, []);
    ParsedSmallIsSmall(ids.rest, n, []);
    ParsedOffsetsExtend(lengths.rest, lengths.column, []);
    var entries := seq(n, i requires 0 <= i < n => Entry(ids.column[i], offsets.column[i], lengths.column[i], runs.column[i]));
    assert entries == Assembled(ids.column, runs.column, lengths.column, offsets.column) by {
      AssembledAt(ids.column, runs.column, lengths.column, offsets.column);
    }
    r := Ok(entries);
  }

  lemma AssembledAt(ids: seq<uint64>, runs: seq<uint64>, lengths: seq<uint64>, offsets: seq<uint64>)
    requires |ids| == |runs| == |lengths| == |offsets|
    requires SmallColumn(runs) && SmallColumn(lengths)
    ensures var es := Assembled(ids, runs, lengths, offsets);
            |es| == |ids| && forall i :: 0 <= i < |ids| ==> es[i] == Entry(ids[i], offsets[i], lengths[i], runs[i])
  {
  }

  method ReadIds(s: seq<byte>, n: nat) returns (r: Parse)
    ensures r == ParseIds(s, n, [])
  {
    hide Decoded;
    var t := s;
    var ids: seq<uint64> := [];
    var last: uint64 := 0;
    for i := 0 to n
      invariant |ids| == i && last == if i == 0 then 0 else ids[i - 1]
      invariant ParseIds(s, n, []) == ParseIds(t, n - i, ids)
    {
      var d := DecodeVarint(t);
      if !d.Value? {
        return Failed(FailureOf(d));
      }
      if d.value > TWO_64 - 1 - last {
        return Failed(MalformedDirectory);
      }
      t := t[d.used..];
      last := last + d.value;
      ids := ids + [last];
    }
    r := Parsed(ids, t);
  }

  method ReadSmall(s: seq<byte>, n: nat) returns (r: Parse)
    ensures r == ParseSmall(s, n, [])
  {
    hide Decoded;
    var t := s;
    var column: seq<uint64> := [];
    for i := 0 to n
      invariant ParseSmall(s, n, []) == ParseSmall(t, n - i, column)
    {
      var d := DecodeVarint(t);
      if !d.Value? {
        return Failed(FailureOf(d));
      }
      if d.value > 0xFFFF_FFFF {
        return Failed(MalformedDirectory);
      }
      t := t[d.used..];
      column := column + [d.value];
    }
    r := Parsed(column, t);
  }

  method ReadOffsets(s: seq<byte>, lengths: seq<uint64>) returns (r: Parse)
    ensures r == ParseOffsets(s, lengths, [])
  {
    hide Decoded;
    var t := s;
    var offsets: seq<uint64> := [];
    for i := 0 to |lengths|
      invariant |offsets| == i
      invariant ParseOffsets(s, lengths, []) == ParseOffsets(t, lengths, offsets)
    {
      var d := DecodeVarint(t);
      if !d.Value? {
        return Failed(FailureOf(d));
      }
      t := t[d.used..];
      if i > 0 && d.value == 0 {
        if offsets[i - 1] > TWO_64 - 1 - lengths[i - 1] {
          return Failed(MalformedDirectory);
        }
        offsets := offsets + [offsets[i - 1] + lengths[i - 1]];
      } else {
        offsets := offsets + [Wrapped(d.value as int - 1)];
      }
    }
    r := Parsed(offsets, t);
  }

  // ----- Round trip -----

  predicate IdsAscend(es: seq<Entry>) {
    forall i :: 0 < i < |es| ==> es[i - 1].tileId <= es[i].tileId
  }

  /** The previous region's end is a 64-bit number if the entry continues it, and the
      one offset whose code would read as "continues" is not used otherwise. */
  predicate OffsetOk(es: seq<Entry>, i: nat)
    requires i < |es|
  {
    if Contiguous(es, i) then es[i - 1].offset as int + es[i - 1].length as int < TWO_64
    else i == 0 || es[i].offset != TWO_64 - 1
  }

  predicate OffsetsOk(es: seq<Entry>) {
    forall i :: 0 <= i < |es| ==> OffsetOk(es, i)
  }

  lemma ReadEncoded(v: uint64, rest: seq<byte>)
    ensures Decoded(Encoding(v) + rest) == Value(v, |Encoding(v)|)
    ensures Rest(Encoding(v) + rest) == rest
  {
    DecodedOfEncoding(v, rest);
  }

  /** The rest of a printed column, one number off. */
  lemma ReadColumn(vs: seq<uint64>, i: nat, rest: seq<byte>)
    requires i < |vs|
    ensures var s := EncodeAll(vs[i..]) + rest;
            Decoded(s).Value? && Decoded(s).value == vs[i] && Rest(s) == EncodeAll(vs[i + 1..]) + rest
  {
    hide Decoded;
    assert vs[i..][1..] == vs[i + 1..];
    var tail := EncodeAll(vs[i + 1..]) + rest;
    assert EncodeAll(vs[i..]) + rest == Encoding(vs[i]) + tail;
    ReadEncoded(vs[i], tail);
  }

  lemma IdStep(es: seq<Entry>, i: nat, rest: seq<byte>)
    requires i < |es|
    ensures var ids := TileIds(es);
            var p := ParseIds(EncodeAll(IdDeltas(es)[i..]) + rest, |es| - i, ids[..i]);
            if 0 < i && es[i - 1].tileId > es[i].tileId then p == Failed(MalformedDirectory)
            else p == ParseIds(EncodeAll(IdDeltas(es)[i + 1..]) + rest, |es| - i - 1, ids[..i + 1])
  {
    hide Decoded;
    hide EncodeAll;
    hide Encoding;
    var ids := TileIds(es);
    ReadColumn(IdDeltas(es), i, rest);
    assert ids[..i + 1] == ids[..i] + [ids[i]];
    assert 0 < i ==> ids[..i][i - 1] == es[i - 1].tileId;
  }

  lemma {:induction false} IdsRoundTrip(es: seq<Entry>, i: nat, rest: seq<byte>)
    requires i <= |es|
    ensures var p := ParseIds(EncodeAll(IdDeltas(es)[i..]) + rest, |es| - i, TileIds(es)[..i]);
            if forall j :: i <= j < |es| && 0 < j ==> es[j - 1].tileId <= es[j].tileId
            then p == Parsed(TileIds(es), rest) else p == Failed(MalformedDirectory)
    decreases |es| - i
  {
    hide *;
    if i == |es| {
      IdsEnd(es, rest);
    } else {
      IdStep(es, i, rest);
      IdsRoundTrip(es, i + 1, rest);
    }
  }

  lemma IdsEnd(es: seq<Entry>, rest: seq<byte>)
    ensures |TileIds(es)| == |IdDeltas(es)| == |es|
    ensures ParseIds(EncodeAll(IdDeltas(es)[|es|..]) + rest, 0, TileIds(es)[..|es|]) == Parsed(TileIds(es), rest)
  {
    assert IdDeltas(es)[|es|..] == [] && TileIds(es)[..|es|] == TileIds(es);
    assert [] + rest == rest;
  }

  lemma {:induction false} SmallRoundTrip(vs: seq<uint64>, i: nat, rest: seq<byte>)
    requires i <= |vs| && SmallColumn(vs)
    ensures ParseSmall(EncodeAll(vs[i..]) + rest, |vs| - i, vs[..i]) == Parsed(vs, rest)
    decreases |vs| - i
  {
    hide Decoded;
    hide EncodeAll;
    hide Encoding;
    if i == |vs| {
      assert vs[i..] == [] && vs[..i] == vs;
      EmptyColumn();
    } else {
      ReadColumn(vs, i, rest);
      SmallRoundTrip(vs, i + 1, rest);
      assert vs[..i + 1] == vs[..i] + [vs[i]];
    }
  }

  lemma OffsetStep(es: seq<Entry>, i: nat, rest: seq<byte>)
    requires i < |es|
    ensures var offsets := Offsets(es);
            var p := ParseOffsets(EncodeAll(OffsetCodes(es)[i..]) + rest, Lengths(es), offsets[..i]);
            if OffsetOk(es, i)
            then p == ParseOffsets(EncodeAll(OffsetCodes(es)[i + 1..]) + rest, Lengths(es), offsets[..i + 1])
            else p.Failed? || p.column != offsets
  {
    hide Decoded, EncodeAll, Encoding, ParseOffsets;
    ReadColumn(OffsetCodes(es), i, rest);
    var s := EncodeAll(OffsetCodes(es)[i..]) + rest;
    if OffsetOk(es, i) {
      ReadGoodOffset(es, i, s);
    } else {
      ReadBadOffset(es, i, s);
    }
  }

  lemma OffsetsAt(es: seq<Entry>, i: nat)
    requires i < |es|
    ensures |Offsets(es)| == |Lengths(es)| == |OffsetCodes(es)| == |es|
    ensures Offsets(es)[i] == es[i].offset && Lengths(es)[i] == es[i].length && OffsetCodes(es)[i] == OffsetCode(es, i)
  {
    hide OffsetCode;
  }

  lemma ReadGoodOffset(es: seq<Entry>, i: nat, s: seq<byte>)
    requires i < |es| && OffsetOk(es, i)
    requires Decoded(s).Value? && Decoded(s).value == OffsetCodes(es)[i]
    ensures ParseOffsets(s, Lengths(es), Offsets(es)[..i]) == ParseOffsets(Rest(s), Lengths(es), Offsets(es)[..i + 1])
  {
    hide Decoded, Rest, Offsets, Lengths, OffsetCodes;
    OffsetsAt(es, i);
    var offsets := Offsets(es);
    assert offsets[..i + 1] == offsets[..i] + [offsets[i]];
    if 0 < i {
      OffsetsAt(es, i - 1);
      assert offsets[..i][i - 1] == offsets[i - 1];
    }
  }

  lemma ReadBadOffset(es: seq<Entry>, i: nat, s: seq<byte>)
    requires i < |es| && !OffsetOk(es, i)
    requires Decoded(s).Value? && Decoded(s).value == OffsetCodes(es)[i]
    ensures var p := ParseOffsets(s, Lengths(es), Offsets(es)[..i]);
            p.Failed? || p.column != Offsets(es)
  {
    hide Decoded, Rest, Offsets, Lengths, OffsetCodes;
    OffsetsAt(es, i);
    var offsets := Offsets(es);
    OffsetsAt(es, i - 1);
    assert offsets[..i][i - 1] == offsets[i - 1];
    var end := es[i - 1].offset as int + es[i - 1].length as int;
    if end < TWO_64 {
      ParsedOffsetsExtend(Rest(s), Lengths(es), offsets[..i] + [end]);
      assert (offsets[..i] + [end])[i] != offsets[i];
    }
  }

  lemma OffsetsEnd(es: seq<Entry>, rest: seq<byte>)
    ensures |Offsets(es)| == |es| && |OffsetCodes(es)| == |es|
    ensures ParseOffsets(EncodeAll(OffsetCodes(es)[|es|..]) + rest, Lengths(es), Offsets(es)[..|es|]) == Parsed(Offsets(es), rest)
  {
    assert OffsetCodes(es)[|es|..] == [] && Offsets(es)[..|es|] == Offsets(es);
    assert [] + rest == rest;
  }

  lemma {:induction false} OffsetsRoundTrip(es: seq<Entry>, i: nat, rest: seq<byte>)
    requires i <= |es|
    ensures var p := ParseOffsets(EncodeAll(OffsetCodes(es)[i..]) + rest, Lengths(es), Offsets(es)[..i]);
            if forall j :: i <= j < |es| ==> OffsetOk(es, j)
            then p == Parsed(Offsets(es), rest) else p.Failed? || p.column != Offsets(es)
    decreases |es| - i
  {
    hide ParseOffsets;
    hide EncodeAll;
    hide Offsets;
    hide OffsetCodes;
    hide OffsetOk;
    if i == |es| {
      OffsetsEnd(es, rest);
    } else {
      OffsetStep(es, i, rest);
      OffsetsRoundTrip(es, i + 1, rest);
    }
  }

  lemma ColumnsOf(es: seq<Entry>)
    ensures SmallColumn(RunLengths(es)) && SmallColumn(Lengths(es))
    ensures Assembled(TileIds(es), RunLengths(es), Lengths(es), Offsets(es)) == es
  {
  }

  /** Reading a printed directory gives the entries back, and nothing is left over,
      exactly for the lists whose ids do not descend and whose offsets are OffsetsOk.
      On every other list the reader throws or answers something else. */
  lemma RoundTrip(es: seq<Entry>)
    requires |es| < TWO_64
    ensures Deserialized(Serialized(es)) == Ok(es) <==> IdsAscend(es) && OffsetsOk(es)
  {
    hide Decoded;
    hide EncodeAll;
    hide Encoding;
    hide ParseIds;
    var n := |es|;
    var tail2 := EncodeAll(RunLengths(es)) + (EncodeAll(Lengths(es)) + EncodeAll(OffsetCodes(es)));
    var tail1 := EncodeAll(IdDeltas(es)) + tail2;
    ReadEncoded(n, tail1);
    assert |Serialized(es)| >= n;
    assert Deserialized(Serialized(es)) == DeserializedColumns(tail1, n);
    FromTheStart(IdDeltas(es), TileIds(es));
    IdsRoundTrip(es, 0, tail2);
    if IdsAscend(es) {
      LaterColumns(es, tail1);
    }
  }

  lemma LaterColumns(es: seq<Entry>, s: seq<byte>)
    requires ParseIds(s, |es|, []) == Parsed(TileIds(es),
               EncodeAll(RunLengths(es)) + (EncodeAll(Lengths(es)) + EncodeAll(OffsetCodes(es))))
    ensures DeserializedColumns(s, |es|) == Ok(es) <==> OffsetsOk(es)
  {
    hide Decoded;
    hide EncodeAll;
    hide Encoding;
    hide Assembled;
    hide ParseIds;
    hide ParseSmall;
    hide ParseOffsets;
    hide OffsetsOk;
    hide SmallColumn;
    var tail4 := EncodeAll(OffsetCodes(es));
    var tail3 := EncodeAll(Lengths(es)) + tail4;
    FromTheStart(RunLengths(es), RunLengths(es));
    FromTheStart(Lengths(es), Lengths(es));
    ColumnsOf(es);
    SmallRoundTrip(RunLengths(es), 0, tail3);
    SmallRoundTrip(Lengths(es), 0, tail4);
    OffsetsColumn(es);
    var p := ParseOffsets(tail4, Lengths(es), []);
    if p.Parsed? && p.column != Offsets(es) {
      WrongOffsets(es, p.column);
    }
  }

  lemma OffsetsColumn(es: seq<Entry>)
    ensures var p := ParseOffsets(EncodeAll(OffsetCodes(es)), Lengths(es), []);
            if OffsetsOk(es) then p == Parsed(Offsets(es), [])
            else p.Failed? || (|p.column| == |es| && p.column != Offsets(es))
  {
    hide Decoded;
    hide EncodeAll;
    hide Encoding;
    hide ParseOffsets;
    hide OffsetOk;
    var codes := EncodeAll(OffsetCodes(es));
    FromTheStart(OffsetCodes(es), Offsets(es));
    OffsetsRoundTrip(es, 0, []);
    assert codes + [] == codes;
    ParsedOffsetsExtend(codes, Lengths(es), []);
  }

  lemma WrongOffsets(es: seq<Entry>, offsets: seq<uint64>)
    requires |offsets| == |es| && offsets != Offsets(es)
    requires SmallColumn(RunLengths(es)) && SmallColumn(Lengths(es))
    ensures Assembled(TileIds(es), RunLengths(es), Lengths(es), offsets) != es
  {
    AssembledAt(TileIds(es), RunLengths(es), Lengths(es), offsets);
    var k :| 0 <= k < |es| && offsets[k] != Offsets(es)[k];
  }

  lemma FromTheStart(a: seq<uint64>, b: seq<uint64>)
    ensures a[0..] == a && b[..0] == []
  {
  }
}
