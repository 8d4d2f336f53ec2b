/** One way as bytes: the 31 low bits of each node id plain or compressed, and the bits
    above them once for the whole way or four bits a node. */
module WayCodec {
  import opened Coordinates
  import opened BitMask
  import opened IntCodec
  import opened Memory

  type NodeId = i: int | 0 <= i < 0x1_0000_0000_0000_0000

  const COMPRESSED_WAY: nat := 0x8000
  const CLOSED_WAY: nat := 0x4000
  const UNIFORM_UPPER_BITS: nat := 0x2000
  const MAX_NODES: nat := 2000

  datatype EncodeError = EmptyWay | TooManyNodes | HighNodeId

  /** Bytes of the scratch buffer that takes the compressed deltas. */
  const SCRATCH: nat := 8192

  /** Overrun is the write past the end of the scratch buffer, which the program leaves
      undefined. */
  datatype EncodeResult = Ok(flags: nat, output: seq<octet>) | Thrown(error: EncodeError) | Overrun

  function High(id: NodeId): nat {
    id as int / 0x8000_0000
  }

  function Low(id: NodeId): word {
    id as int % 0x8000_0000
  }

  // ----- The format -----

  predicate IsClosed(way: seq<NodeId>) {
    |way| > 1 && way[0] == way[|way| - 1]
  }

  /** A closed way goes without its last point. */
  function Points(way: seq<NodeId>): (r: seq<NodeId>)
    ensures way != [] ==> r != [] && r[0] == way[0]
    ensures |r| <= |way|
  {
    if IsClosed(way) then way[..|way| - 1] else way
  }

  /** The first id's upper part in 32 bits. */
  function UpperInt(way: seq<NodeId>): nat
    requires way != []
  {
    High(way[0]) % 0x1_0000_0000
  }

  /** The other ids' upper parts are compared with it. */
  ghost predicate Uniform(way: seq<NodeId>)
    requires way != []
  {
    forall i :: 1 <= i < |way| ==> High(way[i]) == UpperInt(way)
  }

  /** An upper part in eight bits. */
  function Upper(id: NodeId): octet {
    High(id) % 256
  }

  ghost predicate UpperFits(way: seq<NodeId>)
    requires way != []
  {
    if Uniform(way) then UpperInt(way) <= 15 else forall j :: 0 <= j < |Points(way)| ==> Upper(Points(way)[j]) <= 15
  }

  /** Two upper parts in a byte. */
  function PackedByte(ps: seq<NodeId>, i: nat): nat
    requires 2 * i < |ps|
  {
    Upper(ps[2 * i]) as int + if 2 * i + 1 < |ps| then 16 * Upper(ps[2 * i + 1]) as int else 0
  }

  function PackedUpper(ps: seq<NodeId>, n: nat): (r: seq<octet>)
    requires 2 * n <= |ps| + 1 && forall j :: 0 <= j < |ps| ==> Upper(ps[j]) <= 15
    ensures |r| == n
  {
    seq(n, i requires 0 <= i < n => PackedByte(ps, i))
  }

  ghost function UpperBytes(way: seq<NodeId>): (r: seq<octet>)
    requires way != [] && UpperFits(way)
    ensures |r| == if Uniform(way) then 1 else (|Points(way)| + 1) / 2
  {
    if Uniform(way) then [UpperInt(way)] else PackedUpper(Points(way), (|Points(way)| + 1) / 2)
  }

  function PlainBytes(ps: seq<NodeId>): (r: seq<octet>)
    ensures |r| == 4 * |ps|
  {
    if ps == [] then [] else PlainBytes(ps[..|ps| - 1]) + Bytes4(Low(ps[|ps| - 1]))
  }

  function Lows(ps: seq<NodeId>): (r: seq<int32>)
    ensures |r| == |ps|
  {
    seq(|ps|, i requires 0 <= i < |ps| => Low(ps[i]) as int)
  }

  function LowBytes(ic: IntCodec, ps: seq<NodeId>, compress: bool): seq<octet>
    requires ps != []
  {
    if compress then
      var data := Deltas(ic, Lows(ps));
      Bytes2(|data| % 0x1_0000) + Bytes4(Low(ps[0])) + data
    else PlainBytes(ps)
  }

  predicate ScratchHolds(ic: IntCodec, ps: seq<NodeId>, compress: bool)
    requires ps != []
  {
    compress ==> |Deltas(ic, Lows(ps))| <= SCRATCH
  }

  function FlagsOf(length: nat, compress: bool, closed: bool, uniform: bool): nat {
    length + (if compress then COMPRESSED_WAY else 0) + (if closed then CLOSED_WAY else 0) + if uniform then UNIFORM_UPPER_BITS else 0
  }

  ghost function Encoded(ic: IntCodec, way: seq<NodeId>, compress: bool): EncodeResult {
    if way == [] then Thrown(EmptyWay)
    else if |way| > MAX_NODES then Thrown(TooManyNodes)
    else if !UpperFits(way) then Thrown(HighNodeId)
    else if !ScratchHolds(ic, Points(way), compress) then Overrun
    else Ok(FlagsOf(|Points(way)|, compress, IsClosed(way), Uniform(way)), UpperBytes(way) + LowBytes(ic, Points(way), compress))
  }

  // ----- Encoding -----

  method EncodeWay(ic: IntCodec, way: seq<NodeId>, compress: bool) returns (r: EncodeResult)
    ensures r == Encoded(ic, way, compress)
  {
    hide Upper;
    hide UpperInt;
    hide High;
    if |way| == 0 {
      return Thrown(EmptyWay);
    }
    if |way| > 2000 {
      return Thrown(TooManyNodes);
    }
    var isClosed := |way| > 1 && way[0] == way[|way| - 1];
    var max := if isClosed then |way| - 1 else |way|;
    ghost var ps := Points(way);
    assert way[..max] == ps;
    var flags := max;
    if compress {
      flags := flags + COMPRESSED_WAY;
    }
    if isClosed {
      flags := flags + CLOSED_WAY;
    }
    var pushUpperBits := false;
    var upperInt := UpperInt(way);
    var i := 1;
    while i < |way|
      invariant 1 <= i <= |way| && !pushUpperBits
      invariant forall j :: 1 <= j < i ==> High(way[j]) == upperInt
    {
      if High(way[i]) != upperInt {
        pushUpperBits := true;
        break;
      }
      i := i + 1;
    }
    assert pushUpperBits <==> !Uniform(way);
    var output: seq<octet>;
    if pushUpperBits {
      var ok;
      ok, output := PackUpper(way[..max]);
      if !ok {
        return Thrown(HighNodeId);
      }
    } else {
      if upperInt > 15 {
        return Thrown(HighNodeId);
      }
      flags := flags + UNIFORM_UPPER_BITS;
      output := [upperInt];
    }
    assert output == UpperBytes(way);
    var fits, low := PushLow(ic, way[..max], compress);
    r := if fits then Ok(flags, output + low) else Overrun;
  }

  /** Four bits a node, the second of a pair above the first. */
  method PackUpper(ps: seq<NodeId>) returns (ok: bool, output: seq<octet>)
    requires ps != []
    ensures ok <==> forall j :: 0 <= j < |ps| ==> Upper(ps[j]) <= 15
    ensures ok ==> output == PackedUpper(ps, (|ps| + 1) / 2)
  {
    hide Upper;
    ok, output := true, [];
    var max := |ps|;
    var i := 0;
    while i <= (max - 1) / 2
      invariant 0 <= i <= (max + 1) / 2 && |output| == i
      invariant forall j :: 0 <= j < 2 * i && j < max ==> Upper(ps[j]) <= 15
      invariant forall k :: 0 <= k < i ==> output[k] as int == PackedByte(ps, k)
    {
      var byte: octet := 0;
      var first := true;
      var end := if max < i * 2 + 2 then max else i * 2 + 2;
      var j := end - 1;
      while j >= i * 2
        invariant i * 2 - 1 <= j < end && (first <==> j == end - 1) && (first ==> byte == 0)
        invariant !first ==> byte == Upper(ps[j + 1]) as int + if j + 2 < end then 16 * Upper(ps[j + 2]) as int else 0
        invariant forall k :: j < k < end ==> Upper(ps[k]) <= 15
      {
        if !first {
          byte := byte as int * 16 % 256;
        }
        first := false;
        var upper4Bits := Upper(ps[j]);
        if upper4Bits > 15 {
          return false, [];
        }
        // The low four bits are clear.
        byte := byte as int + upper4Bits as int;
        j := j - 1;
      }
      output := output + [byte];
      i := i + 1;
    }
    assert forall k :: 0 <= k < (|ps| + 1) / 2 ==> output[k] == PackedByte(ps, k);
  }

  method PushLow(ic: IntCodec, ps: seq<NodeId>, compress: bool) returns (fits: bool, bytes: seq<octet>)
    requires ps != []
    ensures fits <==> ScratchHolds(ic, ps, compress)
    ensures fits ==> bytes == LowBytes(ic, ps, compress)
  {
    hide Bytes4;
    hide Deltas;
    fits := true;
    if !compress {
      bytes := [];
      for i := 0 to |ps|
        invariant bytes == PlainBytes(ps[..i])
      {
        assert ps[..i + 1][..i] == ps[..i];
        bytes := bytes + Bytes4(Low(ps[i]));
      }
      assert ps[..|ps|] == ps;
    } else {
      var ints: seq<int32> := [];
      for i := 0 to |ps|
        invariant ints == Lows(ps[..i])
      {
        ints := ints + [Low(ps[i]) as int];
      }
      assert ps[..|ps|] == ps;
      var data := Deltas(ic, ints);
      var compressedSize := |data|;
      if compressedSize > 8192 {
        return false, [];
      }
      bytes := Bytes2(compressedSize % 0x1_0000) + Bytes4(Low(ps[0])) + data;
    }
  }

  /** Whether the scratch buffer is large enough can be told from the way. */
  predicate Fits(way: seq<NodeId>, compress: bool)
    requires way != []
  {
    compress ==> DeltasLength(Lows(Points(way))) <= SCRATCH
  }

  lemma ScratchIs(ic: IntCodec, way: seq<NodeId>, compress: bool)
    requires GoodIntCodec(ic) && way != []
    ensures ScratchHolds(ic, Points(way), compress) <==> Fits(way, compress)
  {
    hide GoodIntCodec, Deltas, DeltasLength;
    DeltasSize(ic, Lows(Points(way)));
  }

  /** Up to 1,928 points fit whatever they are; any further one needs luck. */
  lemma ScratchIsEnough(way: seq<NodeId>, compress: bool)
    requires way != []
    ensures |Points(way)| <= 1928 ==> Fits(way, compress)
    ensures FarApart(Lows(Points(way))) ==> (Fits(way, true) <==> |Points(way)| <= 1928)
  {
    var vs := Lows(Points(way));
    assert |vs| == |Points(way)|;
    if FarApart(vs) {
      WidestDeltas(vs);
    }
  }

  /** Compressed, a way whose neighbours' low parts are near each other takes six bytes, one
      byte a delta and one for four deltas, and fits whatever its length. */
  lemma NearWayIsShort(ic: IntCodec, way: seq<NodeId>)
    requires GoodIntCodec(ic) && way != [] && |way| <= 2000 && Near(Lows(Points(way)))
    ensures var n := |Points(way)|;
            |LowBytes(ic, Points(way), true)| == 6 + (n + 2) / 4 + (n - 1) && Fits(way, true)
    // With one byte more for high parts, if they are the same.
    ensures (forall i :: 0 <= i < |way| ==> way[i] as int / 0x8000_0000 == way[0] as int / 0x8000_0000 <= 15) ==>
      var e, n := Encoded(ic, way, true), |Points(way)|;
      e.Ok? && |e.output| == 7 + (n + 2) / 4 + (n - 1)
  {
    NearWayFits(ic, way);
    if forall i :: 0 <= i < |way| ==> way[i] as int / 0x8000_0000 == way[0] as int / 0x8000_0000 <= 15 {
      SameHighs(way);
      ScratchIs(ic, way, true);
      hide GoodIntCodec, LowBytes, Uniform, UpperFits, ScratchHolds, Fits, FlagsOf;
    }
  }

  lemma SameHighs(way: seq<NodeId>)
    requires way != [] && forall i :: 0 <= i < |way| ==> way[i] as int / 0x8000_0000 == way[0] as int / 0x8000_0000 <= 15
    ensures Uniform(way) && UpperFits(way)
  {
  }

  lemma NearWayFits(ic: IntCodec, way: seq<NodeId>)
    requires GoodIntCodec(ic) && way != [] && |way| <= 2000 && Near(Lows(Points(way)))
    ensures var n := |Points(way)|;
            |LowBytes(ic, Points(way), true)| == 6 + (n + 2) / 4 + (n - 1) && Fits(way, true)
  {
    var vs := Lows(Points(way));
    assert |vs| == |Points(way)|;
    NarrowestDeltas(vs);
    DeltasSize(ic, vs);
    hide GoodIntCodec, Deltas, DeltasLength, Lows, Points;
  }

  /** By turns 0 and 2^30: 1,930 nodes run past the buffer. 1,929, the last of which is
      the first again, do not. */
  lemma WayOverruns(ic: IntCodec)
    requires GoodIntCodec(ic)
    ensures Encoded(ic, ToAndFro(1930), true) == Overrun
    ensures Encoded(ic, ToAndFro(1929), true).Ok?
  {
    ToAndFroIs(1930);
    ToAndFroIs(1929);
    hide *;
    ScratchIsEnough(ToAndFro(1930), true);
    ScratchIsEnough(ToAndFro(1929), true);
    SmallIdsFit(ic, ToAndFro(1930), true);
    SmallIdsFit(ic, ToAndFro(1929), true);
  }

  function ToAndFro(n: nat): seq<NodeId> {
    seq(n, i => if i % 2 == 0 then 0 else 0x4000_0000)
  }

  lemma ToAndFroIs(n: nat)
    requires 2 <= n <= 2000
    ensures var way := ToAndFro(n);
            way != [] && |way| <= 2000 && (forall i :: 0 <= i < |way| ==> way[i] < 0x8_0000_0000) &&
            |Points(way)| == (if n % 2 == 1 then n - 1 else n) && FarApart(Lows(Points(way)))
  {
    var ps := Points(ToAndFro(n));
    forall i | 0 <= i < |ps| ensures Lows(ps)[i] == if i % 2 == 0 then 0 else 0x4000_0000 {
    }
    hide Lows, ToAndFro, Points;
    forall i | 0 < i < |Lows(ps)| ensures Gap(Lows(ps)[i], Lows(ps)[i - 1]) == 0x4000_0000 {
    }
  }

  /** The longest output: 1,000 bytes of upper parts, and 2,000 low parts compressed. */
  lemma EncodedSize(ic: IntCodec, way: seq<NodeId>, compress: bool)
    ensures var e := Encoded(ic, way, compress); e.Ok? ==> |e.output| <= 9198
  {
    hide LowBytes;
    hide UpperBytes;
    hide UpperFits;
    hide Uniform;
    hide FlagsOf;
    if Encoded(ic, way, compress).Ok? {
      LowSize(ic, Points(way), compress);
    }
  }

  lemma LowSize(ic: IntCodec, ps: seq<NodeId>, compress: bool)
    requires ps != [] && |ps| <= 2000 && ScratchHolds(ic, ps, compress)
    ensures |LowBytes(ic, ps, compress)| <= 8198
  {
    hide Deltas;
    hide Bytes2;
  }

  // ----- Decoding -----

  /** (h << 31) | low: bit 31 of low falls on the lowest bit of h. */
  function Or(h: octet, low: word): nat {
    if low < 0x8000_0000 then h as int * 0x8000_0000 + low as int
    else (h as int - h as int % 2) * 0x8000_0000 + low as int
  }

  function LengthOf(flags: nat): nat {
    flags % 2048
  }

  predicate HasFlag(flags: nat, flag: nat)
    requires flag > 0
  {
    flags / flag % 2 == 1
  }

  function HighAt(flags: nat, input: seq<octet>, i: nat): octet {
    if HasFlag(flags, UNIFORM_UPPER_BITS) then ByteAt(input, 0)
    else if i % 2 == 0 then ByteAt(input, i / 2) as int % 16
    else ByteAt(input, i / 2) as int / 16
  }

  function BodyStart(flags: nat): nat {
    if HasFlag(flags, UNIFORM_UPPER_BITS) then 1 else (LengthOf(flags) + 1) / 2
  }

  function LowAt(ic: IntCodec, flags: nat, input: seq<octet>, i: nat): word {
    var at := BodyStart(flags);
    if !HasFlag(flags, COMPRESSED_WAY) then WordAt(input, at + 4 * i)
    else if i == 0 then WordAt(input, at + 2)
    else
      var values := Undelta(ic, Signed(WordAt(input, at + 2)), From(input, at + 6), if LengthOf(flags) == 0 then 0 else LengthOf(flags) - 1);
      if i < |values| then Unsigned(values[i]) else 0
  }

  function Decoded(ic: IntCodec, flags: nat, input: seq<octet>): (r: seq<nat>)
    requires LengthOf(flags) > 0
  {
    var rv := seq(LengthOf(flags), i requires 0 <= i < LengthOf(flags) => Or(HighAt(flags, input, i), LowAt(ic, flags, input, i)));
    if HasFlag(flags, CLOSED_WAY) then rv + [rv[0]] else rv
  }

  /** The flags are those of an encoded way: between one point and as many as the
      scratch buffers hold. */
  method DecodeWay(ic: IntCodec, flags: nat, input: seq<octet>) returns (rv: seq<nat>)
    requires GoodIntCodec(ic) && 1 <= LengthOf(flags) <= MAX_NODES
    ensures rv == Decoded(ic, flags, input)
  {
    hide *;
    var isCompressed := HasFlag(flags, 0x8000);
    var isClosed := HasFlag(flags, 0x4000);
    var length := LengthOf(flags);
    FlagBits();
    var at, highBytes := ReadUpper(flags, input);
    rv := [];
    if !isCompressed {
      for i := 0 to length
        invariant |rv| == i && forall k :: 0 <= k < i ==> rv[k] == Or(HighAt(flags, input, k), LowAt(ic, flags, input, k))
      {
        LowAtIs(ic, flags, input, i);
        rv := rv + [Or(highBytes[i], WordAt(input, at + 4 * i))];
      }
    } else {
      LowAtIs(ic, flags, input, 0);
      at := at + 2;
      var firstInt := WordAt(input, at);
      at := at + 4;
      rv := [Or(highBytes[0], firstInt)];
      var values := Undelta(ic, Signed(firstInt), From(input, at), length - 1);
      UndeltaLength(ic, Signed(firstInt), From(input, at), length - 1);
      for i := 1 to length
        invariant |rv| == i && forall k :: 0 <= k < i ==> rv[k] == Or(HighAt(flags, input, k), LowAt(ic, flags, input, k))
      {
        LowAtIs(ic, flags, input, i);
        rv := rv + [Or(highBytes[i], Unsigned(values[i]))];
      }
    }
    DecodedIs(ic, flags, input, rv);
    if isClosed {
      rv := rv + [rv[0]];
    }
  }

  lemma FlagBits()
    ensures COMPRESSED_WAY == 0x8000 && CLOSED_WAY == 0x4000 && UNIFORM_UPPER_BITS == 0x2000
  {
  }

  lemma LowAtIs(ic: IntCodec, flags: nat, input: seq<octet>, i: nat)
    requires GoodIntCodec(ic) && i < LengthOf(flags)
    ensures var at := BodyStart(flags);
            if !HasFlag(flags, COMPRESSED_WAY) then LowAt(ic, flags, input, i) == WordAt(input, at + 4 * i)
            else if i == 0 then LowAt(ic, flags, input, i) == WordAt(input, at + 2)
            else
              var values := Undelta(ic, Signed(WordAt(input, at + 2)), From(input, at + 6), LengthOf(flags) - 1);
              i < |values| && LowAt(ic, flags, input, i) == Unsigned(values[i])
  {
    hide HasFlag, LengthOf, BodyStart, WordAt;
    UndeltaLength(ic, Signed(WordAt(input, BodyStart(flags) + 2)), From(input, BodyStart(flags) + 6), LengthOf(flags) - 1);
    hide GoodIntCodec, Undelta;
  }

  lemma DecodedIs(ic: IntCodec, flags: nat, input: seq<octet>, rv: seq<nat>)
    requires |rv| == LengthOf(flags) > 0
    requires forall k :: 0 <= k < |rv| ==> rv[k] == Or(HighAt(flags, input, k), LowAt(ic, flags, input, k))
    ensures Decoded(ic, flags, input) == if HasFlag(flags, CLOSED_WAY) then rv + [rv[0]] else rv
  {
    hide HasFlag, LengthOf, Or, HighAt, LowAt;
  }

  lemma UndeltaLength(ic: IntCodec, first: int32, bytes: seq<octet>, n: nat)
    requires GoodIntCodec(ic)
    ensures |Undelta(ic, first, bytes, n)| == n + 1
  {
  }

  method ReadUpper(flags: nat, input: seq<octet>) returns (at: nat, highBytes: seq<octet>)
    requires 1 <= LengthOf(flags)
    ensures at == BodyStart(flags) && |highBytes| == LengthOf(flags)
    ensures forall k :: 0 <= k < |highBytes| ==> highBytes[k] == HighAt(flags, input, k)
  {
    var length := LengthOf(flags);
    highBytes := [];
    at := 0;
    if !HasFlag(flags, UNIFORM_UPPER_BITS) {
      hide HasFlag;
      hide LengthOf;
      var i := 0;
      while i <= (length - 1) / 2
        invariant 0 <= i <= (length + 1) / 2 && at == i
        invariant |highBytes| == if 2 * i < length then 2 * i else length
        invariant forall k :: 0 <= k < |highBytes| ==> highBytes[k] == HighAt(flags, input, k)
      {
        var byte := ByteAt(input, at);
        var j := i * 2;
        var end := if length < i * 2 + 2 then length else i * 2 + 2;
        while j < end
          invariant i * 2 <= j <= end && |highBytes| == j
          invariant byte as int == if j == i * 2 then ByteAt(input, i) as int
                            else if j == i * 2 + 1 then ByteAt(input, i) as int / 16 else ByteAt(input, i) as int / 16 / 16
          invariant forall k :: 0 <= k < |highBytes| ==> highBytes[k] == HighAt(flags, input, k)
        {
          highBytes := highBytes + [byte as int % 16];
          byte := byte as int / 16;
          j := j + 1;
        }
        at := at + 1;
        i := i + 1;
      }
    } else {
      var setBits := ByteAt(input, 0);
      at := 1;
      for i := 0 to length
        invariant |highBytes| == i && forall k :: 0 <= k < i ==> highBytes[k] == setBits
      {
        highBytes := highBytes + [setBits];
      }
    }
  }

  // ----- Decoding gives back the way -----

  /** The upper part that the bytes have room for. */
  ghost function KeptHigh(way: seq<NodeId>, i: nat): nat
    requires i < |way|
  {
    if Uniform(way) then UpperInt(way) else Upper(way[i])
  }

  ghost function Kept(way: seq<NodeId>): (r: seq<nat>)
    ensures |r| == |way|
  {
    seq(|way|, i requires 0 <= i < |way| => KeptHigh(way, i) * 0x8000_0000 + Low(way[i]) as int)
  }

  lemma FlagParts(length: nat, compress: bool, closed: bool, uniform: bool)
    requires length <= 2000
    ensures var f := FlagsOf(length, compress, closed, uniform);
            LengthOf(f) == length && (HasFlag(f, COMPRESSED_WAY) <==> compress) && (HasFlag(f, CLOSED_WAY) <==> closed) &&
            (HasFlag(f, UNIFORM_UPPER_BITS) <==> uniform) && f < 0x1_0000
  {
  }

  /** The flags of an encoded way: how many points are stored, all but the last of a closed
      way, whether it is closed, and whether it is compressed. */
  lemma FlagsTell(ic: IntCodec, way: seq<NodeId>, compress: bool)
    requires Encoded(ic, way, compress).Ok?
    ensures var f := Encoded(ic, way, compress).flags;
            var closed := |way| > 1 && way[0] == way[|way| - 1];
            LengthOf(f) == (if closed then |way| - 1 else |way|) && (HasFlag(f, 0x4000) <==> closed) &&
            (HasFlag(f, 0x8000) <==> compress)
  {
    hide HasFlag, LengthOf, FlagsOf, UpperBytes, LowBytes, UpperFits, Uniform, ScratchHolds;
    FlagParts(|Points(way)|, compress, IsClosed(way), Uniform(way));
    FlagBits();
  }

  lemma HighReads(way: seq<NodeId>, flags: nat, rest: seq<octet>, i: nat)
    requires way != [] && UpperFits(way) && i < |Points(way)|
    requires LengthOf(flags) == |Points(way)| && (HasFlag(flags, UNIFORM_UPPER_BITS) <==> Uniform(way))
    ensures HighAt(flags, UpperBytes(way) + rest, i) as int == KeptHigh(way, i) <= 15
    ensures BodyStart(flags) == |UpperBytes(way)|
  {
    hide HasFlag;
    hide LengthOf;
    hide Upper;
    hide UpperInt;
    hide Uniform;
    hide PackedByte;
    var ps := Points(way);
    if !Uniform(way) {
      assert i / 2 < (|ps| + 1) / 2;
      assert UpperBytes(way)[i / 2] as int == PackedByte(ps, i / 2);
      assert (UpperBytes(way) + rest)[i / 2] == UpperBytes(way)[i / 2];
      Nibble(ps, i);
    }
  }

  lemma Nibble(ps: seq<NodeId>, i: nat)
    requires i < |ps| && forall j :: 0 <= j < |ps| ==> Upper(ps[j]) <= 15
    ensures Upper(ps[i]) as int == if i % 2 == 0 then PackedByte(ps, i / 2) % 16 else PackedByte(ps, i / 2) / 16
  {
    hide Upper;
    var k := i / 2;
    var low: int := Upper(ps[2 * k]) as int;
    assert low <= 15;
    if 2 * k + 1 < |ps| {
      NibbleParts(low, Upper(ps[2 * k + 1]) as int);
    }
  }

  lemma NibbleParts(a: int, b: int)
    requires 0 <= a <= 15 && 0 <= b <= 15
    ensures (a + 16 * b) % 16 == a && (a + 16 * b) / 16 == b
  {
  }

  lemma {:induction false} PlainWord(ps: seq<NodeId>, k: nat, rest: seq<octet>)
    requires k < |ps|
    ensures WordAt(PlainBytes(ps) + rest, 4 * k) == Low(ps[k])
  {
    hide WordAt;
    hide Bytes4;
    hide Low;
    var n := |ps| - 1;
    var front, last := PlainBytes(ps[..n]), Bytes4(Low(ps[n]));
    if k < n {
      PlainWord(ps[..n], k, last + rest);
      assert front + (last + rest) == PlainBytes(ps) + rest;
    } else {
      WordRoundTrip(front, Low(ps[n]), rest);
    }
  }

  lemma LowReads(ic: IntCodec, ps: seq<NodeId>, compress: bool, flags: nat, upper: seq<octet>, rest: seq<octet>, i: nat)
    requires GoodIntCodec(ic) && ps != [] && i < |ps|
    requires LengthOf(flags) == |ps| && (HasFlag(flags, COMPRESSED_WAY) <==> compress) && BodyStart(flags) == |upper|
    ensures LowAt(ic, flags, upper + LowBytes(ic, ps, compress) + rest, i) == Low(ps[i])
  {
    hide HasFlag;
    hide LengthOf;
    hide WordAt;
    hide Bytes4;
    hide Deltas;
    hide Undelta;
    hide GoodIntCodec;
    hide BodyStart;
    hide Low;
    var input := upper + LowBytes(ic, ps, compress) + rest;
    if !compress {
      var body := PlainBytes(ps);
      PlainWord(ps, i, []);
      assert body + [] == body;
      WordInside(upper, body, rest, 4 * i);
    } else {
      var data := Deltas(ic, Lows(ps));
      var size := Bytes2(|data| % 0x1_0000);
      assert input == (upper + size) + Bytes4(Low(ps[0])) + (data + rest);
      WordRoundTrip(upper + size, Low(ps[0]), data + rest);
      assert input == (upper + size + Bytes4(Low(ps[0]))) + (data + rest);
      assert From(input, |upper| + 6) == data + rest;
      DeltasRoundTrip(ic, Lows(ps), rest);
      LowsSigned(ps, i);
    }
  }

  /** The low parts have 31 bits: read as signed words they are themselves. */
  lemma LowsSigned(ps: seq<NodeId>, i: nat)
    requires i < |ps|
    ensures Signed(Low(ps[0])) == Lows(ps)[0] && Unsigned(Lows(ps)[i]) == Low(ps[i])
    ensures forall j :: 0 <= j < |ps| ==> -0x8000_0000 < Lows(ps)[i] - Lows(ps)[j] < 0x8000_0000
  {
  }

  /** Decoding gives back each id with as much of its upper part as was kept, whatever
      follows in memory. */
  lemma DecodedIsKept(ic: IntCodec, way: seq<NodeId>, compress: bool, rest: seq<octet>)
    requires GoodIntCodec(ic) && Encoded(ic, way, compress).Ok?
    ensures var e := Encoded(ic, way, compress);
            1 <= LengthOf(e.flags) <= MAX_NODES && e.flags < 0x1_0000 && Decoded(ic, e.flags, e.output + rest) == Kept(way)
  {
    hide HasFlag;
    hide LengthOf;
    hide HighAt;
    hide LowAt;
    hide LowBytes;
    hide UpperBytes;
    hide FlagsOf;
    hide GoodIntCodec;
    hide Uniform;
    hide UpperFits;
    hide KeptHigh;
    var e := Encoded(ic, way, compress);
    var ps := Points(way);
    FlagParts(|ps|, compress, IsClosed(way), Uniform(way));
    var upper := UpperBytes(way);
    var input := e.output + rest;
    forall i | 0 <= i < |ps|
      ensures Or(HighAt(e.flags, input, i), LowAt(ic, e.flags, input, i)) == Kept(way)[i]
    {
      HighReads(way, e.flags, LowBytes(ic, ps, compress) + rest, i);
      assert upper + (LowBytes(ic, ps, compress) + rest) == input;
      LowReads(ic, ps, compress, e.flags, upper, rest, i);
    }
    LastKept(way);
  }

  lemma LastKept(way: seq<NodeId>)
    ensures IsClosed(way) ==> Kept(way)[|way| - 1] == Kept(way)[0]
  {
  }

  /** A way that could be encoded comes back unchanged if and only if its ids are below
      2^35; and a way of such ids is encoded if and only if its deltas fit in the scratch
      buffer. */
  lemma RoundTrip(ic: IntCodec, way: seq<NodeId>, compress: bool, rest: seq<octet>)
    requires GoodIntCodec(ic)
    ensures way != [] && |way| <= MAX_NODES && (forall i :: 0 <= i < |way| ==> way[i] < 0x8_0000_0000) ==>
              if Fits(way, compress) then Encoded(ic, way, compress).Ok? else Encoded(ic, way, compress) == Overrun
    ensures var e := Encoded(ic, way, compress);
            e.Ok? ==>
              (LengthOf(e.flags) > 0 &&
               (Decoded(ic, e.flags, e.output + rest) == way <==> forall i :: 0 <= i < |way| ==> way[i] < 0x8_0000_0000))
  {
    hide *;
    if way != [] && |way| <= 2000 && (forall i :: 0 <= i < |way| ==> way[i] < 0x8_0000_0000) {
      SmallIdsFit(ic, way, compress);
    }
    if Encoded(ic, way, compress).Ok? {
      DecodedIsKept(ic, way, compress, rest);
      KeptIsWay(ic, way, compress);
    }
    MostNodes();
  }

  lemma MostNodes()
    ensures MAX_NODES == 2000
  {
  }

  lemma SmallIdsFit(ic: IntCodec, way: seq<NodeId>, compress: bool)
    requires GoodIntCodec(ic) && way != [] && |way| <= 2000
    requires forall i :: 0 <= i < |way| ==> way[i] < 0x8_0000_0000
    ensures if Fits(way, compress) then Encoded(ic, way, compress).Ok? else Encoded(ic, way, compress) == Overrun
  {
    ScratchIs(ic, way, compress);
    hide ScratchHolds, Fits, GoodIntCodec;
    hide UpperBytes;
    hide LowBytes;
    hide Uniform;
    forall i | 0 <= i < |way| ensures High(way[i]) <= 15 {
    }
  }

  lemma KeptIsWay(ic: IntCodec, way: seq<NodeId>, compress: bool)
    requires Encoded(ic, way, compress).Ok?
    ensures Kept(way) == way <==> forall i :: 0 <= i < |way| ==> way[i] < 0x8_0000_0000
  {
    hide UpperBytes;
    hide LowBytes;
    forall i | 0 <= i < |way|
      ensures Kept(way)[i] == way[i] <==> way[i] < 0x8_0000_0000
    {
      KeptHighFits(way, i);
      var h := High(way[i]);
      assert way[i] as int == h * 0x8000_0000 + Low(way[i]) as int;
    }
  }

  lemma KeptHighFits(way: seq<NodeId>, i: nat)
    requires i < |way| && UpperFits(way)
    ensures KeptHigh(way, i) <= 15 && (High(way[i]) <= 15 ==> KeptHigh(way, i) == High(way[i]))
  {
    hide High;
    assert way[i] == Points(way)[if i < |Points(way)| then i else 0];
  }

  /** Ids from 2^35 on are cut short without an error: this one decodes to 0. */
  lemma HighIdIsCutShort(ic: IntCodec)
    requires GoodIntCodec(ic)
    ensures var way: seq<NodeId> := [0, 0x80_0000_0000, 0];
            var e := Encoded(ic, way, false);
            e.Ok? && LengthOf(e.flags) > 0 && Decoded(ic, e.flags, e.output) == [0, 0, 0]
  {
    var way: seq<NodeId> := [0, 0x80_0000_0000, 0];
    HighIdFits();
    hide *;
    PlainNeedsNoScratch(ic, Points(way));
    EncodedFits(ic, way, false);
    DecodedIsKept(ic, way, false, []);
    var e := Encoded(ic, way, false);
    assert e.output + [] == e.output;
  }

  lemma EncodedFits(ic: IntCodec, way: seq<NodeId>, compress: bool)
    requires way != [] && |way| <= 2000 && UpperFits(way) && ScratchHolds(ic, Points(way), compress)
    ensures Encoded(ic, way, compress).Ok?
  {
    hide UpperBytes;
    hide LowBytes;
    hide UpperFits;
  }

  lemma PlainNeedsNoScratch(ic: IntCodec, ps: seq<NodeId>)
    requires ps != []
    ensures ScratchHolds(ic, ps, false)
  {
  }

  lemma HighIdFits()
    ensures var way: seq<NodeId> := [0, 0x80_0000_0000, 0]; UpperFits(way) && Kept(way) == [0, 0, 0]
  {
    var way: seq<NodeId> := [0, 0x80_0000_0000, 0];
    assert High(way[1]) == 256;
  }
}
