/** Variable-length integers: seven bits a byte, least significant first, the high
    bit set on every byte but the last. */
module Varint {

  const TWO_64: int := 0x1_0000_0000_0000_0000

  type byte = b: int | 0 <= b < 256
  type uint64 = v: int | 0 <= v < 0x1_0000_0000_0000_0000
  type uint32 = v: int | 0 <= v < 0x1_0000_0000

  datatype Decode = Value(value: uint64, used: nat) | EndOfBuffer | TooLong

  const MAX_VARINT_LENGTH: nat := 64 / 7 + 1

  function Low7(b: byte): int {
    b as int % 0x80
  }

  function Low1(b: byte): int {
    b as int % 2
  }

  function Encoding(v: nat): (s: seq<byte>)
    ensures 1 <= |s|
  {
    if v < 0x80 then [v] else [v % 0x80 + 0x80] + Encoding(v / 0x80)
  }

  /** The number the low seven bits of the bytes spell. */
  ghost function Groups(s: seq<byte>): nat {
    if s == [] then 0 else Low7(s[0]) + 0x80 * Groups(s[1..])
  }

  /** Index of the first byte without the continuation bit, or the length. */
  ghost function Terminator(s: seq<byte>): (n: nat)
    ensures n <= |s|
    ensures n < |s| ==> s[n] < 0x80
    ensures forall i :: 0 <= i < n ==> s[i] >= 0x80
  {
    if s == [] || s[0] < 0x80 then 0 else 1 + Terminator(s[1..])
  }

  /** What decode_varint makes of the bytes ahead. A buffer of ten bytes or more is
      read by the unrolled path, which gives up after ten bytes and keeps only the
      lowest bit of the tenth; a shorter one by the loop, which may run off the end. */
  ghost function Decoded(s: seq<byte>): (d: Decode)
    ensures d.Value? ==> 1 <= d.used <= |s|
  {
    var n := Terminator(s);
    if |s| >= MAX_VARINT_LENGTH then
      if n >= MAX_VARINT_LENGTH then TooLong
      else if n == 9 then
        GroupsBound(s[..9]);
        Value(Groups(s[..9]) + Low1(s[9]) * 0x8000_0000_0000_0000, 10)
      else
        GroupsBound(s[..n + 1]);
        Value(Groups(s[..n + 1]), n + 1)
    else if n == |s| then EndOfBuffer
    else
      GroupsBound(s[..n + 1]);
      Value(Groups(s[..n + 1]), n + 1)
  }

  ghost function Pow128(k: nat): (r: nat)
    ensures 1 <= r
  {
    if k == 0 then 1 else 0x80 * Pow128(k - 1)
  }

  lemma {:induction false} GroupsBelowPower(s: seq<byte>)
    ensures Groups(s) < Pow128(|s|)
  {
    if s != [] {
      GroupsBelowPower(s[1..]);
    }
  }

  lemma GroupsBound(s: seq<byte>)
    requires |s| <= 9
    ensures Groups(s) < 0x8000_0000_0000_0000
  {
    GroupsBelowPower(s);
    Pow128Of9(|s|);
  }

  lemma Pow128Of9(k: nat)
    requires k <= 9
    ensures Pow128(k) <= 0x8000_0000_0000_0000
  {
    assert Pow128(3) == 0x20_0000;
    assert Pow128(6) == 0x400_0000_0000;
    assert Pow128(9) == 0x8000_0000_0000_0000;
  }

  lemma {:induction false} GroupsAppend(s: seq<byte>, b: byte)
    ensures Groups(s + [b]) == Groups(s) + Low7(b) * Pow128(|s|)
  {
    if s == [] {
      assert s + [b] == [b];
      assert Groups([b][1..]) == 0;
    } else {
      assert (s + [b])[1..] == s[1..] + [b];
      GroupsAppend(s[1..], b);
      var p := Pow128(|s[1..]|);
      assert 0x80 * (Low7(b) * p) == Low7(b) * (0x80 * p);
    }
  }

  // ----- Writing -----

  method WriteVarint(data: seq<byte>, value0: uint64) returns (out: seq<byte>, n: nat)
    ensures out == data + Encoding(value0)
    ensures n == |Encoding(value0)|
  {
    n := 1;
    var value := value0;
    out := data;
    while value >= 0x80
      invariant 0 <= value <= value0
      invariant out + Encoding(value) == data + Encoding(value0)
      invariant n - 1 + |Encoding(value)| == |Encoding(value0)|
      decreases value
    {
      assert out + Encoding(value) == out + [value % 0x80 + 0x80] + Encoding(value / 0x80);
      out := out + [value % 0x80 + 0x80];
      value := value / 0x80;
      n := n + 1;
    }
    out := out + [value];
  }

  // ----- Reading -----

  method DecodeVarint(s: seq<byte>) returns (r: Decode)
    ensures r == Decoded(s)
  {
    if |s| != 0 && s[0] < 0x80 {
      assert s[..1] == [s[0]];
      assert Groups([s[0]][1..]) == 0;
      GroupsAppend([], s[0]);
      return Value(s[0], 1);
    }
    r := DecodeVarintImpl(s);
  }

  method DecodeVarintImpl(s: seq<byte>) returns (r: Decode)
    ensures r == Decoded(s)
  {
    if |s| >= MAX_VARINT_LENGTH {
      r := DecodeFast(s);
    } else {
      r := DecodeSlow(s);
    }
  }

  /** val is what the bytes before p spell, and none of them ended the number. */
  ghost predicate Reading(s: seq<byte>, p: nat, val: int) {
    p <= |s| && val == Groups(s[..p]) && forall i :: 0 <= i < p ==> s[i] >= 0x80
  }

  lemma ReadOne(s: seq<byte>, p: nat, val: int, weight: int)
    requires p < |s| && Reading(s, p, val) && weight == Pow128(p)
    ensures val + Low7(s[p]) * weight == Groups(s[..p + 1])
    ensures s[p] >= 0x80 ==> Reading(s, p + 1, Groups(s[..p + 1])) && p + 1 <= Terminator(s)
    ensures s[p] < 0x80 ==> Terminator(s) == p
  {
    assert s[..p + 1] == s[..p] + [s[p]];
    GroupsAppend(s[..p], s[p]);
  }

  method DecodeFast(s: seq<byte>) returns (r: Decode)
    requires |s| >= MAX_VARINT_LENGTH
    ensures r == Decoded(s)
  {
    hide Groups, Terminator, Reading, Pow128, Low7;
    ReadingNothing(s);
    PowersOf128();
    var p: nat, val: int, b: byte := 0, 0, 0;
    label fast: {
      b := s[0]; ReadOne(s, 0, val, 1); val := Low7(b); p := 1;
      if b < 0x80 { break fast; }
      b := s[1]; ReadOne(s, 1, val, 0x80); val := val + Low7(b) * 0x80; p := 2;
      if b < 0x80 { break fast; }
      b := s[2]; ReadOne(s, 2, val, 0x4000); val := val + Low7(b) * 0x4000; p := 3;
      if b < 0x80 { break fast; }
      b := s[3]; ReadOne(s, 3, val, 0x20_0000); val := val + Low7(b) * 0x20_0000; p := 4;
      if b < 0x80 { break fast; }
      b := s[4]; ReadOne(s, 4, val, 0x1000_0000); val := val + Low7(b) * 0x1000_0000; p := 5;
      if b < 0x80 { break fast; }
      b := s[5]; ReadOne(s, 5, val, 0x8_0000_0000); val := val + Low7(b) * 0x8_0000_0000; p := 6;
      if b < 0x80 { break fast; }
      b := s[6]; ReadOne(s, 6, val, 0x400_0000_0000); val := val + Low7(b) * 0x400_0000_0000; p := 7;
      if b < 0x80 { break fast; }
      b := s[7]; ReadOne(s, 7, val, 0x2_0000_0000_0000); val := val + Low7(b) * 0x2_0000_0000_0000; p := 8;
      if b < 0x80 { break fast; }
      b := s[8]; ReadOne(s, 8, val, 0x100_0000_0000_0000); val := val + Low7(b) * 0x100_0000_0000_0000; p := 9;
      if b < 0x80 { break fast; }
      GroupsBound(s[..9]);
      b := s[9]; ReadOne(s, 9, val, 0x8000_0000_0000_0000); val := val + Low1(b) * 0x8000_0000_0000_0000; p := 10;
      if b < 0x80 { break fast; }
      return TooLong;
    }
    if p <= 9 {
      GroupsBound(s[..p]);
    }
    r := Value(val, p);
  }

  lemma ReadingNothing(s: seq<byte>)
    ensures Reading(s, 0, 0)
  {
  }

  lemma PowersOf128()
    ensures Pow128(0) == 1 && Pow128(1) == 0x80 && Pow128(2) == 0x4000 && Pow128(3) == 0x20_0000
    ensures Pow128(4) == 0x1000_0000 && Pow128(5) == 0x8_0000_0000 && Pow128(6) == 0x400_0000_0000
    ensures Pow128(7) == 0x2_0000_0000_0000 && Pow128(8) == 0x100_0000_0000_0000
    ensures Pow128(9) == 0x8000_0000_0000_0000
  {
  }

  method DecodeSlow(s: seq<byte>) returns (r: Decode)
    requires |s| < MAX_VARINT_LENGTH
    ensures r == Decoded(s)
  {
    hide Groups;
    hide Terminator;
    var p: nat, val: int, weight: int := 0, 0, 1;
    ReadingNothing(s);
    while p != |s| && s[p] >= 0x80
      invariant 0 <= p <= |s| && weight == Pow128(p)
      invariant Reading(s, p, val)
      decreases |s| - p
    {
      ReadOne(s, p, val, weight);
      val := val + Low7(s[p]) * weight;
      weight := weight * 0x80;
      p := p + 1;
    }
    if p == |s| {
      assert Terminator(s) == |s|;
      return EndOfBuffer;
    }
    ReadOne(s, p, val, weight);
    GroupsBound(s[..p + 1]);
    val := val + s[p] as int * weight;
    p := p + 1;
    r := Value(val, p);
  }

  // ----- Round trip -----

  lemma {:induction false} GroupsOfEncoding(v: nat, rest: seq<byte>)
    ensures Groups(Encoding(v)) == v
    ensures Terminator(Encoding(v) + rest) == |Encoding(v)| - 1
  {
    var s := Encoding(v);
    if v < 0x80 {
      assert Groups(s[1..]) == 0;
    } else {
      GroupsOfEncoding(v / 0x80, rest);
      assert s[1..] == Encoding(v / 0x80);
      assert (s + rest)[1..] == Encoding(v / 0x80) + rest;
    }
  }

  lemma {:induction false} EncodingLength(v: nat, k: nat)
    requires 0 < k && v < Pow128(k)
    ensures |Encoding(v)| <= k
  {
    if k == 1 || v < 0x80 {
    } else {
      EncodingLength(v / 0x80, k - 1);
    }
  }

  /** Whatever follows it in the buffer, and whichever path reads it. */
  lemma DecodedOfEncoding(v: uint64, rest: seq<byte>)
    ensures Decoded(Encoding(v) + rest) == Value(v, |Encoding(v)|)
  {
    hide Encoding;
    hide Groups;
    hide Terminator;
    hide Pow128;
    var e := Encoding(v);
    var s := e + rest;
    var n := |e| - 1;
    GroupsOfEncoding(v, rest);
    Encoding64(v);
    assert s[..n + 1] == e;
    if n == 9 {
      LastByteSmall(v);
      assert e == e[..9] + [e[9]];
      assert s[..9] == e[..9];
      GroupsAppend(e[..9], e[9]);
      TopPowers();
    }
  }

  lemma TopPowers()
    ensures Pow128(9) == 0x8000_0000_0000_0000
    ensures Pow128(10) == 0x40_0000_0000_0000_0000
  {
    PowersOf128();
    assert Pow128(10) == 0x80 * Pow128(9) && Pow128(9) == 0x80 * Pow128(8);
  }

  lemma Encoding64(v: uint64)
    ensures |Encoding(v)| <= 10
  {
    hide Encoding;
    TopPowers();
    EncodingLength(v, 10);
  }

  /** The tenth byte of a 64-bit number holds one bit. */
  lemma LastByteSmall(v: uint64)
    requires |Encoding(v)| == 10
    ensures Encoding(v)[9] < 2
  {
    hide Groups;
    hide Terminator;
    hide Pow128;
    hide Encoding;
    TopPowers();
    LastByteWeighs(v);
    var b := Encoding(v)[9] as int;
    assert v < 2 * 0x8000_0000_0000_0000;
  }

  lemma {:induction false} LastByteWeighs(v: nat)
    ensures v >= Encoding(v)[|Encoding(v)| - 1] as int * Pow128(|Encoding(v)| - 1)
  {
    var n := |Encoding(v)| - 1;
    if v >= 0x80 {
      var rest := Encoding(v / 0x80);
      LastByteWeighs(v / 0x80);
      var b := rest[|rest| - 1] as int;
      assert Encoding(v)[n] as int == b;
      var p := Pow128(n - 1);
      assert 0x80 * (b * p) == b * (0x80 * p);
    }
  }
}
