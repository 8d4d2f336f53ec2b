/** Stream VByte, one value at a time: for each value two bits of a control byte tell its
    length, and after the control bytes come the values' bytes. With zigzag delta coding
    it is an integer compression such as the stores rely on. */
module StreamVByte {
  import opened Arithmetic
  import opened Coordinates
  import opened BitMask
  import opened Memory
  import opened IntCodec

  // ----- The format -----

  function Code(w: word): (c: nat)
    ensures c < 4
  {
    Width(w) - 1
  }

  function DataOf(w: word): (b: seq<octet>)
    ensures |b| == Width(w)
  {
    Bytes4(w)[..Width(w)]
  }

  function AllData(ws: seq<word>): (r: seq<seq<octet>>)
    ensures |r| == |ws|
  {
    seq(|ws|, i requires 0 <= i < |ws| => DataOf(ws[i]))
  }

  function CodeOf(ws: seq<word>, i: nat): (c: nat)
    ensures c < 4
  {
    if i < |ws| then Code(ws[i]) else 0
  }

  /** The codes of four values, the first lowest. */
  function KeyByte(ws: seq<word>, q: nat): octet {
    CodeOf(ws, 4 * q) + 4 * CodeOf(ws, 4 * q + 1) + 16 * CodeOf(ws, 4 * q + 2) + 64 * CodeOf(ws, 4 * q + 3)
  }

  function Keys(ws: seq<word>): (r: seq<octet>)
    ensures |r| == (|ws| + 3) / 4
  {
    seq((|ws| + 3) / 4, q requires 0 <= q < (|ws| + 3) / 4 => KeyByte(ws, q))
  }

  function Encoded(ws: seq<word>): seq<octet> {
    Keys(ws) + Concat(AllData(ws))
  }

  // ----- Encoding -----

  method EncodeData(val: word) returns (bytes: seq<octet>, code: nat)
    ensures bytes == DataOf(val) && code == Code(val)
  {
    if val < 0x100 {
      bytes, code := Bytes4(val)[..1], 0;
    } else if val < 0x1_0000 {
      bytes, code := Bytes4(val)[..2], 1;
    } else if val < 0x100_0000 {
      bytes, code := Bytes4(val)[..3], 2;
    } else {
      bytes, code := Bytes4(val), 3;
    }
  }

  /** Control bytes and data are written side by side. */
  method Encode(values: seq<word>) returns (out: seq<octet>)
    ensures out == Encoded(values)
    ensures forall rest :: Decoded(out + rest, |values|) == values
    ensures forall bytes :: Decoded(bytes, |values|) == values ==> |out| <= DataStart(bytes, |values|, |values|)
  {
    hide *;
    var keys: seq<octet>, data: seq<octet> := [], [];
    var shift, key: int := 0, 0;
    NothingWritten(values);
    ShiftIs(0);
    for c := 0 to |values|
      invariant data == Concat(AllData(values)[..c])
      invariant 0 <= key < 256 && shift == Shift(c) && (c == 0 ==> key == 0)
      invariant keys + (if c == 0 then [] else [key]) == Keys(values[..c])
    {
      ShiftIs(c);
      KeyGrows(values, c);
      DataGrows(values, c);
      if shift == 8 {
        shift := 0;
        keys := keys + [key];
        key := 0;
      }
      var bytes, code := EncodeData(values[c]);
      data := data + bytes;
      key := key + code * FourTo(shift / 2);
      shift := shift + 2;
    }
    EverythingWritten(values);
    out := keys + (if |values| == 0 then [] else [key]) + data;
    forall rest ensures Decoded(out + rest, |values|) == values {
      DecodedOfEncoded(values, rest);
    }
    forall bytes | Decoded(bytes, |values|) == values ensures |out| <= DataStart(bytes, |values|, |values|) {
      EncodedIsShortest(values, bytes);
    }
  }

  /** The shift in the control byte before the c-th value. */
  ghost function Shift(c: nat): nat {
    if c == 0 then 0 else 2 * ((c - 1) % 4) + 2
  }

  lemma ShiftIs(c: nat)
    ensures Shift(0) == 0 && (c % 4 == 0 && 0 < c ==> Shift(c) == 8) && (c % 4 != 0 ==> Shift(c) == 2 * (c % 4))
    ensures Shift(c + 1) == 2 * (c % 4) + 2
    ensures FourTo(0) == 1
  {
  }

  /** 1 << (2 * k). */
  function FourTo(k: int): int {
    if k == 0 then 1 else if k == 1 then 4 else if k == 2 then 16 else 64
  }

  lemma NothingWritten(values: seq<word>)
    ensures Keys(values[..0]) == [] && Concat(AllData(values)[..0]) == []
  {
  }

  lemma EverythingWritten(values: seq<word>)
    ensures Keys(values[..|values|]) + Concat(AllData(values)[..|values|]) == Encoded(values)
    ensures [] + Keys([]) == []
  {
    assert values[..|values|] == values && AllData(values)[..|values|] == AllData(values);
  }

  lemma DataGrows(values: seq<word>, c: nat)
    requires c < |values|
    ensures Concat(AllData(values)[..c + 1]) == Concat(AllData(values)[..c]) + DataOf(values[c])
  {
    hide DataOf;
    assert AllData(values)[..c + 1][..c] == AllData(values)[..c];
  }

  /** A value's code goes into a new control byte, or above the others in the last one. */
  lemma KeyGrows(values: seq<word>, c: nat)
    requires c < |values|
    ensures var before, code := Keys(values[..c]), Code(values[c]);
            code < 4 && |before| == (c + 3) / 4 &&
            if c % 4 == 0 then Keys(values[..c + 1]) == before + [code]
            else 0 < |before| && 0 <= code * FourTo(c % 4) && before[|before| - 1] as int + code * FourTo(c % 4) < 256 &&
                 Keys(values[..c + 1]) == before[..|before| - 1] + [before[|before| - 1] as int + code * FourTo(c % 4)]
  {
    hide Code;
    var before, now := Keys(values[..c]), Keys(values[..c + 1]);
    forall q | 0 <= q < c / 4 ensures now[q] == before[q] {
    }
  }

  // ----- Decoding -----

  /** (key >> (2 * k)) AND 3. */
  function CodeIn(key: octet, k: int): (c: nat)
    ensures c < 4
  {
    key as int / FourTo(k) % 4
  }

  function CodeAt(bytes: seq<octet>, k: nat): (c: nat)
    ensures c < 4
  {
    CodeIn(ByteAt(bytes, k / 4), k % 4)
  }

  /** Where the k-th of n values' bytes begin. */
  function DataStart(bytes: seq<octet>, n: nat, k: nat): nat {
    if k == 0 then (n + 3) / 4 else DataStart(bytes, n, k - 1) + CodeAt(bytes, k - 1) + 1
  }

  function ValueAt(bytes: seq<octet>, at: nat, code: nat): word {
    ByteAt(bytes, at) as int + (if code >= 1 then 0x100 * ByteAt(bytes, at + 1) as int else 0)
    + (if code >= 2 then 0x1_0000 * ByteAt(bytes, at + 2) as int else 0)
    + if code >= 3 then 0x100_0000 * ByteAt(bytes, at + 3) as int else 0
  }

  function Decoded(bytes: seq<octet>, n: nat): (r: seq<word>)
    ensures |r| == n
  {
    seq(n, k requires 0 <= k < n => ValueAt(bytes, DataStart(bytes, n, k), CodeAt(bytes, k)))
  }

  method DecodeData(bytes: seq<octet>, at: nat, code: nat) returns (val: word, next: nat)
    requires code < 4
    ensures val == ValueAt(bytes, at, code) && next == at + code + 1
  {
    if code == 0 {
      val, next := ByteAt(bytes, at), at + 1;
    } else if code == 1 {
      val, next := ByteAt(bytes, at) as int + 0x100 * ByteAt(bytes, at + 1) as int, at + 2;
    } else if code == 2 {
      val := ByteAt(bytes, at) as int + 0x100 * ByteAt(bytes, at + 1) as int + 0x1_0000 * ByteAt(bytes, at + 2) as int;
      next := at + 3;
    } else {
      val := ByteAt(bytes, at) as int + 0x100 * ByteAt(bytes, at + 1) as int + 0x1_0000 * ByteAt(bytes, at + 2) as int
        + 0x100_0000 * ByteAt(bytes, at + 3) as int;
      next := at + 4;
    }
  }

  /** Every fourth value needs another control byte. */
  method NextKey(bytes: seq<octet>, shift0: nat, key0: octet, keyPtr0: nat, ghost c: nat) returns (shift: nat, key: octet, keyPtr: nat)
    requires shift0 == Shift(c) && keyPtr0 == KeysRead(c) && 0 < keyPtr0 && key0 == ByteAt(bytes, keyPtr0 - 1)
    ensures shift / 2 == c % 4 && shift + 2 == Shift(c + 1)
    ensures keyPtr == KeysRead(c + 1) && 0 < keyPtr && key == ByteAt(bytes, keyPtr - 1) == ByteAt(bytes, c / 4)
  {
    hide *;
    ShiftIs(c);
    KeysReadIs(c);
    shift, key, keyPtr := shift0, key0, keyPtr0;
    if shift == 8 {
      shift := 0;
      key := ByteAt(bytes, keyPtr);
      keyPtr := keyPtr + 1;
    }
  }

  /** Reads past the end, which the program leaves undefined, give zeros. */
  method Decode(bytes: seq<octet>, n: nat) returns (out: seq<word>)
    ensures out == Decoded(bytes, n)
  {
    out := [];
    if n == 0 {
      return;
    }
    hide *;
    NothingRead(bytes, n);
    var at, shift, keyPtr := (n + 3) / 4, 0, 0;
    var key := ByteAt(bytes, keyPtr);
    keyPtr := keyPtr + 1;
    for c := 0 to n
      invariant at == DataStart(bytes, n, c) && out == ReadSoFar(bytes, n, c)
      invariant shift == Shift(c) && keyPtr == KeysRead(c) && 0 < keyPtr && key == ByteAt(bytes, keyPtr - 1)
    {
      shift, key, keyPtr := NextKey(bytes, shift, key, keyPtr, c);
      OneMoreRead(bytes, n, c);
      var val;
      val, at := DecodeData(bytes, at, CodeIn(key, shift / 2));
      out := out + [val];
      shift := shift + 2;
    }
    AllRead(bytes, n);
  }

  ghost function ReadSoFar(bytes: seq<octet>, n: nat, c: nat): seq<word>
    requires c <= n
  {
    Decoded(bytes, n)[..c]
  }

  /** Control bytes read before the c-th value. */
  ghost function KeysRead(c: nat): nat {
    if c == 0 then 1 else (c + 3) / 4
  }

  lemma KeysReadIs(c: nat)
    ensures KeysRead(0) == 1 && KeysRead(c + 1) == c / 4 + 1
    ensures KeysRead(c) == if c % 4 == 0 && 0 < c then c / 4 else c / 4 + 1
  {
  }

  lemma AllRead(bytes: seq<octet>, n: nat)
    ensures ReadSoFar(bytes, n, n) == Decoded(bytes, n)
  {
  }

  lemma NothingRead(bytes: seq<octet>, n: nat)
    ensures DataStart(bytes, n, 0) == (n + 3) / 4 && ReadSoFar(bytes, n, 0) == []
    ensures n == 0 ==> Decoded(bytes, n) == []
    ensures Shift(0) == 0 && KeysRead(0) == 1
  {
  }

  lemma OneMoreRead(bytes: seq<octet>, n: nat, c: nat)
    requires c < n
    ensures var code := CodeAt(bytes, c);
            code == CodeIn(ByteAt(bytes, c / 4), c % 4) && DataStart(bytes, n, c + 1) == DataStart(bytes, n, c) + code + 1 &&
            ReadSoFar(bytes, n, c + 1) == ReadSoFar(bytes, n, c) + [ValueAt(bytes, DataStart(bytes, n, c), code)]
  {
    hide ByteAt, ValueAt, CodeIn;
  }

  // ----- Decoding gives back the values -----

  lemma EncodedLength(ws: seq<word>)
    ensures |Encoded(ws)| == (|ws| + 3) / 4 + Widths(ws)
  {
    DataLength(ws, |ws|);
    assert ws[..|ws|] == ws && AllData(ws)[..|ws|] == AllData(ws);
  }

  lemma {:induction false} DataLength(ws: seq<word>, k: nat)
    requires k <= |ws|
    ensures |Concat(AllData(ws)[..k])| == Widths(ws[..k])
  {
    hide Width, DataOf;
    if k > 0 {
      DataLength(ws, k - 1);
      DataGrows(ws, k - 1);
      assert ws[..k][..k - 1] == ws[..k - 1];
    }
  }

  lemma CodeReads(ws: seq<word>, rest: seq<octet>, k: nat)
    requires k < |ws|
    ensures CodeAt(Encoded(ws) + rest, k) == Code(ws[k])
  {
    hide *;
    var q := k / 4;
    KeyStands(ws, rest, q);
    FourCodes(ws, q, k % 4);
    CodeAtIs(Encoded(ws) + rest, k);
    CodeOfIs(ws, k);
  }

  lemma KeyStands(ws: seq<word>, rest: seq<octet>, q: nat)
    requires 4 * q < |ws|
    ensures ByteAt(Encoded(ws) + rest, q) == KeyByte(ws, q)
  {
    hide KeyByte;
    assert (Encoded(ws) + rest)[q] == Keys(ws)[q];
  }

  lemma FourCodes(ws: seq<word>, q: nat, j: nat)
    requires j < 4
    ensures CodeIn(KeyByte(ws, q), j) == CodeOf(ws, 4 * q + j)
  {
    var a, b, c, d := CodeOf(ws, 4 * q), CodeOf(ws, 4 * q + 1), CodeOf(ws, 4 * q + 2), CodeOf(ws, 4 * q + 3);
    hide CodeOf;
    FourDigits(a, b, c, d);
  }

  lemma FourDigits(a: nat, b: nat, c: nat, d: nat)
    requires a < 4 && b < 4 && c < 4 && d < 4
    ensures var key := a + 4 * b + 16 * c + 64 * d;
            key % 4 == a && key / 4 % 4 == b && key / 16 % 4 == c && key / 64 % 4 == d
  {
    DivModUnique(a + 4 * b + 16 * c + 64 * d, 4, b + 4 * c + 16 * d, a);
    DivModUnique(a + 4 * b + 16 * c + 64 * d, 16, c + 4 * d, a + 4 * b);
    DivModUnique(a + 4 * b + 16 * c + 64 * d, 64, d, a + 4 * b + 16 * c);
    DivModUnique(b + 4 * c + 16 * d, 4, c + 4 * d, b);
    DivModUnique(c + 4 * d, 4, d, c);
  }

  lemma CodeAtIs(bytes: seq<octet>, k: nat)
    ensures CodeAt(bytes, k) == CodeIn(ByteAt(bytes, k / 4), k % 4)
  {
    hide CodeIn, ByteAt;
  }

  lemma CodeOfIs(ws: seq<word>, k: nat)
    requires k < |ws|
    ensures CodeOf(ws, 4 * (k / 4) + k % 4) == Code(ws[k])
  {
    hide Code;
  }

  lemma {:induction false} StartIs(ws: seq<word>, rest: seq<octet>, k: nat)
    requires k <= |ws|
    ensures DataStart(Encoded(ws) + rest, |ws|, k) == (|ws| + 3) / 4 + |Concat(AllData(ws)[..k])|
  {
    hide CodeAt, DataOf, Encoded;
    if k > 0 {
      StartIs(ws, rest, k - 1);
      CodeReads(ws, rest, k - 1);
      DataGrows(ws, k - 1);
    }
  }

  lemma ValueReads(ws: seq<word>, rest: seq<octet>, k: nat)
    requires k < |ws|
    ensures ValueAt(Encoded(ws) + rest, (|ws| + 3) / 4 + |Concat(AllData(ws)[..k])|, Code(ws[k])) == ws[k]
  {
    hide *;
    var m := Encoded(ws) + rest;
    AllDataAt(ws, k);
    ConcatHolds(AllData(ws), k);
    BehindKeys(ws, rest, |Concat(AllData(ws)[..k])|, DataOf(ws[k]));
    DataReads(m, (|ws| + 3) / 4 + |Concat(AllData(ws)[..k])|, ws[k]);
  }

  lemma AllDataAt(ws: seq<word>, k: nat)
    requires k < |ws|
    ensures |AllData(ws)| == |ws| && AllData(ws)[k] == DataOf(ws[k])
  {
  }

  lemma BehindKeys(ws: seq<word>, rest: seq<octet>, at: nat, s: seq<octet>)
    requires HoldsAt(Concat(AllData(ws)), at, s)
    ensures HoldsAt(Encoded(ws) + rest, (|ws| + 3) / 4 + at, s)
  {
    var data := Concat(AllData(ws));
    var all := Keys(ws) + data;
    assert all[|Keys(ws)| + at..|Keys(ws)| + at + |s|] == data[at..at + |s|];
    HeldLonger(all, |Keys(ws)| + at, s, rest);
  }

  lemma DataReads(m: seq<octet>, at: nat, w: word)
    requires HoldsAt(m, at, DataOf(w))
    ensures ValueAt(m, at, Code(w)) == w
  {
    DataBytes(m, at, w);
    WordDigits(w);
    SmallDigits(w);
  }

  lemma DataBytes(m: seq<octet>, at: nat, w: word)
    requires HoldsAt(m, at, DataOf(w))
    ensures ByteAt(m, at) == Bytes4(w)[0]
    ensures Width(w) > 1 ==> ByteAt(m, at + 1) == Bytes4(w)[1]
    ensures Width(w) > 2 ==> ByteAt(m, at + 2) == Bytes4(w)[2]
    ensures Width(w) > 3 ==> ByteAt(m, at + 3) == Bytes4(w)[3]
  {
    hide Bytes4;
    var s := m[at..at + Width(w)];
    assert s == Bytes4(w)[..Width(w)];
    assert s[0] == m[at];
    assert Width(w) > 1 ==> s[1] == m[at + 1];
    assert Width(w) > 2 ==> s[2] == m[at + 2];
    assert Width(w) > 3 ==> s[3] == m[at + 3];
  }

  /** The bytes that are not written are zeros. */
  lemma SmallDigits(w: word)
    ensures w < 0x100_0000 ==> w as int / 0x100_0000 == 0
    ensures w < 0x1_0000 ==> w as int / 0x1_0000 % 256 == 0
    ensures w < 0x100 ==> w as int / 0x100 % 256 == 0
  {
  }

  lemma DecodedOfEncoded(ws: seq<word>, rest: seq<octet>)
    ensures Decoded(Encoded(ws) + rest, |ws|) == ws
  {
    hide Encoded, ValueAt, DataStart, CodeAt, Code, AllData;
    forall k | 0 <= k < |ws| ensures Decoded(Encoded(ws) + rest, |ws|)[k] == ws[k] {
      CodeReads(ws, rest, k);
      StartIs(ws, rest, k);
      ValueReads(ws, rest, k);
    }
  }

  // ----- No encoding is shorter -----

  /** Bytes from which the values can be read: as many are read as were written, or more. */
  lemma EncodedIsShortest(ws: seq<word>, bytes: seq<octet>)
    requires Decoded(bytes, |ws|) == ws
    ensures |Encoded(ws)| <= DataStart(bytes, |ws|, |ws|)
  {
    hide Encoded, Widths, DataStart, Decoded;
    EncodedLength(ws);
    ReadsNoLess(ws, bytes, |ws|);
    assert ws[..|ws|] == ws;
  }

  lemma {:induction false} ReadsNoLess(ws: seq<word>, bytes: seq<octet>, k: nat)
    requires Decoded(bytes, |ws|) == ws && k <= |ws|
    ensures (|ws| + 3) / 4 + Widths(ws[..k]) <= DataStart(bytes, |ws|, k)
  {
    hide Width, CodeAt, ValueAt, Decoded;
    if k > 0 {
      ReadsNoLess(ws, bytes, k - 1);
      assert ws[..k][..k - 1] == ws[..k - 1];
      DecodedAt(ws, bytes, k - 1);
      ValueIsSmall(bytes, DataStart(bytes, |ws|, k - 1), CodeAt(bytes, k - 1));
    }
  }

  lemma DecodedAt(ws: seq<word>, bytes: seq<octet>, k: nat)
    requires Decoded(bytes, |ws|) == ws && k < |ws|
    ensures ws[k] == ValueAt(bytes, DataStart(bytes, |ws|, k), CodeAt(bytes, k))
  {
    hide ValueAt, DataStart, CodeAt;
    assert Decoded(bytes, |ws|)[k] == ws[k];
  }

  lemma ValueIsSmall(bytes: seq<octet>, at: nat, code: nat)
    requires code < 4
    ensures Width(ValueAt(bytes, at, code)) <= code + 1
  {
    hide ByteAt;
  }

  /** Values below 256 are their own bytes. */
  lemma SmallValues(ws: seq<word>)
    requires forall i :: 0 <= i < |ws| ==> ws[i] < 0x100
    ensures Encoded(ws) == seq((|ws| + 3) / 4, _ => 0) + seq(|ws|, i requires 0 <= i < |ws| => ws[i] as int)
  {
    hide Concat;
    OneByteEach(ws, |ws|);
    assert AllData(ws)[..|ws|] == AllData(ws);
    assert Keys(ws) == seq((|ws| + 3) / 4, _ => 0);
  }

  /** Four values of one to four bytes: their codes 0, 1, 2 and 3 from the lowest bits of the
      control byte up, and each value's lowest byte first. */
  lemma FourValues(a: octet, b: octet, c: octet, d: octet)
    requires b > 0 && c > 0 && d > 0
    ensures Encoded([a as word, a as int + 0x100 * b as int, a as int + 0x100 * b as int + 0x1_0000 * c as int,
                     a as int + 0x100 * b as int + 0x1_0000 * c as int + 0x100_0000 * d as int]) ==
      [0 + 4 * 1 + 16 * 2 + 64 * 3, a, a, b, a, b, c, a, b, c, d]
  {
    var w1: word, w2: word := a as int, a as int + 0x100 * b as int;
    var w3: word, w4: word := a as int + 0x100 * b as int + 0x1_0000 * c as int,
                              a as int + 0x100 * b as int + 0x1_0000 * c as int + 0x100_0000 * d as int;
    var ws := [w1, w2, w3, w4];
    Digits(w1, a, 0, 0, 0);
    Digits(w2, a, b, 0, 0);
    Digits(w3, a, b, c, 0);
    Digits(w4, a, b, c, d);
    hide Bytes4;
    assert AllData(ws)[..0] == [];
    DataGrows(ws, 0);
    DataGrows(ws, 1);
    DataGrows(ws, 2);
    DataGrows(ws, 3);
    assert AllData(ws)[..4] == AllData(ws);
    FourKeys(ws);
    hide Keys, AllData;
  }

  lemma FourKeys(ws: seq<word>)
    requires |ws| == 4
    ensures Keys(ws) == [Code(ws[0]) + 4 * Code(ws[1]) + 16 * Code(ws[2]) + 64 * Code(ws[3])]
  {
    hide Code;
    assert Keys(ws) == [KeyByte(ws, 0)];
  }

  lemma Digits(w: word, a: octet, b: octet, c: octet, d: octet)
    requires w as int == a as int + 0x100 * b as int + 0x1_0000 * c as int + 0x100_0000 * d as int
    ensures Bytes4(w) == [a, b, c, d]
  {
    var x: int, y: int, z: int, u: int := a as int, b as int, c as int, d as int;
    var q1, q2 := y + 0x100 * z + 0x1_0000 * u, z + 0x100 * u;
    DivModUnique(w as int, 0x100, q1, x);
    DivModUnique(w as int, 0x1_0000, q2, x + 0x100 * y);
    DivModUnique(w as int, 0x100_0000, u, x + 0x100 * y + 0x1_0000 * z);
    DivModUnique(q1, 0x100, q2, y);
    DivModUnique(q2, 0x100, u, z);
  }

  lemma {:induction false} OneByteEach(ws: seq<word>, k: nat)
    requires (forall i :: 0 <= i < |ws| ==> ws[i] < 0x100) && k <= |ws|
    ensures Concat(AllData(ws)[..k]) == seq(k, i requires 0 <= i < k => ws[i] as int)
  {
    if k > 0 {
      OneByteEach(ws, k - 1);
      DataGrows(ws, k - 1);
      assert DataOf(ws[k - 1]) == [ws[k - 1] as int];
    }
  }

  // ----- Zigzag deltas -----

  function Sum(a: int32, b: int32): int32 {
    var s := a as int + b as int;
    if s >= 0x8000_0000 then s - 0x1_0000_0000 else if s < -0x8000_0000 then s + 0x1_0000_0000 else s
  }

  function Unzigzag(w: word): int32 {
    if w as int % 2 == 0 then w as int / 2 else -(w as int / 2) - 1
  }

  function ZigzagDeltas(v: seq<int32>, start: int32): (r: seq<word>)
    ensures |r| == |v|
  {
    seq(|v|, i requires 0 <= i < |v| => ZigzagAt(v, start, i))
  }

  function Undeltas(w: seq<word>, start: int32): (r: seq<int32>)
    ensures |r| == |w|
  {
    if w == [] then []
    else
      var n := |w| - 1;
      var front := Undeltas(w[..n], start);
      front + [Sum(Unzigzag(w[n]), if n == 0 then start else front[n - 1])]
  }

  method ZigzagDeltaEncode(values: seq<int32>, start: int32) returns (out: seq<word>)
    ensures out == ZigzagDeltas(values, start)
  {
    hide Zigzag, Difference;
    out := [];
    var prev := start;
    for i := 0 to |values|
      invariant out == ZigzagDeltas(values, start)[..i] && prev == if i == 0 then start else values[i - 1]
    {
      out := out + [Zigzag(Difference(values[i], prev))];
      prev := values[i];
    }
  }

  method ZigzagDeltaDecode(values: seq<word>, start: int32) returns (out: seq<int32>)
    ensures out == Undeltas(values, start)
  {
    hide Sum, Unzigzag;
    out := [];
    var prev := start;
    for i := 0 to |values|
      invariant out == Undeltas(values[..i], start) && prev == if i == 0 then start else out[i - 1]
    {
      assert values[..i + 1][..i] == values[..i];
      var val := Unzigzag(values[i]);
      out := out + [Sum(val, prev)];
      prev := Sum(prev, val);
      SumCommutes(val, if i == 0 then start else out[i - 1]);
    }
    assert values[..|values|] == values;
  }

  lemma SumCommutes(a: int32, b: int32)
    ensures Sum(a, b) == Sum(b, a)
  {
  }

  lemma DeltaUndone(a: int32, b: int32)
    ensures Sum(Unzigzag(Zigzag(Difference(a, b))), b) == a
  {
    ZigzagUndone(Difference(a, b));
    hide Zigzag, Unzigzag;
  }

  lemma ZigzagUndone(d: int32)
    ensures Unzigzag(Zigzag(d)) == d
  {
    HalfOf(d as int);
    HalfOf(-(d as int) - 1);
  }

  lemma HalfOf(n: int)
    ensures 2 * n % 2 == 0 && 2 * n / 2 == n && (2 * n + 1) % 2 == 1 && (2 * n + 1) / 2 == n
  {
  }

  lemma {:induction false} UndeltasOfDeltas(v: seq<int32>, start: int32)
    ensures Undeltas(ZigzagDeltas(v, start), start) == v
  {
    if v != [] {
      hide Sum, Unzigzag, Zigzag, Difference, ZigzagDeltas;
      var n := |v| - 1;
      UndeltasOfDeltas(v[..n], start);
      DeltasFront(v, start);
      DeltaUndone(v[n], if n == 0 then start else v[n - 1]);
    }
  }

  lemma DeltasFront(v: seq<int32>, start: int32)
    requires v != []
    ensures var n := |v| - 1;
            ZigzagDeltas(v, start)[..n] == ZigzagDeltas(v[..n], start) && ZigzagDeltas(v, start)[n] == ZigzagAt(v, start, n)
  {
    hide Zigzag, Difference;
  }

  // ----- The compression of the stores -----

  function Compression(): IntCodec {
    IntCodec(ZigzagDeltas, Undeltas, Encoded, Decoded)
  }

  /** What the stores rely on holds of it. */
  lemma CompressionIsGood()
    ensures GoodIntCodec(Compression())
  {
    var c := Compression();
    hide ZigzagDeltas, Undeltas, Encoded, Decoded;
    forall v, s ensures |c.zigzagEncode(v, s)| == |v| && c.zigzagDecode(c.zigzagEncode(v, s), s) == v {
      UndeltasOfDeltas(v, s);
    }
    forall v, s, i | 0 <= i < |v| ensures c.zigzagEncode(v, s)[i] == ZigzagAt(v, s, i) {
      DeltaAt(v, s, i);
    }
    forall w, rest ensures c.svbDecode(c.svbEncode(w) + rest, |w|) == w {
      DecodedOfEncoded(w, rest);
    }
    forall w ensures |c.svbEncode(w)| == (|w| + 3) / 4 + Widths(w) {
      EncodedLength(w);
    }
  }

  lemma DeltaAt(v: seq<int32>, start: int32, i: nat)
    requires i < |v|
    ensures |ZigzagDeltas(v, start)| == |v| && ZigzagDeltas(v, start)[i] == ZigzagAt(v, start, i)
  {
  }
}
