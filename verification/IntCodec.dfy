/** The integer compression the stores use, as far as they rely on it. */
module IntCodec {
  import opened Arithmetic
  import opened Coordinates
  import opened BitMask
  import opened Memory

  /** zigzag delta coding against a start value, and streamvbyte, whose decoder is told
      how many values to read and ignores what follows them. */
  datatype IntCodec = IntCodec(
    zigzagEncode: (seq<int32>, int32) -> seq<word>,
    zigzagDecode: (seq<word>, int32) -> seq<int32>,
    svbEncode: seq<word> -> seq<octet>,
    svbDecode: (seq<octet>, nat) -> seq<word>)

  /** The difference of two signed words, wrapped around. */
  function Difference(a: int32, b: int32): int32 {
    var d := a as int - b as int;
    if d >= 0x8000_0000 then d - 0x1_0000_0000 else if d < -0x8000_0000 then d + 0x1_0000_0000 else d
  }

  /** The sign goes into the lowest bit. */
  function Zigzag(d: int32): word {
    if d >= 0 then 2 * d as int else -2 * d as int - 1
  }

  function ZigzagAt(v: seq<int32>, start: int32, i: nat): word
    requires i < |v|
  {
    Zigzag(Difference(v[i], if i == 0 then start else v[i - 1]))
  }

  function Width(w: word): nat {
    if w < 0x100 then 1 else if w < 0x1_0000 then 2 else if w < 0x100_0000 then 3 else 4
  }

  /** The least number of bytes, from one to four, that hold the word. */
  lemma WidthIsLeast(w: word, k: nat)
    requires 1 <= k <= 4
    ensures Width(w) <= k <==> w as int < Pow2(8 * k)
    ensures 1 <= Width(w) <= 4
  {
    PowersOf256();
    hide Pow2;
    assert k == 1 || k == 2 || k == 3 || k == 4;
  }

  lemma PowersOf256()
    ensures Pow2(8) == 0x100 && Pow2(16) == 0x1_0000 && Pow2(24) == 0x100_0000 && Pow2(32) == 0x1_0000_0000
  {
    assert Pow2(8) == 0x100;
    hide Pow2;
    Pow2Sum(8, 8);
    Pow2Sum(16, 8);
    Pow2Sum(16, 16);
  }

  function Widths(ws: seq<word>): (n: nat)
    ensures |ws| <= n <= 4 * |ws|
  {
    if ws == [] then 0 else Widths(ws[..|ws| - 1]) + Width(ws[|ws| - 1])
  }

  ghost predicate GoodIntCodec(c: IntCodec) {
    && (forall v, s :: |c.zigzagEncode(v, s)| == |v|)
    && (forall v, s, i :: 0 <= i < |v| ==> c.zigzagEncode(v, s)[i] == ZigzagAt(v, s, i))
    && (forall w, s :: |c.zigzagDecode(w, s)| == |w|)
    && (forall b, n :: |c.svbDecode(b, n)| == n)
    && (forall v, s :: c.zigzagDecode(c.zigzagEncode(v, s), s) == v)
    && (forall w, rest :: c.svbDecode(c.svbEncode(w) + rest, |w|) == w)
    // One control byte for four values, and one to four bytes a value.
    && (forall w :: |c.svbEncode(w)| == (|w| + 3) / 4 + Widths(w))
  }

  /** Deltas of the values after the first, compressed. */
  function Deltas(c: IntCodec, vs: seq<int32>): seq<octet> {
    if vs == [] then [] else c.svbEncode(c.zigzagEncode(vs[1..], vs[0]))
  }

  function Undelta(c: IntCodec, first: int32, bytes: seq<octet>, n: nat): seq<int32> {
    [first] + c.zigzagDecode(c.svbDecode(bytes, n), first)
  }

  lemma DeltasRoundTrip(c: IntCodec, vs: seq<int32>, rest: seq<octet>)
    requires GoodIntCodec(c) && vs != []
    ensures Undelta(c, vs[0], Deltas(c, vs) + rest, |vs| - 1) == vs
  {
    var z := c.zigzagEncode(vs[1..], vs[0]);
    assert |z| == |vs| - 1;
    assert c.svbDecode(c.svbEncode(z) + rest, |z|) == z;
    assert [vs[0]] + vs[1..] == vs;
  }

  function DeltaWidths(vs: seq<int32>): (n: nat)
    ensures vs != [] ==> |vs| - 1 <= n <= 4 * (|vs| - 1)
  {
    if |vs| <= 1 then 0 else DeltaWidths(vs[..|vs| - 1]) + Width(Zigzag(Difference(vs[|vs| - 1], vs[|vs| - 2])))
  }

  /** The compressed deltas' length, told from the values. */
  function DeltasLength(vs: seq<int32>): nat
    requires vs != []
  {
    (|vs| + 2) / 4 + DeltaWidths(vs)
  }

  lemma DeltasSize(c: IntCodec, vs: seq<int32>)
    requires GoodIntCodec(c) && vs != []
    ensures |Deltas(c, vs)| == DeltasLength(vs) <= (|vs| + 2) / 4 + 4 * (|vs| - 1)
    ensures |Deltas(c, vs)| == 0 <==> |vs| == 1
  {
    var z := c.zigzagEncode(vs[1..], vs[0]);
    assert |z| == |vs| - 1;
    forall i | 0 <= i < |z| ensures z[i] == Zigzag(Difference(vs[i + 1], vs[i])) {
    }
    WidthsOfDeltas(z, vs);
  }

  lemma {:induction false} WidthsOfDeltas(z: seq<word>, vs: seq<int32>)
    requires |z| + 1 == |vs| && forall i :: 0 <= i < |z| ==> z[i] == Zigzag(Difference(vs[i + 1], vs[i]))
    ensures Widths(z) == DeltaWidths(vs)
  {
    if z != [] {
      WidthsOfDeltas(z[..|z| - 1], vs[..|vs| - 1]);
    }
  }

  /** Neighbours more than 2^23 apart, but not so far that their difference wraps. */
  predicate FarApart(vs: seq<int32>) {
    forall i :: 0 < i < |vs| ==> 0x80_0000 < Gap(vs[i], vs[i - 1]) < 0x8000_0000
  }

  function Gap(a: int32, b: int32): nat {
    if a < b then b as int - a as int else a as int - b as int
  }

  /** Each delta of such values takes four bytes. */
  lemma {:induction false} WidestDeltas(vs: seq<int32>)
    requires vs != [] && FarApart(vs)
    ensures DeltasLength(vs) == (|vs| + 2) / 4 + 4 * (|vs| - 1)
  {
    if |vs| > 1 {
      var n := |vs| - 1;
      assert 0x80_0000 < Gap(vs[n], vs[n - 1]) < 0x8000_0000;
      assert FarApart(vs[..n]);
      WidestDeltas(vs[..n]);
    }
  }

  /** Neighbours at most 127 apart. */
  predicate Near(vs: seq<int32>) {
    forall i :: 0 < i < |vs| ==> Gap(vs[i], vs[i - 1]) <= 127
  }

  /** Each delta of such values takes one byte. */
  lemma {:induction false} NarrowestDeltas(vs: seq<int32>)
    requires vs != [] && Near(vs)
    ensures DeltasLength(vs) == (|vs| + 2) / 4 + |vs| - 1
  {
    if |vs| > 1 {
      var n := |vs| - 1;
      assert Gap(vs[n], vs[n - 1]) <= 127;
      assert Near(vs[..n]);
      NarrowestDeltas(vs[..n]);
    }
  }
}
