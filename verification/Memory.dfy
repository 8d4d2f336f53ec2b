/** Bytes in memory: little-endian words, and what lies at an address. */
module Memory {
  import opened Coordinates
  import opened BitMask

  type word = w: int | 0 <= w < 0x1_0000_0000

  function Bytes4(w: word): (b: seq<octet>)
    ensures |b| == 4
  {
    [w as int % 256, w as int / 0x100 % 256, w as int / 0x1_0000 % 256, w as int / 0x100_0000]
  }

  /** The word at a place. Reads past the end are undefined in the program. */
  function WordAt(m: seq<octet>, at: nat): word {
    if at + 4 <= |m| then
      m[at] as int + 0x100 * m[at + 1] as int + 0x1_0000 * m[at + 2] as int + 0x100_0000 * m[at + 3] as int
    else 0
  }

  function ByteAt(m: seq<octet>, at: nat): octet {
    if at < |m| then m[at] else 0
  }

  function Bytes2(w: int): (b: seq<octet>)
    requires 0 <= w < 0x1_0000
    ensures |b| == 2
  {
    [w % 256, w / 256]
  }

  function From(m: seq<octet>, at: nat): seq<octet> {
    if at <= |m| then m[at..] else []
  }

  /** An unsigned word read as a signed one, and back. */
  function Signed(w: word): int32 {
    if w < 0x8000_0000 then w as int else w as int - 0x1_0000_0000
  }

  function Unsigned(i: int32): word {
    if i < 0 then i as int + 0x1_0000_0000 else i as int
  }

  lemma SignedRoundTrip(i: int32)
    ensures Signed(Unsigned(i)) == i
  {
  }

  lemma WordRoundTrip(pre: seq<octet>, w: word, post: seq<octet>)
    ensures WordAt(pre + Bytes4(w) + post, |pre|) == w
  {
    var m := pre + Bytes4(w) + post;
    assert m[|pre|] == Bytes4(w)[0] && m[|pre| + 1] == Bytes4(w)[1];
    assert m[|pre| + 2] == Bytes4(w)[2] && m[|pre| + 3] == Bytes4(w)[3];
    WordDigits(w);
  }

  lemma WordDigits(w: word)
    ensures w as int == w as int % 256 + 0x100 * (w as int / 0x100 % 256) + 0x1_0000 * (w as int / 0x1_0000 % 256)
                        + 0x100_0000 * (w as int / 0x100_0000)
  {
    NextDigit(w, 0x100);
    NextDigit(w, 0x1_0000);
  }

  lemma NextDigit(w: word, place: int)
    requires place == 0x100 || place == 0x1_0000
    ensures w as int / place == w as int / place % 0x100 + 0x100 * (w as int / (0x100 * place))
  {
  }

  /** A word inside a stretch of memory is the word of the stretch. */
  lemma WordInside(pre: seq<octet>, s: seq<octet>, post: seq<octet>, k: nat)
    requires k + 4 <= |s|
    ensures WordAt(pre + s + post, |pre| + k) == WordAt(s, k)
  {
    var m := pre + s + post;
    assert m[|pre| + k] == s[k] && m[|pre| + k + 1] == s[k + 1];
    assert m[|pre| + k + 2] == s[k + 2] && m[|pre| + k + 3] == s[k + 3];
  }

  /** Memory that holds some bytes at a place. */
  ghost predicate HoldsAt(area: seq<octet>, base: nat, bytes: seq<octet>) {
    base + |bytes| <= |area| && area[base..base + |bytes|] == bytes
  }

  lemma WordOf(area: seq<octet>, base: nat, bytes: seq<octet>, k: nat)
    requires HoldsAt(area, base, bytes) && k + 4 <= |bytes|
    ensures WordAt(area, base + k) == WordAt(bytes, k)
  {
    assert area == area[..base] + bytes + area[base + |bytes|..];
    WordInside(area[..base], bytes, area[base + |bytes|..], k);
  }

  lemma HeldLonger(area: seq<octet>, base: nat, bytes: seq<octet>, more: seq<octet>)
    requires HoldsAt(area, base, bytes)
    ensures HoldsAt(area + more, base, bytes)
  {
    assert (area + more)[base..base + |bytes|] == area[base..base + |bytes|];
  }

  function HalfAt(m: seq<octet>, at: nat): (h: nat)
    ensures h < 0x1_0000
  {
    if at + 2 <= |m| then m[at] as int + 0x100 * m[at + 1] as int else 0
  }

  function MaskAt(m: seq<octet>, at: nat): Mask {
    if at + 32 <= |m| then m[at..at + 32] else EmptyMask()
  }

  lemma HoldsInside(m: seq<octet>, at: nat, pre: seq<octet>, s: seq<octet>, post: seq<octet>)
    requires HoldsAt(m, at, pre + s + post)
    ensures HoldsAt(m, at + |pre|, s)
  {
    var all := pre + s + post;
    forall k | 0 <= k < |s| ensures m[at + |pre|..at + |pre| + |s|][k] == s[k] {
      assert m[at..at + |all|][|pre| + k] == all[|pre| + k];
    }
  }

  /** What lies in a stretch that lies in memory. */
  lemma HoldsWithin(m: seq<octet>, at: nat, all: seq<octet>, k: nat, s: seq<octet>)
    requires HoldsAt(m, at, all) && HoldsAt(all, k, s)
    ensures HoldsAt(m, at + k, s)
  {
    assert all == all[..k] + s + all[k + |s|..];
    HoldsInside(m, at, all[..k], s, all[k + |s|..]);
  }

  lemma HoldsWord(m: seq<octet>, at: nat, w: word)
    requires HoldsAt(m, at, Bytes4(w))
    ensures WordAt(m, at) == w
  {
    hide WordAt;
    hide Bytes4;
    assert m == m[..at] + Bytes4(w) + m[at + 4..];
    WordRoundTrip(m[..at], w, m[at + 4..]);
  }

  lemma HoldsHalf(m: seq<octet>, at: nat, h: nat)
    requires h < 0x1_0000 && HoldsAt(m, at, Bytes2(h))
    ensures HalfAt(m, at) == h
  {
    var s := m[at..at + 2];
    assert s[0] == m[at] && s[1] == m[at + 1];
  }

  lemma HoldsMask(m: seq<octet>, at: nat, mask: Mask)
    requires HoldsAt(m, at, mask)
    ensures MaskAt(m, at) == mask
  {
  }

  // ----- Things one after the other -----

  function Concat(ss: seq<seq<octet>>): seq<octet> {
    if ss == [] then [] else Concat(ss[..|ss| - 1]) + ss[|ss| - 1]
  }

  lemma {:induction false} ConcatHolds(ss: seq<seq<octet>>, k: nat)
    requires k < |ss|
    ensures HoldsAt(Concat(ss), |Concat(ss[..k])|, ss[k])
  {
    var n := |ss| - 1;
    if k < n {
      ConcatHolds(ss[..n], k);
      assert ss[..n][..k] == ss[..k];
      HeldLonger(Concat(ss[..n]), |Concat(ss[..k])|, ss[k], ss[n]);
    }
  }

  lemma {:induction false} ConcatOfEqual(ss: seq<seq<octet>>, w: nat)
    requires forall k :: 0 <= k < |ss| ==> |ss[k]| == w
    ensures |Concat(ss)| == w * |ss|
  {
    if ss != [] {
      ConcatOfEqual(ss[..|ss| - 1], w);
      assert w * |ss| == w * (|ss| - 1) + w;
    }
  }

  lemma {:induction false} ConcatAtMost(ss: seq<seq<octet>>, w: nat)
    requires forall k :: 0 <= k < |ss| ==> |ss[k]| <= w
    ensures |Concat(ss)| <= w * |ss|
  {
    if ss != [] {
      ConcatAtMost(ss[..|ss| - 1], w);
      assert w * |ss| == w * (|ss| - 1) + w;
    }
  }

  lemma {:induction false} ConcatAligned(ss: seq<seq<octet>>)
    requires forall k :: 0 <= k < |ss| ==> |ss[k]| % 64 == 0
    ensures |Concat(ss)| % 64 == 0
  {
    if ss != [] {
      ConcatAligned(ss[..|ss| - 1]);
      AlignedSum(|Concat(ss[..|ss| - 1])|, |ss[|ss| - 1]|);
    }
  }

  lemma AlignedSum(a: nat, b: nat)
    requires a % 64 == 0 && b % 64 == 0
    ensures (a + b) % 64 == 0
  {
  }
}
