/** 256-bit masks of 32 bytes, and ranks in them taken a byte at a time. */
module BitMask {
  import opened Arithmetic

  type octet = b: int | 0 <= b < 256

  /** Bit k of a byte: b AND (1 << k). */
  predicate Bit(b: octet, k: nat)
    requires k < 8
  {
    (b as int / Pow2(k)) % 2 == 1
  }

  type Mask = m: seq<octet> | |m| == 32 witness seq(32, _ => 0)

  /** Positions in a mask, and the numbers of chunks and of ids in a chunk. */
  type index = i: int | 0 <= i < 256

  predicate IsSet(mask: Mask, i: index)
  {
    Bit(mask[i / 8], i % 8)
  }

  function EmptyMask(): (m: Mask)
  {
    seq(32, _ => 0)
  }

  /** b OR (1 << k). */
  function WithBit(b: octet, k: nat): (r: octet)
    requires k < 8
  {
    if Bit(b, k) then b else BitFits(b, k); b as int + Pow2(k)
  }

  /** mask[i / 8] |= 1 << (i % 8). */
  function Including(mask: Mask, i: index): (m: Mask)
  {
    mask[i / 8 := WithBit(mask[i / 8], i % 8)]
  }

  /** Number of bits set below k. */
  function OnesBelow(b: octet, k: nat): (n: nat)
    requires k <= 8
    ensures n <= k
  {
    if k == 0 then 0 else OnesBelow(b, k - 1) + if Bit(b, k - 1) then 1 else 0
  }

  /** popcnt of the first n bytes. */
  function PopCount(mask: Mask, n: nat): (r: nat)
    requires n <= |mask|
    ensures r <= 8 * n
  {
    if n == 0 then 0 else PopCount(mask, n - 1) + OnesBelow(mask[n - 1], 8)
  }

  /** The rank of bit i as the stores compute it: whole bytes first, then the byte
      with everything from the bit on masked away. */
  function Rank(mask: Mask, i: index): nat
  {
    PopCount(mask, i / 8) + OnesBelow(LowBits(mask[i / 8], i % 8), 8)
  }

  /** b AND ((1 << k) - 1). */
  function LowBits(b: octet, k: nat): octet {
    LowBitsFit(b, k);
    b as int % Pow2(k)
  }

  lemma LowBitsFit(b: octet, k: nat)
    ensures 0 <= b as int % Pow2(k) <= b
  {
    hide Pow2;
    DivModFacts(b, Pow2(k));
    if b as int < Pow2(k) {
      DivModUnique(b, Pow2(k), 0, b);
    }
  }

  /** Number of bits set below position i, one by one. */
  ghost function Count(mask: Mask, i: nat): nat
    requires i <= 256
  {
    if i == 0 then 0 else Count(mask, i - 1) + if IsSet(mask, i - 1) then 1 else 0
  }

  lemma PowersOfTwo()
    ensures Pow2(0) == 1 && Pow2(1) == 2 && Pow2(2) == 4 && Pow2(3) == 8
    ensures Pow2(4) == 16 && Pow2(5) == 32 && Pow2(6) == 64 && Pow2(7) == 128
  {
  }

  /** The bits of a byte, spelled out. */
  lemma Bits(b: octet)
    ensures Bit(b, 0) <==> b as int % 2 == 1
    ensures Bit(b, 1) <==> b as int / 2 % 2 == 1
    ensures Bit(b, 2) <==> b as int / 4 % 2 == 1
    ensures Bit(b, 3) <==> b as int / 8 % 2 == 1
    ensures Bit(b, 4) <==> b as int / 16 % 2 == 1
    ensures Bit(b, 5) <==> b as int / 32 % 2 == 1
    ensures Bit(b, 6) <==> b as int / 64 % 2 == 1
    ensures Bit(b, 7) <==> b as int / 128 % 2 == 1
  {
    PowersOfTwo();
  }

  lemma BitFits(b: octet, k: nat)
    requires k < 8 && !Bit(b, k)
    ensures b as int + Pow2(k) < 256
  {
    PowersOfTwo();
    Bits(b);
    match k {
      case 0 => case 1 => case 2 => case 3 => case 4 => case 5 => case 6 => case 7 =>
    }
  }

  lemma WithBitSets(b: octet, k: nat, j: nat)
    requires k < 8 && j < 8
    ensures Bit(WithBit(b, k), j) <==> Bit(b, j) || j == k
  {
    hide *;
    WithBitIs(b, k);
    if !Bit(b, k) {
      if j < k {
        LowerBits(b, k, j);
      } else if j == k {
        SameBit(b, k);
      } else {
        HigherBits(b, k, j);
      }
      BitIs(b, j);
      BitIs(WithBit(b, k), j);
    }
  }

  lemma WithBitIs(b: octet, k: nat)
    requires k < 8
    ensures if Bit(b, k) then WithBit(b, k) == b else WithBit(b, k) == b as int + Pow2(k)
  {
  }

  lemma BitIs(b: octet, k: nat)
    requires k < 8
    ensures Bit(b, k) <==> b as int / Pow2(k) % 2 == 1
  {
  }

  /** Setting a clear bit makes its quotient odd. */
  lemma SameBit(b: octet, k: nat)
    requires k < 8 && !Bit(b, k)
    ensures (b as int + Pow2(k)) / Pow2(k) % 2 == 1
  {
    hide Pow2;
    AddMultiple(b, Pow2(k), 1);
  }

  lemma AddMultiple(b: int, q: int, m: int)
    requires 0 < q
    ensures (b + q * m) / q == b / q + m
  {
    DivModFacts(b, q);
    assert q * (b / q + m) == q * (b / q) + q * m;
    DivModUnique(b + q * m, q, b / q + m, b % q);
  }

  lemma LowerBits(b: octet, k: nat, j: nat)
    requires j < k < 8
    ensures (b as int + Pow2(k)) / Pow2(j) % 2 == b as int / Pow2(j) % 2
  {
    hide Pow2;
    var d := Pow2(k - j - 1);
    Pow2Sum(j, k - j);
    Doubling(k - j);
    AddMultiple(b, Pow2(j), 2 * d);
    EvenStep(b as int / Pow2(j), d);
  }

  lemma Doubling(k: nat)
    requires 0 < k
    ensures Pow2(k) == 2 * Pow2(k - 1)
  {
  }

  lemma EvenStep(a: int, d: int)
    ensures (a + 2 * d) % 2 == a % 2
  {
  }

  /** Filling a clear bit changes nothing above it. */
  lemma HigherBits(b: octet, k: nat, j: nat)
    requires k < j < 8 && !Bit(b, k)
    ensures (b as int + Pow2(k)) / Pow2(j) == b as int / Pow2(j)
  {
    hide *;
    var p := Pow2(k);
    BitIs(b, k);
    AddMultiple(b, p, 1);
    OddHalf(b as int / p);
    Pow2Unfold(1);
    Pow2Unfold(0);
    Pow2Sum(k, 1);
    DivDiv(b, p, 2);
    DivDiv(b as int + p, p, 2);
    Pow2Sum(k + 1, j - k - 1);
    DivDiv(b, Pow2(k + 1), Pow2(j - k - 1));
    DivDiv(b as int + p, Pow2(k + 1), Pow2(j - k - 1));
  }

  lemma OddHalf(h: int)
    ensures h % 2 == 0 ==> (h + 1) / 2 == h / 2
    ensures h % 2 != 1 <==> h % 2 == 0
  {
  }

  lemma LowBitsKeep(b: octet, k: nat, j: nat)
    requires k < 8 && j < 8
    ensures Bit(LowBits(b, k), j) <==> j < k && Bit(b, j)
  {
    var low := LowBits(b, k);
    if j < k {
      Pow2Sum(j, k - j);
      DivDiv(b, Pow2(j), Pow2(k - j));
      var d := Pow2(k - j - 1);
      assert Pow2(k - j) == 2 * d;
      DivDiv(b as int / Pow2(j), 2, d);
      assert 2 * d == d * 2;
    } else {
      Pow2Monotone(k, j);
      DivModFacts(b, Pow2(k));
      DivModUnique(low, Pow2(j), 0, low);
    }
  }

  lemma {:induction false} OnesOfLowBits(b: octet, k: nat, j: nat)
    requires k < 8 && j <= 8
    ensures OnesBelow(LowBits(b, k), j) == OnesBelow(b, if j < k then j else k)
  {
    if j > 0 {
      OnesOfLowBits(b, k, j - 1);
      LowBitsKeep(b, k, j - 1);
    }
  }

  lemma {:induction false} CountInByte(mask: Mask, n: nat, k: nat)
    requires n < 32 && k <= 8
    ensures Count(mask, 8 * n + k) == Count(mask, 8 * n) + OnesBelow(mask[n], k)
  {
    if k > 0 {
      CountInByte(mask, n, k - 1);
      assert (8 * n + (k - 1)) / 8 == n && (8 * n + (k - 1)) % 8 == k - 1;
      assert IsSet(mask, 8 * n + (k - 1)) <==> Bit(mask[n], k - 1);
    }
  }

  lemma {:induction false} PopCountCounts(mask: Mask, n: nat)
    requires n <= 32
    ensures PopCount(mask, n) == Count(mask, 8 * n)
  {
    if n > 0 {
      PopCountCounts(mask, n - 1);
      CountInByte(mask, n - 1, 8);
    }
  }

  /** The rank computed by bytes is the number of bits set below. */
  lemma RankCounts(mask: Mask, i: index)
    ensures Rank(mask, i) == Count(mask, i)
  {
    PopCountCounts(mask, i / 8);
    OnesOfLowBits(mask[i / 8], i % 8, 8);
    CountInByte(mask, i / 8, i % 8);
  }

  lemma IncludingSets(mask: Mask, i: index, j: index)
    ensures IsSet(Including(mask, i), j) <==> IsSet(mask, j) || i == j
  {
    if i / 8 == j / 8 {
      WithBitSets(mask[i / 8], i % 8, j % 8);
    }
  }

  lemma EmptyHasNone(j: index)
    ensures !IsSet(EmptyMask(), j)
  {
    assert 0 / Pow2(j % 8) == 0 by {
      DivModUnique(0, Pow2(j % 8), 0, 0);
    }
  }

  // ----- The mask of an ascending list of positions -----

  ghost predicate Positions(ps: seq<index>) {
    forall j, k :: 0 <= j < k < |ps| ==> ps[j] < ps[k]
  }

  ghost predicate MaskOf(mask: Mask, ps: seq<index>) {
    forall i :: 0 <= i < 256 ==> (IsSet(mask, i) <==> i in ps)
  }

  /** A position is found at its rank. */
  lemma {:induction false} CountOfPosition(mask: Mask, ps: seq<index>, i: nat, k: nat)
    requires MaskOf(mask, ps) && Positions(ps) && i <= 256 && k <= |ps|
    requires forall j :: 0 <= j < |ps| ==> (j < k <==> ps[j] < i)
    ensures Count(mask, i) == k
  {
    hide IsSet;
    if i > 0 {
      if i - 1 in ps {
        var j :| 0 <= j < |ps| && ps[j] == i - 1;
        assert j < k && ps[k - 1] < i;
        assert j == k - 1;
        CountOfPosition(mask, ps, i - 1, k - 1);
      } else {
        CountOfPosition(mask, ps, i - 1, k);
      }
    } else {
      assert |ps| > 0 ==> !(ps[0] < i);
    }
  }

  lemma RankOfPosition(mask: Mask, ps: seq<index>, k: nat)
    requires MaskOf(mask, ps) && Positions(ps) && k < |ps|
    ensures IsSet(mask, ps[k]) && Rank(mask, ps[k]) == k
  {
    hide Rank;
    hide IsSet;
    RankCounts(mask, ps[k]);
    CountOfPosition(mask, ps, ps[k], k);
  }

  /** popcnt of the whole mask is the number of positions. */
  lemma PopCountOfMask(mask: Mask, ps: seq<index>)
    requires MaskOf(mask, ps) && Positions(ps)
    ensures PopCount(mask, 32) == |ps|
  {
    hide IsSet;
    hide PopCount;
    PopCountCounts(mask, 32);
    CountOfPosition(mask, ps, 256, |ps|);
  }

  lemma MaskExtends(mask: Mask, ps: seq<index>, p: index)
    requires MaskOf(mask, ps)
    ensures MaskOf(Including(mask, p), ps + [p])
  {
    hide IsSet;
    hide Including;
    forall i | 0 <= i < 256 ensures IsSet(Including(mask, p), i) <==> i in ps + [p] {
      IncludingSets(mask, p, i);
    }
  }

  lemma EmptyMaskIs()
    ensures MaskOf(EmptyMask(), [])
  {
    forall i | 0 <= i < 256 ensures !IsSet(EmptyMask(), i) {
      EmptyHasNone(i);
    }
  }

  function MaskFor(ps: seq<index>): Mask {
    if ps == [] then EmptyMask() else Including(MaskFor(ps[..|ps| - 1]), ps[|ps| - 1])
  }

  lemma {:induction false} MaskForIs(ps: seq<index>)
    ensures MaskOf(MaskFor(ps), ps)
  {
    hide MaskOf;
    hide Including;
    if ps == [] {
      EmptyMaskIs();
    } else {
      MaskForIs(ps[..|ps| - 1]);
      MaskExtends(MaskFor(ps[..|ps| - 1]), ps[..|ps| - 1], ps[|ps| - 1]);
      assert ps[..|ps| - 1] + [ps[|ps| - 1]] == ps;
    }
  }

  lemma MaskSets(mask: Mask, ps: seq<index>, i: index)
    requires MaskOf(mask, ps)
    ensures IsSet(mask, i) <==> i in ps
  {
    hide IsSet;
  }
}
