/** Powers of two and four, and the few facts about division that the codecs and
    the curve rest on. Shifts, masks and bit tests on machine integers are written
    with these. */
module Arithmetic {

  function Pow2(k: nat): (r: nat)
    ensures 1 <= r
  {
    if k == 0 then 1 else 2 * Pow2(k - 1)
  }

  function Pow4(k: nat): (r: nat)
    ensures 1 <= r
  {
    if k == 0 then 1 else 4 * Pow4(k - 1)
  }

  lemma {:induction false} Pow4IsSquare(k: nat)
    ensures Pow4(k) == Pow2(k) * Pow2(k)
  {
    if k > 0 {
      Pow4IsSquare(k - 1);
      var h := Pow2(k - 1);
      assert (2 * h) * (2 * h) == 4 * (h * h);
    }
  }

  lemma {:induction false} Pow2Monotone(a: nat, b: nat)
    requires a <= b
    ensures Pow2(a) <= Pow2(b)
  {
    if a < b {
      Pow2Monotone(a, b - 1);
    }
  }

  lemma {:induction false} Pow4Monotone(a: nat, b: nat)
    requires a <= b
    ensures Pow4(a) <= Pow4(b)
  {
    if a < b {
      Pow4Monotone(a, b - 1);
    }
  }

  lemma {:induction false} Pow2Sum(a: nat, b: nat)
    ensures Pow2(a + b) == Pow2(a) * Pow2(b)
  {
    hide Pow2;
    Pow2Unfold(a);
    if a > 0 {
      Pow2Sum(a - 1, b);
      Pow2Unfold(a + b);
      TwiceProduct(Pow2(a - 1), Pow2(b));
    }
  }

  lemma Pow2Unfold(k: nat)
    ensures Pow2(k) == if k == 0 then 1 else 2 * Pow2(k - 1)
  {
  }

  lemma TwiceProduct(p: int, q: int)
    ensures (2 * p) * q == 2 * (p * q)
  {
  }

  /** Quotient and remainder are the only pair that fit. */
  lemma DivModUnique(a: int, s: int, q: int, r: int)
    requires 0 < s && 0 <= r < s
    requires a == s * q + r
    ensures a / s == q && a % s == r
  {
    var q', r' := a / s, a % s;
    assert a == s * q' + r' && 0 <= r' < s;
    assert s * (q - q') == r' - r by {
      assert s * (q - q') == s * q - s * q';
    }
    if q > q' {
      MulAtLeast(s, q - q');
    } else if q < q' {
      MulAtLeast(s, q' - q);
    }
  }

  lemma MulAtLeast(s: int, d: int)
    requires 0 < s && 1 <= d
    ensures s <= s * d
  {
    assert s * d == s + s * (d - 1);
    MulNonNegative(s, d - 1);
  }

  lemma MulNonNegative(a: int, b: int)
    requires 0 <= a && 0 <= b
    ensures 0 <= a * b
  {
  }

  lemma MulMonotone(a: int, b: int, c: int)
    requires 0 <= a && b <= c
    ensures a * b <= a * c
  {
    assert a * c - a * b == a * (c - b);
    MulNonNegative(a, c - b);
  }

  lemma DivModFacts(a: int, s: int)
    requires 0 < s
    ensures a == s * (a / s) + a % s
    ensures 0 <= a % s < s
  {
  }

  /** Dividing twice is dividing by the product. */
  lemma DivDiv(a: int, s: int, t: int)
    requires 0 < s && 0 < t
    ensures 0 < s * t
    ensures (a / s) / t == a / (s * t)
    ensures (a % (s * t)) / s == (a / s) % t
    ensures (a % (s * t)) % s == a % s
  {
    MulAtLeast(s, t);
    var q, r := a / s, a % s;
    var q2, r2 := q / t, q % t;
    DivModFacts(a, s);
    DivModFacts(q, t);
    assert a == (s * t) * q2 + (s * r2 + r) by {
      assert s * (t * q2 + r2) == s * (t * q2) + s * r2;
      assert s * (t * q2) == (s * t) * q2;
    }
    assert 0 <= s * r2 + r < s * t by {
      MulNonNegative(s, r2);
      MulMonotone(s, r2, t - 1);
      assert s * (t - 1) == s * t - s;
    }
    DivModUnique(a, s * t, q2, s * r2 + r);
    DivModUnique(s * r2 + r, s, r2, r);
  }
}
