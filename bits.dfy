/** Powers of two and the facts about integer division that the bit-level proofs rely on. */
module Bits {

  /** 2^k. */
  function Pow2(k: nat): (r: nat)
    ensures r >= 1
  {
    if k == 0 then 1 else 2 * Pow2(k - 1)
  }

  lemma {:induction false} Pow2Add(a: nat, b: nat)
    ensures Pow2(a + b) == Pow2(a) * Pow2(b)
  {
    if a > 0 {
      Pow2Add(a - 1, b);
      calc {
        Pow2(a + b);
        2 * Pow2(a - 1 + b);
        2 * (Pow2(a - 1) * Pow2(b));
        (2 * Pow2(a - 1)) * Pow2(b);
      }
    }
  }

  lemma {:induction false} Pow2Monotone(a: nat, b: nat)
    requires a <= b
    ensures Pow2(a) <= Pow2(b)
  {
    if a < b {
      Pow2Monotone(a, b - 1);
    }
  }

  lemma MulAtLeast(k: int, d: int)
    requires k >= 1 && d > 0
    ensures k * d >= d
  {
  }

  lemma MulSub(a: int, b: int, d: int)
    ensures (a - b) * d == a * d - b * d
  {
  }

  /** Division by a positive divisor has exactly one quotient and remainder. */
  lemma DivModUnique(x: int, d: int, q: int, r: int)
    requires d > 0 && 0 <= r < d && x == q * d + r
    ensures x / d == q && x % d == r
  {
    var q', r' := x / d, x % d;
    assert x == q' * d + r';
    if q' < q {
      MulAtLeast(q - q', d);
      MulSub(q, q', d);
      assert false;
    } else if q' > q {
      MulAtLeast(q' - q, d);
      MulSub(q', q, d);
      assert false;
    }
  }

  lemma DivAddMultiple(a: nat, c: nat, d: nat)
    requires d > 0
    ensures (a + c * d) / d == a / d + c
  {
    assert (a / d + c) * d == (a / d) * d + c * d;
    DivModUnique(a + c * d, d, a / d + c, a % d);
  }

  /** `2^k` is `2^j` times an even number when `j < k`. */
  lemma Pow2Split(j: nat, k: nat)
    requires j < k
    ensures Pow2(k) == (2 * Pow2(k - 1 - j)) * Pow2(j)
  {
    Pow2Add(j, k - j);
    assert Pow2(k - j) == 2 * Pow2(k - 1 - j);
  }

  lemma MulRegroup(b: nat, c: nat, d: nat)
    ensures b * ((2 * c) * d) == (2 * (b * c)) * d
  {
  }

  /** Adding an even multiple of `d` does not change bit 0 of the quotient by `d`. */
  lemma QuotientParityAddEven(w: nat, c: nat, d: nat)
    requires d > 0
    ensures ((w + (2 * c) * d) / d) % 2 == (w / d) % 2
  {
    DivAddMultiple(w, 2 * c, d);
  }

  /** With `w < d` and `b` a bit, bit 0 of the quotient of `w + b*d` by `d` is `b`. */
  lemma QuotientTop(x: nat, w: nat, b: nat, d: nat)
    requires w < d && b <= 1 && x == w + b * d
    ensures (x / d) % 2 == b
  {
    DivAddMultiple(w, b, d);
    DivModUnique(w, d, 0, w);
  }

  /** When `D` is an even multiple of `d`, reducing modulo `D` keeps bit 0 of the quotient by `d`. */
  lemma QuotientParityMod(x: nat, c: nat, d: nat, bigD: nat)
    requires d > 0 && c > 0 && bigD == (2 * c) * d
    ensures ((x % bigD) / d) % 2 == (x / d) % 2
  {
    assert bigD > 0 by { MulAtLeast(2 * c, d); }
    var q, r := x / bigD, x % bigD;
    assert x == r + q * bigD;
    MulRegroup(q, c, d);
    QuotientParityAddEven(r, q * c, d);
  }

  /** Adding `b*D`, with `D` an even multiple of `d`, keeps bit 0 of the quotient by `d`. */
  lemma HighBitIgnored(x: nat, w: nat, b: nat, c: nat, d: nat, bigD: nat)
    requires d > 0 && bigD == (2 * c) * d && x == w + b * bigD
    ensures (x / d) % 2 == (w / d) % 2
  {
    MulRegroup(b, c, d);
    QuotientParityAddEven(w, b * c, d);
  }
}
