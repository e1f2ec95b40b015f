/** Unsigned 32-bit register words and the bit-level vocabulary used to talk
    about them.  Bit operations are stated arithmetically: bit k of a word is
    the k-th binary digit, `w & (2^n - 1)` is `w % 2^n`, `1 << n` is `2^n`. */
module Bits {

  const WordBound: int := 0x1_0000_0000

  /** A `uint32_t` register value. */
  type u32 = w: int | 0 <= w < WordBound

  /** A bit position inside a 32-bit word. */
  type BitIndex = k: nat | k < 32

  /** `1 << n` on unbounded integers. */
  function Pow2(n: nat): (p: nat)
    ensures p >= 1
  {
    if n == 0 then 1 else 2 * Pow2(n - 1)
  }

  /** Bit k (0 = least significant) of a non-negative integer. */
  function Bit(w: nat, k: nat): (b: nat)
    ensures b <= 1
  {
    if k == 0 then w % 2 else Bit(w / 2, k - 1)
  }

  lemma {:induction false} Pow2Add(a: nat, b: nat)
    ensures Pow2(a + b) == Pow2(a) * Pow2(b)
  {
    if a > 0 {
      Pow2Add(a - 1, b);
      calc {
        Pow2(a + b);
        2 * Pow2(a - 1 + b);
        2 * (Pow2(a - 1) * Pow2(b));
        (2 * Pow2(a - 1)) * Pow2(b);
        Pow2(a) * Pow2(b);
      }
    }
  }

  lemma {:induction false} BitOfZero(k: nat)
    ensures Bit(0, k) == 0
  {
    if k > 0 {
      BitOfZero(k - 1);
    }
  }

  /** `2^c - 1` has exactly bits 0 .. c-1 set and no bit above them. */
  lemma {:induction false} LowOnesBits(c: nat, i: nat)
    ensures Bit(Pow2(c) - 1, i) == if i < c then 1 else 0
  {
    if c == 0 {
      BitOfZero(i);
    } else if i > 0 {
      var half := Pow2(c - 1);
      assert (Pow2(c) - 1) / 2 == half - 1;
      LowOnesBits(c - 1, i - 1);
    }
  }

  /** Three facts about halving a word w, for a divisor p:
      `w % (2 * p)` has the same parity as w; halving `w % (2 * p)` gives `(w / 2) % p`;
      and dividing `w / 2` by p is dividing w by `2 * p`. */
  lemma HalveDivMod(w: nat, p: nat)
    requires p >= 1
    ensures (w % (2 * p)) % 2 == w % 2
    ensures (w % (2 * p)) / 2 == (w / 2) % p
    ensures (w / 2) / p == w / (2 * p)
  {
    var d := 2 * p;
    DivModFacts(w, d);
    var q: nat, r: nat := w / d, w % d;
    var pq: nat := p * q;
    assert w == d * q + r;
    assert d * q == 2 * pq;
    var h, b := r / 2, r % 2;
    assert w == 2 * (pq + h) + b;
    ModUnique(w, 2, pq + h, b);
    assert w / 2 == p * q + h;
    ModUnique(w / 2, p, q, h);
  }

  /** Euclidean division of naturals: a non-negative quotient and a remainder below the divisor. */
  lemma DivModFacts(a: nat, d: nat)
    requires d >= 1
    ensures 0 <= a / d && 0 <= a % d < d && a == d * (a / d) + a % d
  {
  }

  lemma ModUnique(a: nat, p: nat, q: nat, s: nat)
    requires p >= 1 && s < p && a == p * q + s
    ensures a / p == q && a % p == s
  {
    var q' := a / p;
    if q < q' {
      assert p * q' == p * q + p * (q' - q);
      MulAtLeast(p, q' - q);
    } else if q' < q {
      assert p * q == p * q' + p * (q - q');
      MulAtLeast(p, q - q');
    }
  }

  lemma MulAtLeast(p: nat, k: nat)
    requires k >= 1
    ensures p * k >= p
  {
    assert p * k == p + p * (k - 1);
  }

  /** Bit k is the parity of `w / 2^k`, so `w & (1 << k)` is non-zero exactly when it is 1. */
  lemma {:induction false} BitIsQuotient(w: nat, k: nat)
    ensures Bit(w, k) == (w / Pow2(k)) % 2
  {
    if k > 0 {
      var p := Pow2(k - 1);
      BitIsQuotient(w / 2, k - 1);
      HalveDivMod(w, p);
      assert Pow2(k) == 2 * p;
    }
  }

  /** Masking with `2^n - 1` keeps bits below n and clears every bit from n up. */
  lemma {:induction false} LowBitsOfMod(w: nat, n: nat, i: nat)
    ensures Bit(w % Pow2(n), i) == if i < n then Bit(w, i) else 0
  {
    if n == 0 {
      BitOfZero(i);
    } else {
      HalveDivMod(w, Pow2(n - 1));
      if i > 0 {
        LowBitsOfMod(w / 2, n - 1, i - 1);
      }
    }
  }
}
