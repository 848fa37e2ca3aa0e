/** Unsigned machine words (`usize`) and the handful of bit operations that
    the exponentiation loop uses on them, written out on unbounded naturals. */
module Usize {

  /** Bit width of `usize` on the 64-bit targets the model fixes
      (`size_of::<usize>() * 8`). */
  const UsizeBits: nat := 64

  function Pow2(k: nat): (r: nat)
    ensures r >= 1
  {
    if k == 0 then 1 else 2 * Pow2(k - 1)
  }

  /** 2^k exceeds k: in particular every exponent up to 64 is a `usize`. */
  lemma {:induction false} Pow2Exceeds(k: nat)
    ensures k < Pow2(k)
  {
    if k > 0 {
      Pow2Exceeds(k - 1);
    }
  }

  /** A `usize` value: a natural below 2^UsizeBits. */
  type Word = p: nat | p < Pow2(UsizeBits)

  /** `v << k` on a `usize`: bits shifted past the top are lost. */
  function Shl(v: nat, k: nat): nat
  {
    (v * Pow2(k)) % Pow2(UsizeBits)
  }

  /** `v >> k` on an unsigned word: `k` halvings, each dropping the lowest bit. */
  function Shr(v: nat, k: nat): nat
  {
    if k == 0 then v else Shr(v, k - 1) / 2
  }

  /** Bitwise `a & b`, bit by bit from the least significant one. */
  function BitAnd(a: nat, b: nat): nat
  {
    if a == 0 || b == 0 then 0
    else 2 * BitAnd(a / 2, b / 2) + (a % 2) * (b % 2)
  }

  /** Shifting right by `k + 1` drops the lowest bit first and then `k` more:
      `v >> (k + 1) == (v >> 1) >> k`. */
  lemma {:induction false} ShrLowFirst(v: nat, k: nat)
    ensures Shr(v, k + 1) == Shr(v / 2, k)
  {
    if k > 0 {
      ShrLowFirst(v, k - 1);
    }
  }

  /** A value below 2^k has no bit at position `k` or above: `v >> k == 0`. */
  lemma {:induction false} ShrBelow(v: nat, k: nat)
    requires v < Pow2(k)
    ensures Shr(v, k) == 0
  {
    if k > 0 {
      ShrLowFirst(v, k - 1);
      ShrBelow(v / 2, k - 1);
    }
  }

  /** Masking with the single bit `1 << k` yields that bit of `p` or 0:
      `(1 << k) & p` is nonzero exactly when bit `k` of `p` is set. */
  lemma {:induction false} BitAndSingleBit(k: nat, p: nat)
    ensures BitAnd(Pow2(k), p) == if Shr(p, k) % 2 == 1 then Pow2(k) else 0
  {
    if k > 0 && p == 0 {
      ShrBelow(0, k);
    } else if k > 0 {
      assert Pow2(k) / 2 == Pow2(k - 1) && Pow2(k) % 2 == 0;
      BitAndSingleBit(k - 1, p / 2);
      ShrLowFirst(p, k - 1);
    }
  }

  /** Shifting the one-bit mask `1 << (k - 1)` right moves it to bit
      `k - 2`, or clears it when it was bit 0. */
  lemma MaskHalves(k: nat)
    requires k >= 1
    ensures Shr(Pow2(k - 1), 1) == if k == 1 then 0 else Pow2(k - 2)
  {
    assert Shr(Pow2(k - 1), 1) == Pow2(k - 1) / 2;
    if k > 1 {
      assert Pow2(k - 1) == 2 * Pow2(k - 2);
    }
  }

  /** In a word of `w` bits, `x % 2^w` for `x` below 2^w is `x` itself and
      2^w wraps to 0. */
  lemma WrapAt(w: nat)
    requires w >= 1
    ensures Pow2(w - 1) % Pow2(w) == Pow2(w - 1)
    ensures (Pow2(w - 1) * 2) % Pow2(w) == 0
  {
    var top, modulus := Pow2(w - 1), Pow2(w);
    assert modulus == top * 2;
    ModSmall(top, modulus);
    ModSelf(modulus);
  }

  lemma ModSmall(x: nat, n: nat)
    requires x < n
    ensures x % n == x
  {
  }

  lemma ModSelf(n: nat)
    requires n >= 1
    ensures n % n == 0
  {
  }

  /** The mask `1 << (UsizeBits - 1)` is the top bit of the word, and shifting
      it left once more overflows to 0: `assert_eq!(pow_pos << 1, 0)` holds. */
  lemma TopBitOverflows()
    ensures Shl(1, UsizeBits - 1) == Pow2(UsizeBits - 1)
    ensures Shl(Pow2(UsizeBits - 1), 1) == 0
  {
    WrapAt(UsizeBits);
    assert Pow2(1) == 2;
  }
}
