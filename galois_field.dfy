/** The `GaloisField` trait's generic exponentiation `pow`, over any element
    type whose `ONE` and `*` form a monoid (as every field's multiplication
    does). */
module GaloisField {
  import opened Usize

  /** The part of a field type's interface that `pow` uses: the constant
      `ONE` and the operator `*` (which `*=` applies in place). */
  datatype MulOps<!F> = MulOps(one: F, mul: (F, F) -> F)

  /** `(a * b) * c == a * (b * c)` for these three elements. Named, so that
      the associativity law is used only where a proof asks for it. */
  ghost predicate AssociativeAt<F>(m: MulOps<F>, a: F, b: F, c: F)
  {
    m.mul(m.mul(a, b), c) == m.mul(a, m.mul(b, c))
  }

  /** `*` is associative and `ONE` is its identity on both sides. */
  ghost predicate IsMonoid<F(!new)>(m: MulOps<F>)
  {
    && (forall a, b, c :: AssociativeAt(m, a, b, c))
    && (forall a :: m.mul(m.one, a) == a && m.mul(a, m.one) == a)
  }

  /** `x` to the power `p`: `ONE` multiplied by `x`, `p` times. */
  function Power<F>(m: MulOps<F>, x: F, p: nat): F
  {
    if p == 0 then m.one else m.mul(Power(m, x, p - 1), x)
  }

  /** `x^1 == x`. */
  lemma PowerOne<F(!new)>(m: MulOps<F>, x: F)
    requires IsMonoid(m)
    ensures Power(m, x, 1) == x
  {
    assert Power(m, x, 1) == m.mul(m.one, x);
  }

  /** Exponents add: `x^(a + b) == x^a * x^b`. */
  lemma {:induction false} PowerAdd<F(!new)>(m: MulOps<F>, x: F, a: nat, b: nat)
    requires IsMonoid(m)
    ensures Power(m, x, a + b) == m.mul(Power(m, x, a), Power(m, x, b))
  {
    if b > 0 {
      PowerAdd(m, x, a, b - 1);
      assert AssociativeAt(m, Power(m, x, a), Power(m, x, b - 1), x);
      calc {
        Power(m, x, a + b);
        m.mul(Power(m, x, a + b - 1), x);
        m.mul(m.mul(Power(m, x, a), Power(m, x, b - 1)), x);
        m.mul(Power(m, x, a), m.mul(Power(m, x, b - 1), x));
        m.mul(Power(m, x, a), Power(m, x, b));
      }
    }
  }

  /** One round of square-and-multiply: squaring `x^(q / 2)` and, when the
      lowest bit of `q` is set, multiplying once more by `x` gives `x^q`. */
  lemma SquareAndMultiplyStep<F(!new)>(m: MulOps<F>, x: F, q: nat)
    requires IsMonoid(m)
    ensures var half := Power(m, x, q / 2);
            var square := m.mul(half, half);
            Power(m, x, q) == if q % 2 == 1 then m.mul(square, x) else square
  {
    PowerAdd(m, x, q / 2, q / 2);
    if q % 2 == 1 {
      assert q == q / 2 + q / 2 + 1;
    } else {
      assert q == q / 2 + q / 2;
    }
  }

  /** While every bit of `p` from position `k` up is zero, the bits scanned so
      far give the exponent 0, so the accumulator is `ONE` and squaring it
      leaves it `ONE`: the leading squarings do not change the result. */
  lemma LeadingSquaringsKeepOne<F(!new)>(m: MulOps<F>, x: F, p: nat, k: nat)
    requires IsMonoid(m)
    requires p < Pow2(k)
    ensures Power(m, x, Shr(p, k)) == m.one
    ensures m.mul(Power(m, x, Shr(p, k)), Power(m, x, Shr(p, k))) == m.one
  {
    ShrBelow(p, k);
  }

  /** One loop round scans bit `k - 1` of `p`: from `x` raised to the bits
      of `p` from position `k` up, squaring and then multiplying by `x` when
      `(1 << (k - 1)) & p` is non-zero gives `x` raised to the bits from
      position `k - 1` up. */
  lemma ScanOneBit<F(!new)>(m: MulOps<F>, x: F, p: nat, k: nat, val: F)
    requires IsMonoid(m)
    requires k >= 1 && val == Power(m, x, Shr(p, k))
    ensures var square := m.mul(val, val);
            Power(m, x, Shr(p, k - 1))
              == if BitAnd(Pow2(k - 1), p) > 0 then m.mul(square, x) else square
  {
    BitAndSingleBit(k - 1, p);
    SquareAndMultiplyStep(m, x, Shr(p, k - 1));
  }

  /** `self.pow(p)`: square-and-multiply over the bits of `p`, from the top
      bit of the word down to bit 0. `rounds` counts the loop iterations. */
  method Pow<F(!new)>(m: MulOps<F>, x: F, p: Word) returns (val: F, ghost rounds: nat)
    requires IsMonoid(m)
    ensures val == Power(m, x, p)
    ensures p == 0 ==> val == m.one
    ensures p == 1 ==> val == x
    ensures rounds == UsizeBits
  {
    val := m.one;
    var powPos := Shl(1, UsizeBits - 1);
    TopBitOverflows();
    assert Shl(powPos, 1) == 0;
    ghost var k: nat := UsizeBits;  // positions still to scan; the mask is bit k - 1
    rounds := 0;
    ShrBelow(p, k);
    while powPos > 0
      invariant k <= UsizeBits
      invariant powPos == if k == 0 then 0 else Pow2(k - 1)
      invariant rounds == UsizeBits - k
      invariant val == Power(m, x, Shr(p, k))
      decreases powPos
    {
      ScanOneBit(m, x, p, k, val);
      val := m.mul(val, val);
      if BitAnd(powPos, p) > 0 {
        val := m.mul(val, x);
      }
      MaskHalves(k);
      powPos := Shr(powPos, 1);
      k := k - 1;
      rounds := rounds + 1;
    }
    if p == 1 {
      PowerOne(m, x);
    }
  }
}
