/** GF(4), the field of `g2p!(GF4, 2)`: 2-bit elements, multiplication of
    polynomials over GF(2) reduced modulo x^2 + x + 1, the only irreducible
    polynomial of degree 2 over GF(2). Its multiplicative group has the three
    elements 1, 2, 3, so a generator has order 3. */
module Gf4 {
  import opened GaloisField

  /** A field element as its 2-bit polynomial encoding. */
  type Element = bv2

  /** Multiplication by x: shift left; a bit that leaves the word stands for
      x^2, which is replaced by x + 1 (0b11). */
  function Times2(a: Element): Element
  {
    (a << 1) ^ (if a & 2 == 0 then 0 else 3)
  }

  /** `a * b`: the XOR of `a * x^i` over the bits `i` set in `b`. */
  function Mul(a: Element, b: Element): Element
  {
    (if b & 1 == 0 then 0 else a) ^ (if b & 2 == 0 then 0 else Times2(a))
  }

  /** `ONE` and `*` of GF(4). */
  const Ops: MulOps<Element> := MulOps(1, Mul)

  /** The powers of `g` generate all non-zero elements of GF(4): the
      defining property of `GENERATOR`. */
  predicate Generates(g: Element)
  {
    {Power(Ops, g, 0), Power(Ops, g, 1), Power(Ops, g, 2)} == {1, 2, 3}
  }

  /** The element 2 (the polynomial x) is a generator. */
  lemma TwoGenerates()
    ensures Generates(2)
  {
    assert Power(Ops, 2, 1) == Mul(1, 2) == 2;
    assert Power(Ops, 2, 2) == Mul(2, 2) == 3;
  }

  /** The documentation example of `GENERATOR`, as written: for a generator
      `g`, `g * g != ONE` holds, but `g * g * g` IS `ONE` (the example asserts
      it is not) and `g * g * g * g` is `g`, not `ONE` (the example asserts it
      is). */
  lemma GeneratorDocExampleAsWritten(g: Element)
    requires Generates(g)
    ensures Mul(g, g) != Ops.one
    ensures Mul(Mul(g, g), g) == Ops.one
    ensures Mul(Mul(Mul(g, g), g), g) == g != Ops.one
  {
    assert Power(Ops, g, 1) == g;
    assert Power(Ops, g, 2) == Mul(g, g);
  }

  /** What the example evidently means: a generator of GF(4) has
      multiplicative order exactly 4 - 1 == 3, that is `g.pow(3) == ONE`
      while `g.pow(1)` and `g.pow(2)` are not `ONE`. */
  lemma GeneratorOrder(g: Element)
    requires Generates(g)
    ensures Power(Ops, g, 3) == Ops.one
    ensures Power(Ops, g, 1) != Ops.one && Power(Ops, g, 2) != Ops.one
  {
    assert Power(Ops, g, 1) == g;
    assert Power(Ops, g, 2) == Mul(g, g);
  }

  lemma MulAssociative(a: Element, b: Element, c: Element)
    ensures Mul(Mul(a, b), c) == Mul(a, Mul(b, c))
  {
  }

  /** GF(4)'s multiplication is a monoid with identity 1. */
  lemma OpsIsMonoid()
    ensures IsMonoid(Ops)
  {
    forall a, b, c ensures AssociativeAt(Ops, a, b, c) {
      MulAssociative(a, b, c);
    }
  }

  /** The corrected example stated as the contract of calls to `Pow`:
      `g.pow(3) == ONE` and `g.pow(2) != ONE` for a generator `g` of GF(4). */
  method GeneratorPowers(g: Element) returns (square: Element, cube: Element)
    requires Generates(g)
    ensures square != Ops.one && cube == Ops.one
  {
    OpsIsMonoid();
    GeneratorOrder(g);
    ghost var rounds;
    square, rounds := Pow(Ops, g, 2);
    cube, rounds := Pow(Ops, g, 3);
  }
}
