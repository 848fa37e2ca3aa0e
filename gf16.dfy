/** GF(16), the field of `g2p!(GF16, 4)`: 4-bit elements encoding
    polynomials over GF(2) modulo x^4 + x + 1. The exponentiation example in
    the trait's documentation (2^4 == 3, that is x^4 == x + 1) fixes that
    modulus. Multiplication goes through exponent and logarithm tables of the
    generator 2 (the polynomial x). */
module Gf16 {
  import opened GaloisField
  import opened Usize

  /** A field element as its 4-bit polynomial encoding: bit i is the
      coefficient of x^i. */
  type Element = v: nat | v < 16

  /** `v ^ 3` on a 4-bit value: the two low bits flipped. */
  function XorThree(v: Element): Element
  {
    v - v % 4 + (3 - v % 4)
  }

  /** Multiplication by x: shift left; when bit 3 was set, the bit that
      leaves the word stands for x^4, which is replaced by x + 1 (0b0011). */
  function Times2(a: Element): Element
  {
    if a < 8 then 2 * a else XorThree(2 * a - 16)
  }

  /** `ExpTable[i]` is 2^i, for `i` in [0, 15). */
  const ExpTable: seq<Element> := [1, 2, 4, 8, 3, 6, 12, 11, 5, 10, 7, 14, 15, 13, 9]

  /** `LogTable[v]` is the exponent `i` with 2^i == v, for `v` in [1, 16);
      entry 0 is unused. */
  const LogTable: seq<nat> := [0, 0, 1, 4, 2, 8, 5, 10, 3, 14, 9, 7, 6, 13, 11, 12]

  /** `exp` starts from 1 and each entry is the previous one multiplied by
      the polynomial x; after 15 steps the sequence returns to 1. */
  ghost predicate PowersOfX(exp: seq<Element>)
  {
    && |exp| == 15 && exp[0] == 1
    && (forall i :: 0 <= i < 14 ==> exp[i + 1] == Times2(exp[i]))
    && Times2(exp[14]) == 1
  }

  /** The exponent table is built by starting from 1 and multiplying by the
      generator, the polynomial x, at each step. */
  lemma ExpTableIsPowersOfTwo()
    ensures PowersOfX(ExpTable)
  {
    forall i | 0 <= i < 14 ensures ExpTable[i + 1] == Times2(ExpTable[i]) {
      if i < 7 {
        assert i in {0, 1, 2, 3, 4, 5, 6};
      } else {
        assert i in {7, 8, 9, 10, 11, 12, 13};
      }
    }
  }

  /** `exp` lists the 15 powers of a generator and `log` takes every non-zero
      element back to its exponent: the two tables are inverse to each other,
      and no entry of `exp` is 0. */
  ghost predicate InverseTables(exp: seq<Element>, log: seq<nat>)
  {
    && |exp| == 15 && |log| == 16
    && (forall i :: 0 <= i < 15 ==> exp[i] != 0 && log[exp[i]] == i)
    && (forall v :: 1 <= v < 16 ==> log[v] < 15 && exp[log[v]] == v)
  }

  /** The tables of GF(16) are inverse to each other. */
  lemma TablesInverse()
    ensures InverseTables(ExpTable, LogTable) && ExpTable[0] == 1
  {
  }

  /** Multiplication through the tables: 0 if either operand is 0, otherwise
      the generator raised to the sum of the logarithms modulo 15, the order
      of the multiplicative group. */
  function TableMul(exp: seq<Element>, log: seq<nat>, a: Element, b: Element): Element
    requires |exp| == 15 && |log| == 16
  {
    if a == 0 || b == 0 then 0
    else exp[(log[a] + log[b]) % 15]
  }

  /** `a * b` in GF(16). */
  function Mul(a: Element, b: Element): Element
  {
    TableMul(ExpTable, LogTable, a, b)
  }

  /** `ONE` and `*` of GF(16). */
  const Ops: MulOps<Element> := MulOps(1, Mul)

  /** The logarithm of a product of non-zero elements is the sum of their
      logarithms modulo 15, and the product is not zero. */
  lemma LogOfProduct(exp: seq<Element>, log: seq<nat>, a: Element, b: Element)
    requires InverseTables(exp, log)
    requires a != 0 && b != 0
    ensures TableMul(exp, log, a, b) != 0
    ensures log[TableMul(exp, log, a, b)] == (log[a] + log[b]) % 15
  {
  }

  /** Adding exponents modulo 15 is associative. */
  lemma LogSumAssociative(i: nat, j: nat, k: nat)
    requires i < 15 && j < 15 && k < 15
    ensures ((i + j) % 15 + k) % 15 == (i + (j + k) % 15) % 15
  {
  }

  /** With inverse tables, multiplication is associative: for non-zero
      operands both sides are the generator raised to the sum of the three
      logarithms modulo 15, and otherwise both sides are 0. */
  lemma TableMulAssociative(exp: seq<Element>, log: seq<nat>, a: Element, b: Element, c: Element)
    requires InverseTables(exp, log)
    ensures TableMul(exp, log, TableMul(exp, log, a, b), c)
         == TableMul(exp, log, a, TableMul(exp, log, b, c))
  {
    if a != 0 && b != 0 && c != 0 {
      LogOfProduct(exp, log, a, b);
      LogOfProduct(exp, log, b, c);
      LogSumAssociative(log[a], log[b], log[c]);
    }
  }

  lemma MulAssociative(a: Element, b: Element, c: Element)
    ensures Mul(Mul(a, b), c) == Mul(a, Mul(b, c))
  {
    TablesInverse();
    TableMulAssociative(ExpTable, LogTable, a, b, c);
  }

  /** With inverse tables whose first entry is 1, the element 1 is the
      identity of multiplication. */
  lemma TableMulOne(exp: seq<Element>, log: seq<nat>, a: Element)
    requires InverseTables(exp, log) && exp[0] == 1
    ensures TableMul(exp, log, 1, a) == a && TableMul(exp, log, a, 1) == a
  {
    assert log[1] == 0 by {
      assert log[exp[0]] == 0;
    }
  }

  lemma OneIsIdentity(a: Element)
    ensures Mul(1, a) == a && Mul(a, 1) == a
  {
    TablesInverse();
    TableMulOne(ExpTable, LogTable, a);
  }

  /** GF(16)'s multiplication is a monoid with identity 1, so the generic
      `pow` computes powers in it. */
  lemma OpsIsMonoid()
    ensures IsMonoid(Ops)
  {
    forall a, b, c ensures AssociativeAt(Ops, a, b, c) {
      MulAssociative(a, b, c);
    }
    forall a ensures Ops.mul(Ops.one, a) == a && Ops.mul(a, Ops.one) == a {
      OneIsIdentity(a);
    }
  }

  /** With inverse tables listing successive products by x, multiplying by
      2 (the polynomial x, whose logarithm is 1) is the step `Times2`. */
  lemma TableMulByTwo(exp: seq<Element>, log: seq<nat>, a: Element)
    requires InverseTables(exp, log) && PowersOfX(exp)
    ensures TableMul(exp, log, a, 2) == Times2(a)
  {
    if a != 0 {
      var l := log[a];
      assert log[2] == 1 by {
        assert log[exp[1]] == 1;
      }
      if l < 14 {
        assert exp[l + 1] == Times2(exp[l]);
      }
    }
  }

  /** Multiplying by 2 through the tables is the shift-and-reduce step
      `Times2` modulo x^4 + x + 1. */
  lemma MulByTwo(a: Element)
    ensures Mul(a, 2) == Times2(a)
  {
    TablesInverse();
    ExpTableIsPowersOfTwo();
    TableMulByTwo(ExpTable, LogTable, a);
  }

  /** Multiplying 1, 2, 4 and 8 by 2 (the polynomial x) through the tables. */
  lemma Doublings()
    ensures Mul(1, 2) == 2 && Mul(2, 2) == 4 && Mul(4, 2) == 8 && Mul(8, 2) == 3
  {
    assert LogTable[1] == 0 && LogTable[2] == 1 && LogTable[4] == 2 && LogTable[8] == 3;
    assert ExpTable[1] == 2 && ExpTable[2] == 4 && ExpTable[3] == 8 && ExpTable[4] == 3;
  }

  /** The first powers of the element 2. */
  lemma PowersOfTwo()
    ensures Power(Ops, 2, 0) == 1 && Power(Ops, 2, 1) == 2 && Power(Ops, 2, 2) == 4
    ensures Power(Ops, 2, 3) == 8 && Power(Ops, 2, 4) == 3
  {
    Doublings();
    assert Power(Ops, 2, 1) == Mul(1, 2);
    assert Power(Ops, 2, 2) == Mul(2, 2);
    assert Power(Ops, 2, 3) == Mul(4, 2);
    assert Power(Ops, 2, 4) == Mul(8, 2);
  }

  /** The documentation example for `pow` on the element 2 of GF16, stated
      as the contract of calls to `Pow`: `pow(0) == ONE`, `pow(1) == 2`,
      `pow(2) == 4`, `pow(3) == 8`, `pow(4) == 3`. */
  method PowDocExample() returns (p0: Element, p1: Element, p2: Element, p3: Element, p4: Element)
    ensures p0 == Ops.one && p1 == 2 && p2 == 4 && p3 == 8 && p4 == 3
  {
    OpsIsMonoid();
    PowersOfTwo();
    Pow2Exceeds(UsizeBits);
    ghost var rounds;
    p0, rounds := Pow(Ops, 2, 0);
    p1, rounds := Pow(Ops, 2, 1);
    p2, rounds := Pow(Ops, 2, 2);
    p3, rounds := Pow(Ops, 2, 3);
    p4, rounds := Pow(Ops, 2, 4);
  }
}
