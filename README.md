# g2p: generic exponentiation in binary Galois fields

g2p generates GF(2^n) field types. Each generated type implements the
`GaloisField` trait in `src/lib.rs`. The trait declares the field's operators
and the constants `ZERO`, `ONE` and `GENERATOR`. It gives one default method,
`pow(self, p: usize)`. That method is square-and-multiply exponentiation. It
starts with the accumulator at `ONE` and a one-bit mask at the top bit of a
`usize`. It checks that shifting the mask once more overflows to 0. Then, for
each mask position from the top down, it squares the accumulator, multiplies
it by `self` when that bit of `p` is set, and shifts the mask right.

This project models `pow` and proves it correct:

- `usize.dfy` (module `Usize`): a `usize` as a natural below 2^64, with `<<`,
  `>>` and `&` written out on naturals.
- `galois_field.dfy` (module `GaloisField`): the element type is a type
  parameter. Its `ONE` and `*` are a `MulOps` record, and the monoid laws
  (associativity, `ONE` as identity) are a precondition. `Power` is the
  specification: `ONE` multiplied by `x`, `p` times. `Pow` is the method with
  the source's loop. It is proved to return `Power(x, p)` for every `p`, after
  exactly 64 iterations.
- `gf16.dfy` (module `Gf16`): a concrete GF(16) modulo x^4 + x + 1 on 4-bit
  elements. Multiplication goes through exponent and logarithm tables of the
  generator x. The model proves that the exponent table lists successive
  products by x modulo x^4 + x + 1, and that the two tables are inverse to
  each other. From that it proves the multiplication is a monoid. It states
  the `pow` documentation example as the contract of calls to `Pow`.
- `gf4.dfy` (module `Gf4`): a concrete GF(4) modulo x^2 + x + 1. It shows that
  the `GENERATOR` documentation example cannot hold (see Findings).

## Model

| member | source | states |
|---|---|---|
| `GaloisField.Pow` | src/lib.rs:64-76 | For every `usize` exponent `p`, the loop returns `Power(x, p)`: `x` multiplied by itself `p` times. In particular it returns `ONE` for `p == 0` and `x` for `p == 1`. The loop runs exactly 64 times. The invariants say the mask is bit `k - 1` (or 0 once `k == 0`) and the accumulator is `x` raised to the bits of `p` at or above position `k`. The `assert_eq!(pow_pos << 1, 0)` is proved to hold. |
| `GaloisField.SquareAndMultiplyStep` | src/lib.rs:69-72 | One loop round is correct: squaring `x^(q/2)`, then multiplying by `x` when the low bit of `q` is set, gives `x^q`. Needs associativity and the identity. |
| `GaloisField.ScanOneBit` | src/lib.rs:69-72 | The loop body scans bit `k - 1`. From `x` raised to the bits of `p` at or above position `k`, squaring and then multiplying by `x` when `(1 << (k - 1)) & p > 0` gives `x` raised to the bits at or above position `k - 1`. |
| `GaloisField.PowerAdd` | src/lib.rs:47-49 | Exponents add: `x^(a+b) == x^a * x^b`, for any monoid. |
| `GaloisField.PowerOne` | src/lib.rs:59 | `x^1 == x`. |
| `GaloisField.LeadingSquaringsKeepOne` | src/lib.rs:65-69 | While all bits of `p` at or above the mask are zero, the accumulator value is `ONE` and squaring it leaves `ONE`. The first round, and every round over leading zero bits, is a no-op. |
| `Usize.TopBitOverflows` | src/lib.rs:66-67 | `1 << 63` is 2^63, and shifting it left once more in a 64-bit word gives 0, so the assertion on line 67 never fails. |
| `Usize.BitAndSingleBit` | src/lib.rs:70 | `(1 << k) & p` is `1 << k` when bit `k` of `p` (that is `(p >> k) % 2`) is set, and 0 otherwise. So the test `> 0` reads exactly bit `k`. |
| `Usize.ShrBelow` | src/lib.rs:66-68 | A value below 2^k has no bits at position `k` or above. So the scan, which starts at the top of the word, starts with an empty prefix of `p`. |
| `Usize.ShrLowFirst` | src/lib.rs:73 | Shifting right by `k + 1` equals dropping the lowest bit and then shifting by `k`. `ShrBelow` and `BitAndSingleBit` are proved with it. |
| `Usize.MaskHalves` | src/lib.rs:73 | `pow_pos >>= 1` moves the one-bit mask from bit `k - 1` to bit `k - 2`, and clears it when it was bit 0. So the loop stops after bit 0. |
| `Gf16.OpsIsMonoid` | src/lib.rs:55 | GF(16) multiplication modulo x^4 + x + 1 is associative with identity 1. So `Pow`'s contract applies to GF16. |
| `Gf16.ExpTableIsPowersOfTwo` | src/lib.rs:55 | The exponent table starts at 1, and each entry is the previous one multiplied by x modulo x^4 + x + 1 (`Times2`). Fifteen steps lead back to 1. |
| `Gf16.TablesInverse` | src/lib.rs:55 | The logarithm table inverts the exponent table in both directions, and no exponent entry is 0. |
| `Gf16.TableMulAssociative` | src/lib.rs:20 | For any pair of inverse tables, multiplication through them is associative. |
| `Gf16.MulAssociative` | src/lib.rs:20 | GF(16) multiplication is associative for every triple of elements. |
| `Gf16.OneIsIdentity` | src/lib.rs:30 | `ONE` (the element 1) is the identity of GF(16) multiplication on both sides. |
| `Gf16.MulByTwo` | src/lib.rs:55 | For every element `a`, multiplying by 2 through the tables equals shifting `a` left and reducing with x^4 == x + 1. |
| `Gf16.PowersOfTwo` | src/lib.rs:58-62 | The powers 0 to 4 of the element 2 are 1, 2, 4, 8 and 3. |
| `Gf16.PowDocExample` | src/lib.rs:55-62 | For the element 2 of GF16, `pow` returns `ONE`, 2, 4, 8, 3 for exponents 0 to 4. |
| `Gf4.TwoGenerates` | src/lib.rs:31-33 | In GF(4), the powers of 2 are exactly the non-zero elements {1, 2, 3}. |
| `Gf4.MulAssociative` | src/lib.rs:20 | GF(4) multiplication is associative for every triple of elements. |
| `Gf4.OpsIsMonoid` | src/lib.rs:38 | GF(4) multiplication modulo x^2 + x + 1 is associative with identity 1. |
| `Gf4.GeneratorDocExampleAsWritten` | src/lib.rs:38-43 | For every generator `g` of GF(4), `g * g != ONE` holds. But `g * g * g == ONE`, which contradicts line 42. And `g * g * g * g == g != ONE`, which contradicts line 43. |
| `Gf4.GeneratorOrder` | src/lib.rs:31-45 | A generator of GF(4) has order exactly 3: `g^3 == ONE`, while `g^1` and `g^2` are not `ONE`. |
| `Gf4.GeneratorPowers` | src/lib.rs:38-43 | The corrected example, stated as the contract of calls to `Pow`: `g.pow(2) != ONE` and `g.pow(3) == ONE` for every generator `g` of GF(4). |

## Left out

- The `g2p` procedural macro (src/lib.rs:10) is not part of this model. That
  includes modulus choice, the irreducibility check, generator search, table
  generation and the generated operator code. GF16 and GF4 are written here
  directly, modulo x^4 + x + 1 and x^2 + x + 1. For GF4 that modulus is the
  only one possible. For GF16 the `pow` example (2^4 == 3, so x^4 == x + 1)
  forces it. GF16's tables are given as constants and proved to be the powers
  of x. GF4 multiplies polynomials on 2-bit vectors.
- The trait's operator bounds, `Copy`, `PartialEq`, `Eq` and the constant
  `ZERO` (src/lib.rs:15-29) are declarations with no behaviour of their own.
  `pow` uses only `ONE` and `*`, which `MulOps` holds. `GENERATOR`
  (src/lib.rs:31-45) has no value outside the macro. `Gf4` models its
  documented property with the predicate `Generates`.
- `GaloisField.Pow`: the word width is fixed at 64 bits. On a 32-bit target
  `size_of::<usize>() * 8` is 32. The proof does not otherwise depend on the
  width.
- `val *= val` and `val *= self` are modelled as `val := val * val` and
  `val := val * self`. This is an assumption: the model assumes that every
  `GaloisField` type's `*=` stores the result of `*`. Rust does not tie
  `MulAssign` to `Mul`, and the macro's generated operators are not part of
  this model.
- Exponent laws beyond `PowerAdd` (such as `x^(a*b) == (x^a)^b`) are not
  asserted by the source and are not stated.

## Findings

| source | as written | input that shows it | evidently intended | confidence | as-written member | corrected member |
|---|---|---|---|---|---|---|
| src/lib.rs:41-43 | The `GENERATOR` example for GF4 asserts `g * g * g != ONE` and `g * g * g * g == ONE`. | Any generator of GF(4), for example `g = 2`: `2 * 2 * 2 == 1` and `2 * 2 * 2 * 2 == 2`. | The group of non-zero elements of GF(4) has 3 elements, so a generator has order 3: `g * g * g == ONE` and `g * g != ONE`. | high; not executed (the macro that builds GF4 is not part of this model, but GF(4) has only one possible modulus) | `Gf4.GeneratorDocExampleAsWritten` | `Gf4.GeneratorOrder` |
