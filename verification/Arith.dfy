/** Numbers: the safe integers, minimum and maximum, multiplication and division facts.

    Division is by a positive number throughout, where Euclidean division, flooring and the truncation
    of the originals agree for numbers that are not negative; the facts keep non-linear terms out of the
    other modules' proofs. */
module Arith {

  /** `Number.MAX_SAFE_INTEGER` */
  const MAX_SAFE: int := 9007199254740991

  function Min(a: int, b: int): int { if a <= b then a else b }

  function Max(a: int, b: int): int { if a >= b then a else b }

  function Quotient(a: nat, b: nat): nat
    requires b > 0
  {
    a / b
  }

  function Remainder(a: nat, b: nat): (r: nat)
    requires b > 0
    ensures r < b
  {
    a % b
  }

  lemma MulMono(a: nat, b: int, c: int)
    requires b <= c
    ensures a * b <= a * c
  {
  }

  /** Quotient and remainder make up the number. */
  lemma DivMod(m: int, d: int)
    requires d > 0
    ensures m == d * (m / d) + m % d && 0 <= m % d < d
  {
  }

  lemma DivLower(m: int, d: int, q: int)
    requires d > 0 && d * q <= m
    ensures q <= m / d
  {
    if m / d < q {
      MulMono(d, m / d + 1, q);
    }
  }

  lemma DivUpper(m: int, d: int, q: int)
    requires d > 0 && m < d * (q + 1)
    ensures m / d <= q
  {
    if m / d > q {
      MulMono(d, q + 1, m / d);
    }
  }

  /** The quotient is the only integer with the remainder in range. */
  lemma DivIs(m: int, d: int, q: int)
    requires d > 0 && d * q <= m < d * q + d
    ensures m / d == q
  {
    assert d * (q + 1) == d * q + d;
    DivLower(m, d, q);
    DivUpper(m, d, q);
  }
}
