/** C integer arithmetic that Dafny's own operators do not give. */
module Arith {

  /** C's `/` on signed operands: the quotient is truncated toward zero. */
  function TruncDiv(x: int, y: int): (q: int)
    requires y > 0
    ensures x >= 0 ==> q * y <= x < q * y + y
    ensures x <= 0 ==> q * y - y < x <= q * y
  {
    if x >= 0 then x / y else -((-x) / y)
  }

  function Min(x: int, y: int): int {
    if x <= y then x else y
  }

  function Clamp(x: int, lo: int, hi: int): int {
    if x > hi then hi else if x < lo then lo else x
  }

  /** The value a 32-bit unsigned register holds after `x` is stored in it. */
  function Wrap32(x: int): (w: int)
    ensures 0 <= w < 0x1_0000_0000
  {
    x % 0x1_0000_0000
  }

  /** n times y, by repeated addition. */
  function Times(n: int, y: int): int
    decreases if n < 0 then -n else n
  {
    if n == 0 then 0 else if n > 0 then Times(n - 1, y) + y else Times(n + 1, y) - y
  }

  lemma {:induction false} TimesIsProduct(n: int, y: int)
    ensures Times(n, y) == n * y
    decreases if n < 0 then -n else n
  {
    if n > 0 {
      TimesIsProduct(n - 1, y);
    } else if n < 0 {
      TimesIsProduct(n + 1, y);
    }
  }

  lemma {:induction false} TimesGrows(n: nat, y: nat)
    ensures Times(n, y) >= 0 && (n > 0 ==> Times(n, y) >= y)
  {
    if n > 0 {
      TimesGrows(n - 1, y);
    }
  }

  lemma {:induction false} TimesMonotone(m: nat, n: nat, y: nat)
    requires m <= n
    ensures Times(m, y) <= Times(n, y)
    decreases n
  {
    if m < n {
      TimesMonotone(m, n - 1, y);
    }
  }
}
