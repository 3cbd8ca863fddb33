/** The handful of product facts the arithmetic proofs are stepped through. */
module Nonlinear {

  lemma MulLe(a: int, b: int, c: int)
    requires a <= b && 0 <= c
    ensures a * c <= b * c
  {
  }

  lemma Distribute(a: int, b: int, c: int)
    ensures (a + b) * c == a * c + b * c
    ensures (a - b) * c == a * c - b * c
  {
  }

  lemma Assoc(a: int, b: int, c: int)
    ensures (a * b) * c == a * (b * c) == b * (a * c)
  {
  }

  /** A multiple of `d` strictly between -d and d is zero. */
  lemma OnlyZeroMultiple(k: int, d: int)
    requires d > 0 && -d < k * d < d
    ensures k == 0
  {
    if k >= 1 {
      MulLe(1, k, d);
    }
    if k <= -1 {
      MulLe(k, -1, d);
    }
  }

  /** Cancelling a positive factor. */
  lemma CancelLt(a: int, b: int, c: int)
    requires a * c < b * c && 0 < c
    ensures a < b
  {
    if b <= a {
      MulLe(b, a, c);
    }
  }

  lemma CancelLe(a: int, b: int, c: int)
    requires a * c < b * c + c && 0 < c
    ensures a <= b
  {
    Distribute(b, 1, c);
    CancelLt(a, b + 1, c);
  }

  /** Quotient and remainder are unique. */
  lemma QuotRem(x: int, d: int, q: int, r: int)
    requires d > 0 && x == q * d + r && 0 <= r < d
    ensures x / d == q && x % d == r
  {
    Distribute(q, x / d, d);
    OnlyZeroMultiple(q - x / d, d);
  }
}
