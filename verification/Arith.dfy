/** Small facts about products and quotients of naturals. */
module Arith {
  lemma MulMono(a: int, b: int, c: int)
    requires a <= b && c >= 0
    ensures a * c <= b * c
  {
  }

  lemma DivBound(a: int, b: int)
    requires a >= 0 && b >= 1
    ensures 0 <= a / b && (a / b) * b <= a < (a / b) * b + b && a % b == a - (a / b) * b
  {
  }

  /** The quotient is the only q with q * b <= a < q * b + b. */
  lemma DivUnique(a: int, b: int, q: int)
    requires a >= 0 && b >= 1 && q * b <= a < q * b + b
    ensures a / b == q && a % b == a - q * b
  {
    var d := a / b;
    DivBound(a, b);
    if d < q {
      MulMono(d + 1, q, b);
    }
    if d > q {
      MulMono(q + 1, d, b);
    }
  }
}
