/**
 Products and quotients of reals, one step at a time. Proofs elsewhere hide the body of `Times`
 and use these facts, so that nonlinear arithmetic stays here.
 */
module RealArith {
  function Times(a: real, b: real): real {
    a * b
  }

  lemma TimesIsProduct(a: real, b: real)
    ensures Times(a, b) == a * b
  {
  }

  lemma TimesMono(a: real, b: real, c: real)
    requires a <= b && c >= 0.0
    ensures Times(a, c) <= Times(b, c)
    ensures Times(c, a) <= Times(c, b)
  {
  }

  lemma TimesStrict(a: real, b: real, c: real)
    requires a < b && c > 0.0
    ensures Times(a, c) < Times(b, c)
  {
  }

  lemma TimesZero(a: real)
    ensures Times(a, 0.0) == 0.0 == Times(0.0, a)
  {
  }

  lemma TimesCommutes(a: real, b: real)
    ensures Times(a, b) == Times(b, a)
  {
  }

  lemma TimesNeg(a: real, b: real)
    ensures Times(a, -b) == -Times(a, b) == Times(-a, b)
  {
  }

  lemma TimesSum(a: real, b: real, c: real)
    ensures Times(a + b, c) == Times(a, c) + Times(b, c)
    ensures Times(c, a + b) == Times(c, a) + Times(c, b)
  {
  }

  lemma TimesDiff(a: real, b: real, c: real)
    ensures Times(a - b, c) == Times(a, c) - Times(b, c)
    ensures Times(c, a - b) == Times(c, a) - Times(c, b)
  {
  }

  /** If `c` is at most `m` a unit over `x` units and growth is at least `m` a unit, ratios grow. */
  lemma RatioGrows(c: real, d: real, m: real, x: real, y: real)
    requires 0.0 < x <= y
    requires c <= Times(m, x) && d - c >= Times(m, y - x)
    ensures Times(c, y) <= Times(d, x)
  {
  }

  /** Comparing quotients by cross-multiplication. */
  lemma DivLe(a: real, b: real, c: real)
    requires c > 0.0
    ensures a / c <= b <==> a <= Times(b, c)
  {
  }

  lemma DivGe(a: real, b: real, c: real)
    requires c > 0.0
    ensures a / c >= b <==> a >= Times(b, c)
  {
  }

  lemma CrossDivide(c: real, x: real, d: real, y: real)
    requires x > 0.0 && y > 0.0 && Times(c, y) <= Times(d, x)
    ensures c / x <= d / y
  {
  }

  // ----- Plain products and quotients ---------------------------------------------

  lemma MulMono(a: real, b: real, c: real)
    requires a <= b && c >= 0.0
    ensures a * c <= b * c
  {
  }

  lemma MulStrict(a: real, b: real, c: real)
    requires a < b && c > 0.0
    ensures a * c < b * c
  {
  }

  lemma DivMul(a: real, c: real)
    requires c != 0.0
    ensures a / c * c == a
  {
  }

  lemma NegDiv(a: real, c: real)
    requires c != 0.0
    ensures (-a) / c == -(a / c)
  {
  }

  lemma DivMono(a: real, b: real, c: real)
    requires a <= b && c > 0.0
    ensures a / c <= b / c
  {
  }

  lemma PositiveQuotient(a: real, c: real)
    requires a > 0.0 && c > 0.0
    ensures a / c > 0.0
  {
  }

  lemma NonNegativeQuotient(a: real, c: real)
    requires a >= 0.0 && c > 0.0
    ensures a / c >= 0.0
  {
  }
}
