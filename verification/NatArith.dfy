/** Powers of two and small facts about products and quotients of natural numbers. */
module NatArith {
  const U32: nat := 0x1_0000_0000
  const U64_MAX: nat := 0xFFFF_FFFF_FFFF_FFFF

  function Least(x: nat, y: nat): nat {
    if x <= y then x else y
  }

  function Pow2(n: nat): (r: nat)
    ensures r >= 1
  {
    if n == 0 then 1 else 2 * Pow2(n - 1)
  }

  lemma {:induction false} Pow2Mono(a: nat, b: nat)
    requires a <= b
    ensures Pow2(a) <= Pow2(b)
  {
    if a < b {
      Pow2Mono(a, b - 1);
    }
  }

  lemma {:induction false} Pow2Add(a: nat, b: nat)
    ensures Pow2(a + b) == Pow2(a) * Pow2(b)
  {
    if a > 0 {
      Pow2Add(a - 1, b);
      assert Pow2(a + b) == 2 * Pow2(a - 1 + b);
      MulAssoc(2, Pow2(a - 1), Pow2(b));
    }
  }

  lemma MulMono(x: nat, y: nat, n: nat)
    requires x <= y
    ensures x * n <= y * n
  {
  }

  lemma DivMono(a: nat, b: nat, n: nat)
    requires a <= b && n > 0
    ensures a / n <= b / n
  {
    var x, y := a / n, b / n;
    assert a == n * x + a % n && b == n * y + b % n;
    if x > y {
      MulMono(y + 1, x, n);
    }
  }

  lemma MulAssoc(a: nat, b: nat, c: nat)
    ensures a * (b * c) == a * b * c
  {
  }

  lemma MulStrict(a: nat, b: nat, c: nat)
    requires a < b && c > 0
    ensures a * c < b * c
  {
  }

  lemma Cancel(a: nat, b: nat, c: nat)
    requires c > 0
    ensures a * c == b * c <==> a == b
  {
  }

  lemma Divides(a: nat, c: nat, q: nat)
    requires c > 0
    ensures a == q * c <==> a % c == 0 && a / c == q
  {
    assert a == (a / c) * c + a % c;
    if a == q * c {
      MulMod(q, c);
    }
  }

  lemma {:induction false} MulMod(q: nat, c: nat)
    requires c > 0
    ensures q * c % c == 0 && q * c / c == q
  {
    var d, r := q * c / c, q * c % c;
    assert q * c == d * c + r;
    if d < q {
      MulStrict(d, q, c);
      assert q * c - d * c == (q - d) * c;
      if q - d > 1 {
        MulStrict(1, q - d, c);
      }
    } else if d > q {
      MulStrict(q, d, c);
    }
  }
}
