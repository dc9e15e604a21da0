/**
 Token amounts: scaling human-readable decimals to raw integers and back. A decimal has a
 96-bit mantissa and at most 28 fractional digits; a product that does not fit loses
 fractional digits by rounding, and overflows when none are left.
 */
module Amounts {
  import opened NatArith
  import opened Options

  const MANTISSA_LIMIT: nat := 0x1_0000_0000_0000_0000_0000_0000   // 2^96
  const MAX_SCALE: nat := 28

  function Pow10(n: nat): (r: nat)
    ensures r >= 1
  {
    if n == 0 then 1 else 10 * Pow10(n - 1)
  }

  datatype Decimal = Decimal(negative: bool, mantissa: nat, scale: nat)

  predicate Valid(d: Decimal) {
    d.mantissa < MANTISSA_LIMIT && d.scale <= MAX_SCALE
  }

  /** Two decimals denote the same number (of equal sign). */
  predicate SameValue(a: Decimal, b: Decimal) {
    a.negative == b.negative && a.mantissa * Pow10(b.scale) == b.mantissa * Pow10(a.scale)
  }

  datatype TokenAmount = TokenAmount(raw: nat, decimals: nat)

  datatype AmountError = Unparsable | Negative | Inexact | Overflow

  /** Ten to the number of decimals, or one when that does not fit a decimal. */
  function GetScale(decimals: nat): nat {
    if Pow10(decimals) < MANTISSA_LIMIT then Pow10(decimals) else 1
  }

  /** Drops fractional digits, rounding half up, until the mantissa fits. */
  function Reduced(n: nat, scale: nat): Option<Decimal> {
    if n < MANTISSA_LIMIT then Some(Decimal(false, n, scale))
    else if scale == 0 then None
    else Reduced((n + 5) / 10, scale - 1)
  }

  function Multiply(d: Decimal, k: nat): Option<Decimal> {
    Reduced(d.mantissa * k, d.scale)
  }

  function FromHuman(amount: Option<Decimal>, decimals: nat): Result<TokenAmount, AmountError> {
    if amount.None? then Err(Unparsable)
    else if amount.value.negative then Err(Negative)
    else
      var product := Multiply(amount.value, GetScale(decimals));
      if product.None? then Err(Overflow)
      else if product.value.mantissa % Pow10(product.value.scale) != 0 then Err(Inexact)
      else Ok(TokenAmount(product.value.mantissa / Pow10(product.value.scale), decimals))
  }

  /** Divides digit by digit: the quotient's mantissa and scale, cut off after 28 fractional digits. */
  function LongDivision(n: nat, k: nat, scale: nat): (nat, nat)
    requires k > 0 && scale <= MAX_SCALE
    decreases MAX_SCALE - scale
  {
    if n % k == 0 || scale == MAX_SCALE then (n / k, scale) else LongDivision(10 * n, k, scale + 1)
  }

  /** The human-readable value, unless the raw amount does not fit a decimal. */
  function Human(t: TokenAmount): Option<Decimal> {
    if t.raw >= MANTISSA_LIMIT then None
    else
      var (mantissa, scale) := LongDivision(t.raw, GetScale(t.decimals), 0);
      Some(Decimal(false, mantissa, scale))
  }

  // ----- Powers of ten ------------------------------------------------------------------------

  lemma {:induction false} Pow10Add(a: nat, b: nat)
    ensures Pow10(a + b) == Pow10(a) * Pow10(b)
  {
    if a > 0 {
      Pow10Add(a - 1, b);
      assert Pow10(a + b) == 10 * Pow10(a - 1 + b);
      MulAssoc(10, Pow10(a - 1), Pow10(b));
    }
  }

  lemma ScaleFits(decimals: nat)
    ensures Pow10(decimals) < MANTISSA_LIMIT <==> decimals <= MAX_SCALE
  {
    hide Pow10;
    Pow10Values();
    if decimals <= 28 {
      Pow10Mono(decimals, 28);
    } else {
      Pow10Mono(29, decimals);
    }
  }

  lemma {:induction false} Pow10Mono(a: nat, b: nat)
    requires a <= b
    ensures Pow10(a) <= Pow10(b)
  {
    if a < b {
      Pow10Mono(a, b - 1);
    }
  }

  lemma Pow10Values()
    ensures Pow10(28) < MANTISSA_LIMIT <= Pow10(29)
  {
    assert Pow10(4) == 10_000 by {
      assert Pow10(2) == 100;
    }
    assert Pow10(7) == 10_000_000 by {
      assert Pow10(6) == 1_000_000 by {
        assert Pow10(5) == 100_000;
      }
    }
    Pow10Add(7, 7);
    Pow10Add(14, 14);
    Pow10Add(1, 28);
  }

  // ----- Multiplying by a power of ten never rounds -------------------------------------------------

  /** The product drops `t` digits, all of them zeros; it overflows only with every digit dropped. */
  lemma {:induction false} ReducedIsExact(m: nat, d: nat, s: nat) returns (t: nat)
    requires m < MANTISSA_LIMIT
    ensures t <= d && t <= s
    ensures var product, kept := Reduced(m * Pow10(d), s), m * Pow10(d - t);
      && (kept < MANTISSA_LIMIT ==> product == Some(Decimal(false, kept, s - t)))
      && (kept >= MANTISSA_LIMIT ==> product == None && t == s)
    decreases s
  {
    var n := m * Pow10(d);
    if n < MANTISSA_LIMIT || s == 0 {
      t := 0;
    } else {
      assert d > 0;
      MulAssoc(m, 10, Pow10(d - 1));
      var n' := m * Pow10(d - 1);
      assert n == 10 * n' && (n + 5) / 10 == n';
      var t' := ReducedIsExact(m, d - 1, s - 1);
      t := t' + 1;
    }
  }

  lemma SplitProduct(m: nat, a: nat, b: nat)
    ensures m * Pow10(a + b) == m * Pow10(a) * Pow10(b)
  {
    Pow10Add(a, b);
    MulAssoc(m, Pow10(a), Pow10(b));
  }

  /**
   For up to 28 decimals, an amount is accepted with raw value `raw` exactly when it is not
   negative, it scales to that integer, and the integer fits 96 bits.
   */
  lemma FromHumanIsExact(a: Decimal, decimals: nat, raw: nat)
    requires Valid(a) && decimals <= MAX_SCALE
    ensures FromHuman(Some(a), decimals) == Ok(TokenAmount(raw, decimals)) <==>
              !a.negative && raw < MANTISSA_LIMIT && raw * Pow10(a.scale) == a.mantissa * Pow10(decimals)
  {
    hide Pow10, Reduced;
    var m, s, d := a.mantissa, a.scale, decimals;
    ScaleFits(d);
    var t := ReducedIsExact(m, d, s);
    var top := m * Pow10(d - t);
    DropZeros(raw, m, s, d, t);
    Divides(top, Pow10(s - t), raw);
    PowZero();
    if top < MANTISSA_LIMIT {
      QuotientFits(top, Pow10(s - t));
    }
  }

  /**
   A refusal names what is wrong: the text does not parse, the amount is negative, its scaled value
   reaches 2^96, or it is not a whole number.
   */
  lemma RefusalIsExact(a: Decimal, decimals: nat)
    requires Valid(a) && decimals <= MAX_SCALE
    ensures FromHuman(None, decimals) == Err(Unparsable)
    ensures FromHuman(Some(a), decimals) == Err(Negative) <==> a.negative
    ensures FromHuman(Some(a), decimals) == Err(Overflow) <==>
      !a.negative && a.mantissa * Pow10(decimals) >= 0x1_0000_0000_0000_0000_0000_0000 * Pow10(a.scale)
    ensures FromHuman(Some(a), decimals) == Err(Inexact) <==>
      && !a.negative && a.mantissa * Pow10(decimals) < 0x1_0000_0000_0000_0000_0000_0000 * Pow10(a.scale)
      && a.mantissa * Pow10(decimals) % Pow10(a.scale) != 0
  {
    hide Pow10, Reduced;
    var m, s, d := a.mantissa, a.scale, decimals;
    ScaleFits(d);
    var t := ReducedIsExact(m, d, s);
    PowZero();
    OverflowsExactly(m, d, s, t);
    WholeExactly(m, d, s, t);
  }

  lemma WholeExactly(m: nat, d: nat, s: nat, t: nat)
    requires t <= s && t <= d
    ensures m * Pow10(d) % Pow10(s) == 0 <==> m * Pow10(d - t) % Pow10(s - t) == 0
  {
    hide Pow10;
    var whole, kept := m * Pow10(d), m * Pow10(d - t);
    var raw, other := whole / Pow10(s), kept / Pow10(s - t);
    Divides(whole, Pow10(s), raw);
    Divides(kept, Pow10(s - t), raw);
    Divides(whole, Pow10(s), other);
    Divides(kept, Pow10(s - t), other);
    DropZeros(raw, m, s, d, t);
    DropZeros(other, m, s, d, t);
  }

  /** Dropping `t` zeros from both sides does not change which is larger, and the limit only counts in full. */
  lemma OverflowsExactly(m: nat, d: nat, s: nat, t: nat)
    requires t <= s && t <= d
    ensures m * Pow10(d) >= MANTISSA_LIMIT * Pow10(s) <==> m * Pow10(d - t) >= MANTISSA_LIMIT * Pow10(s - t)
    ensures m * Pow10(d - t) < MANTISSA_LIMIT ==> m * Pow10(d - t) < MANTISSA_LIMIT * Pow10(s - t)
  {
    hide Pow10;
    SplitProduct(m, d - t, t);
    SplitProduct(MANTISSA_LIMIT, s - t, t);
    var x, y, c := m * Pow10(d - t), MANTISSA_LIMIT * Pow10(s - t), Pow10(t);
    if x >= y {
      MulMono(y, x, c);
    } else {
      MulStrict(x, y, c);
    }
  }

  lemma DropZeros(raw: nat, m: nat, s: nat, d: nat, t: nat)
    requires t <= s && t <= d
    ensures raw * Pow10(s) == m * Pow10(d) <==> m * Pow10(d - t) == raw * Pow10(s - t)
  {
    hide Pow10;
    SplitProduct(raw, s - t, t);
    SplitProduct(m, d - t, t);
    Cancel(raw * Pow10(s - t), m * Pow10(d - t), Pow10(t));
  }

  lemma PowZero()
    ensures Pow10(0) == 1
  {
  }

  lemma QuotientFits(n: nat, c: nat)
    requires n < MANTISSA_LIMIT && c >= 1
    ensures n / c < MANTISSA_LIMIT
  {
  }

  // ----- Round trips -------------------------------------------------------------------------------------

  /** The number of decimals the scale stands for. */
  function ScaleDigits(decimals: nat): nat {
    if decimals <= MAX_SCALE then decimals else 0
  }

  lemma ScaleIsPower(decimals: nat)
    ensures GetScale(decimals) == Pow10(ScaleDigits(decimals))
  {
    hide Pow10;
    ScaleFits(decimals);
    PowZero();
  }

  /** Dividing by a power of ten that a decimal can hold never cuts a digit off. */
  lemma {:induction false} DivisionIsExact(raw: nat, d: nat, j: nat)
    requires j <= d <= MAX_SCALE
    ensures var (mantissa, scale) := LongDivision(raw * Pow10(j), Pow10(d), j);
      scale <= d && mantissa * Pow10(d) == raw * Pow10(scale)
    decreases d - j
  {
    hide Pow10;
    var n, k := raw * Pow10(j), Pow10(d);
    if n % k == 0 {
      Divides(n, k, n / k);
    } else if j == d {
      MulMod(raw, k);
    } else {
      SplitProduct(raw, j, 1);
      PowOne();
      DivisionIsExact(raw, d, j + 1);
    }
  }

  lemma DivisionByOne(n: nat)
    ensures LongDivision(n, 1, 0) == (n, 0)
  {
  }

  lemma PowOne()
    ensures Pow10(1) == 10
  {
    assert Pow10(0) == 1;
  }

  /**
   `Human` answers if and only if the raw amount fits 96 bits. What it returns then denotes the raw
   amount over the scale, and is a valid decimal.
   */
  lemma HumanIsExact(t: TokenAmount)
    ensures Human(t).Some? <==> t.raw < 0x1_0000_0000_0000_0000_0000_0000
    ensures match Human(t)
            case None => true
            case Some(h) =>
              && Valid(h) && !h.negative
              && h.mantissa * Pow10(ScaleDigits(t.decimals)) == t.raw * Pow10(h.scale)
              && (t.decimals > MAX_SCALE ==> h == Decimal(false, t.raw, 0))
  {
    hide Human;
    if t.raw < MANTISSA_LIMIT {
      HumanOfFitting(t);
    } else {
      HumanOfLarge(t);
    }
  }

  lemma HumanOfLarge(t: TokenAmount)
    requires t.raw >= MANTISSA_LIMIT
    ensures Human(t).None?
  {
  }

  lemma HumanOfFitting(t: TokenAmount)
    requires t.raw < MANTISSA_LIMIT
    ensures Human(t).Some? && Valid(Human(t).value) && !Human(t).value.negative
    ensures var h := Human(t).value;
      && h.mantissa * Pow10(ScaleDigits(t.decimals)) == t.raw * Pow10(h.scale)
      && (t.decimals > MAX_SCALE ==> h == Decimal(false, t.raw, 0))
  {
    hide Pow10, LongDivision;
    var d := ScaleDigits(t.decimals);
    DivisionByOne(t.raw);
    ScaleIsPower(t.decimals);
    PowZero();
    DivisionIsExact(t.raw, d, 0);
    var h := Human(t).value;
    Pow10Mono(h.scale, d);
    NoLarger(t.raw, Pow10(h.scale), h.mantissa, Pow10(d));
  }

  lemma NoLarger(raw: nat, a: nat, m: nat, b: nat)
    requires a <= b && b > 0 && m * b == raw * a
    ensures m <= raw
  {
    MulMono(a, b, raw);
    if m > raw {
      MulStrict(raw, m, b);
    }
  }

  /** A raw amount of up to 96 bits reads back as itself, for any number of decimals. */
  lemma HumanThenRaw(t: TokenAmount)
    requires t.raw < MANTISSA_LIMIT
    ensures Human(t).Some? && Valid(Human(t).value)
    ensures FromHuman(Human(t), t.decimals) == Ok(t)
  {
    hide Pow10, Reduced, Human;
    HumanIsExact(t);
    var h := Human(t).value;
    if t.decimals <= MAX_SCALE {
      FromHumanIsExact(h, t.decimals, t.raw);
    } else {
      UnscaledFromHuman(h, t.decimals);
      PowZero();
    }
  }

  /** Two fractions equal to the same raw amount are equal. */
  lemma SameFraction(raw: nat, m: nat, s: nat, n: nat, u: nat, k: nat)
    requires k > 0 && m * k == raw * s && n * k == raw * u
    ensures m * u == n * s
  {
    calc {
      m * u * k;
      m * k * u;
      raw * s * u;
      raw * u * s;
      n * k * s;
      n * s * k;
    }
    Cancel(m * u, n * s, k);
  }

  /** An accepted amount reads back as a decimal of the same value. */
  lemma RawThenHuman(a: Decimal, decimals: nat)
    requires Valid(a)
    ensures match FromHuman(Some(a), decimals)
            case Ok(t) => Human(t).Some? && SameValue(Human(t).value, a)
            case Err(_) => true
  {
    hide Pow10, Reduced, Human;
    match FromHuman(Some(a), decimals) {
      case Ok(t) =>
        AcceptedValue(a, decimals);
        HumanIsExact(t);
        var h, k := Human(t).value, Pow10(ScaleDigits(decimals));
        SameFraction(t.raw, h.mantissa, Pow10(h.scale), a.mantissa, Pow10(a.scale), k);
      case Err(_) =>
    }
  }

  /** The raw value of an accepted amount is the amount times the scale. */
  lemma AcceptedValue(a: Decimal, decimals: nat)
    requires Valid(a)
    ensures match FromHuman(Some(a), decimals)
            case Ok(t) =>
              && !a.negative && t.decimals == decimals && t.raw < MANTISSA_LIMIT
              && a.mantissa * Pow10(ScaleDigits(decimals)) == t.raw * Pow10(a.scale)
            case Err(_) => true
  {
    hide Pow10, Reduced;
    match FromHuman(Some(a), decimals) {
      case Ok(t) =>
        if decimals <= MAX_SCALE {
          FromHumanIsExact(a, decimals, t.raw);
        } else {
          UnscaledFromHuman(a, decimals);
          Divides(a.mantissa, Pow10(a.scale), t.raw);
          QuotientFits(a.mantissa, Pow10(a.scale));
          PowZero();
        }
      case Err(_) =>
    }
  }

  /** Past 28 decimals the scale falls back to one, and the amount is taken as raw units. */
  lemma UnscaledFromHuman(a: Decimal, decimals: nat)
    requires Valid(a) && !a.negative && decimals > MAX_SCALE
    ensures FromHuman(Some(a), decimals) ==
              if a.mantissa % Pow10(a.scale) == 0
              then Ok(TokenAmount(a.mantissa / Pow10(a.scale), decimals))
              else Err(Inexact)
  {
    hide Pow10;
    ScaleFits(decimals);
    assert Multiply(a, 1) == Some(Decimal(false, a.mantissa, a.scale));
  }

  /** So an accepted amount means `raw / 10^decimals` exactly up to 28 decimals, and past that only if it is zero. */
  lemma ScalingHoldsExactly(a: Decimal, decimals: nat)
    requires Valid(a)
    ensures match FromHuman(Some(a), decimals)
            case Ok(t) =>
              (t.raw * Pow10(a.scale) == a.mantissa * Pow10(decimals)) <==> (decimals <= MAX_SCALE || a.mantissa == 0)
            case Err(_) => true
  {
    hide Pow10, Reduced;
    match FromHuman(Some(a), decimals) {
      case Ok(t) =>
        if decimals <= MAX_SCALE {
          FromHumanIsExact(a, decimals, t.raw);
        } else {
          UnscaledFromHuman(a, decimals);
          Divides(a.mantissa, Pow10(a.scale), t.raw);
          ScaleFits(decimals);
          if a.mantissa > 0 {
            MulStrict(1, Pow10(decimals), a.mantissa);
          }
        }
      case Err(_) =>
    }
  }
}
