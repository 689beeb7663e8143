/** What the number texts of canonical forms look like, in terms of the numbers:
    normalizeNumber of frontend/src/lib/canonical-json.ts. */
module NumberForm {
  import opened JsonText
  import opened JsonNumber
  import opened NumberText
  import opened JsonScanner

  ghost function Times(m: nat, exp: int): real {
    m as real * Ten(exp)
  }

  ghost predicate IsInteger(v: real) {
    v == v.Floor as real
  }

  ghost function Size(v: real): real {
    if v < 0.0 then -v else v
  }

  /** Integers below 10^21 and fractions from 10^-6 on are written without an exponent. */
  ghost predicate IsPlain(v: real) {
    v == 0.0 || if IsInteger(Size(v)) then Size(v) < Ten(21) else Size(v) >= Ten(-6)
  }

  /** How v is written: no zero at the end of the fraction, a minus only below zero,
      and with an exponent one nonzero digit before the point. */
  ghost predicate IsForm(n: Literal, v: real) {
    && IsLiteral(n) && ValueOf(n) == v
    && (n.neg <==> v < 0.0)
    && (n.frac != [] ==> n.frac[|n.frac| - 1] != '0' as int)
    && (n.exp.NoExponent? <==> IsPlain(v))
    && (n.exp.Exponent? ==>
      && |n.whole| == 1 && n.whole[0] != '0' as int
      && n.exp.mark == 'e' as int && n.exp.sign != Positive && n.exp.digits[0] != '0' as int)
  }

  lemma {:induction false} NatBounds(t: Text)
    requires t != [] && IsDigits(t) && t[0] != ZERO
    ensures Pow10(|t| - 1) <= Nat(t) < Pow10(|t|)
  {
    hide *;
    var init := t[..|t| - 1];
    Digits(t);
    PowerIs(|t|);
    if |t| == 1 {
      NatZero();
      assert init == [];
    } else {
      Digits(init);
      NatBounds(init);
      PowerIs(|init|);
    }
  }

  lemma PowerIs(n: nat)
    requires n > 0
    ensures Pow10(n) == 10 * Pow10(n - 1) && Pow10(0) == 1
  {
  }

  /** The first digit, and what the last one adds. */
  lemma Digits(t: Text)
    requires t != [] && IsDigits(t) && t[0] != ZERO
    ensures IsDigits(t[..|t| - 1]) && IsDigit(t[|t| - 1])
    ensures
      var d := DigitValue(t[|t| - 1]);
      0 <= d < 10 && (|t| == 1 ==> d > 0) && Nat(t) == 10 * Nat(t[..|t| - 1]) + d
  {
    assert t[|t| - 1] in t;
  }

  lemma {:induction false} TenGrows(a: int, n: nat)
    ensures Ten(a) <= Ten(a + n) && (n > 0 ==> Ten(a) < Ten(a + n))
  {
    if n > 0 {
      TenGrows(a, n - 1);
      TenStep(a + n - 1);
    }
  }

  /** m has as many digits before the point as `end` says. */
  ghost predicate IsBetween(m: real, end: int) {
    Ten(end - 1) <= m < Ten(end)
  }

  lemma SizeOfDigits(digits: Text, exp: int)
    requires digits != [] && IsDigits(digits) && digits[0] != ZERO
    ensures IsBetween(Times(Nat(digits), exp), exp + |digits|)
  {
    hide *;
    NatBounds(digits);
    TenPlus(exp, |digits| - 1);
    TenPlus(exp, |digits|);
    var below, above := Ten(exp + |digits| - 1), Ten(exp + |digits|);
    assert exp + (|digits| - 1) == exp + |digits| - 1;
    Scale(Pow10(|digits| - 1), Nat(digits), Pow10(|digits|), Ten(exp), below, above);
    Between(Nat(digits), exp, exp + |digits|, below, above);
  }

  lemma Between(m: nat, exp: int, end: int, below: real, above: real)
    requires below == Ten(end - 1) && above == Ten(end) && below <= m as real * Ten(exp) < above
    ensures IsBetween(Times(m, exp), end)
  {
    hide Ten;
  }

  lemma Scale(low: nat, m: nat, high: nat, t: real, below: real, above: real)
    requires low <= m < high && t > 0.0 && below == low as real * t && above == high as real * t
    ensures below <= m as real * t < above
  {
    ProductIsPositive((m - low) as real, t);
    assert (high - m) as real >= 1.0;
    ProductIsPositive((high - m) as real - 1.0, t);
  }

  lemma ProductIsPositive(x: real, t: real)
    requires x >= 0.0 && t > 0.0
    ensures x * t >= 0.0
  {
  }

  /** A number is an integer if and only if its last nonzero digit is left of the point. */
  lemma IntegerIs(digits: Text, exp: int)
    requires digits != [] && IsDigits(digits) && digits[|digits| - 1] != ZERO
    ensures IsInteger(Times(Nat(digits), exp)) <==> exp >= 0
  {
    hide IsInteger, Nat, Ten, Pow10, Times;
    if exp >= 0 {
      Shifted(Nat(digits), exp);
      NatIsInteger(Nat(digits) * Pow10(exp));
    } else {
      LastDigit(digits);
      NotInteger(Nat(digits), -exp, exp);
    }
  }

  lemma Shifted(m: nat, exp: nat)
    ensures Times(m, exp) == (m * Pow10(exp)) as real
  {
    hide Ten, Pow10;
    Rescale(m, exp, 0);
    TenIsOne();
    assert 0 + exp == exp;
  }

  lemma NotInteger(m: nat, k: nat, exp: int)
    requires k > 0 && exp == 0 - k && m % 10 != 0
    ensures !IsInteger(Times(m, exp))
  {
    hide Ten, Pow10;
    var v := m as real * Ten(exp);
    PositiveProduct(m, exp);
    if IsInteger(v) {
      FloorTimes(v.Floor, k, exp, m);
      TensDivide(v.Floor, k);
    }
  }

  lemma TenIsOne()
    ensures Ten(0) == 1.0
  {
  }

  lemma FloorTimes(n: nat, k: nat, exp: int, m: nat)
    requires exp == 0 - k && m as real * Ten(exp) == n as real
    ensures m == n * Pow10(k)
  {
    hide Ten, Pow10;
    Rescale(n, k, exp);
    TenIsOne();
    CancelTen(m as real, (n * Pow10(k)) as real, exp);
  }

  lemma SizeOf(v: real)
    requires v > 0.0
    ensures Size(v) == v && Size(-v) == v
  {
  }

  lemma NatIsInteger(n: nat)
    ensures IsInteger(n as real)
  {
  }

  /** Which of the four layouts is taken, in terms of the number. */
  lemma PlainIs(neg: bool, digits: Text, exp: int)
    requires digits != [] && IsDigits(digits) && digits[0] != ZERO && digits[|digits| - 1] != ZERO
    ensures IsPlain(Scaled(neg, digits, exp)) <==>
        if exp >= 0 then exp + |digits| <= 21 else exp + |digits| > -6
    ensures Scaled(neg, digits, exp) != 0.0 && (Scaled(neg, digits, exp) < 0.0 <==> neg)
  {
    hide *;
    LeadingIsPositive(digits);
    PositiveProduct(Nat(digits), exp);
    SizeOfDigits(digits, exp);
    IntegerIs(digits, exp);
    TimesIs(Nat(digits), exp);
    SignedPlain(neg, digits, exp, Times(Nat(digits), exp));
  }

  lemma TimesIs(m: nat, exp: int)
    ensures Times(m, exp) == m as real * Ten(exp)
  {
  }

  lemma SignedPlain(neg: bool, digits: Text, exp: int, m: real)
    requires digits != [] && IsDigits(digits) && m == Times(Nat(digits), exp)
    requires m > 0.0 && IsBetween(m, exp + |digits|) && (IsInteger(m) <==> exp >= 0)
    ensures IsPlain(Scaled(neg, digits, exp)) <==>
        if exp >= 0 then exp + |digits| <= 21 else exp + |digits| > -6
    ensures Scaled(neg, digits, exp) != 0.0 && (Scaled(neg, digits, exp) < 0.0 <==> neg)
  {
    hide Ten, Nat, IsInteger, IsBetween;
    SizeOf(m);
    assert Scaled(neg, digits, exp) == if neg then -m else m;
    Compares(exp + |digits|, 21, m);
    Compares(exp + |digits|, -6, m);
  }

  /** A number between two neighbouring powers of ten, against another power. */
  lemma Compares(end: int, e: int, m: real)
    requires IsBetween(m, end)
    ensures m < Ten(e) <==> end <= e
  {
    hide Ten;
    if end <= e {
      TenGrows(end, e - end);
    } else {
      TenGrows(e, end - 1 - e);
    }
  }

  lemma LayoutIsForm(neg: bool, digits: Text, exp: int)
    requires digits != [] && IsDigits(digits) && digits[0] != ZERO && digits[|digits| - 1] != ZERO
    ensures IsForm(Layout(neg, digits, exp), Scaled(neg, digits, exp))
  {
    hide Ten, Nat, Scaled, ValueOf, IsPlain;
    LayoutValue(neg, digits, exp);
    PlainIs(neg, digits, exp);
  }

  lemma ZeroIsForm()
    ensures IsForm(ZERO_LITERAL, 0.0)
  {
    hide Ten;
    NatZero();
    assert ZERO_LITERAL.whole + ZERO_LITERAL.frac == [ZERO];
  }

  lemma NormalFormIsForm(l: Literal)
    requires IsLoose(l)
    ensures IsForm(NormalForm(l), ValueOf(l))
  {
    hide *;
    var zero, digits, exp := Parts(l);
    if zero {
      ZeroIsForm();
    } else {
      LayoutIsForm(l.neg, digits, exp);
    }
  }

  /** Where no exponent rounds, a literal is rewritten to the form of its number. */
  lemma NormalizedIsForm(l: Literal) returns (n: Literal)
    requires IsLoose(l) && Fits(l)
    ensures NormalizeNumber(LiteralText(l)) == LiteralText(n) && IsForm(n, ValueOf(l))
  {
    hide *;
    NormalizesLiteral(l);
    NormalTextIsExact(l);
    NormalFormIsForm(l);
    n := NormalForm(l);
  }
}
