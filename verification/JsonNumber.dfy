/** Number literals (RFC 8259, section 6) and their exact normal form:
    normalizeNumber of frontend/src/lib/canonical-json.ts. */
module JsonNumber {
  import opened JsonText

  datatype Sign = Unsigned | Positive | Negative

  /** `mark` is e or E. */
  datatype Exponent = NoExponent | Exponent(mark: CodeUnit, sign: Sign, digits: Text)

  /** An empty fraction stands for none. */
  datatype Literal = Literal(neg: bool, whole: Text, frac: Text, exp: Exponent)

  /** The grammar of section 6, with leading zeros allowed. */
  predicate IsLoose(l: Literal) {
    && l.whole != [] && IsDigits(l.whole) && IsDigits(l.frac)
    && (l.exp.Exponent? ==>
      l.exp.digits != [] && IsDigits(l.exp.digits) && (l.exp.mark == SMALL_E || l.exp.mark == LARGE_E))
  }

  predicate IsLiteral(l: Literal) {
    IsLoose(l) && (l.whole == [ZERO] || l.whole[0] != ZERO)
  }

  function SignText(s: Sign): Text {
    match s
    case Unsigned => []
    case Positive => [PLUS]
    case Negative => [MINUS]
  }

  function FracText(frac: Text): Text {
    if frac == [] then [] else [POINT] + frac
  }

  function ExpText(e: Exponent): Text {
    if e.NoExponent? then [] else [e.mark] + SignText(e.sign) + e.digits
  }

  function LiteralText(l: Literal): Text {
    (if l.neg then [MINUS] else []) + l.whole + FracText(l.frac) + ExpText(l.exp)
  }

  // --- values ---

  function DigitValue(c: CodeUnit): nat
    requires IsDigit(c)
  {
    c - ZERO
  }

  /** The number some digits write. */
  function Nat(t: Text): nat
    requires IsDigits(t)
  {
    if t == [] then 0 else 10 * Nat(t[..|t| - 1]) + DigitValue(t[|t| - 1])
  }

  function Pow10(n: nat): (p: nat)
    ensures p > 0
  {
    if n == 0 then 1 else 10 * Pow10(n - 1)
  }

  /** 10 to a power of any sign. */
  function Ten(e: int): (r: real)
    ensures r > 0.0
    decreases if e < 0 then -e else e
  {
    if e == 0 then 1.0 else if e > 0 then 10.0 * Ten(e - 1) else Ten(e + 1) / 10.0
  }

  function ExpValue(e: Exponent): int
    requires e.Exponent? ==> IsDigits(e.digits)
  {
    if e.NoExponent? then 0 else if e.sign == Negative then 0 - Nat(e.digits) else Nat(e.digits)
  }

  /** digits times ten to exp */
  function Scaled(neg: bool, digits: Text, exp: int): real
    requires IsDigits(digits)
  {
    var m := Nat(digits) as real * Ten(exp);
    if neg then -m else m
  }

  /** The rational number a literal denotes. */
  function ValueOf(l: Literal): real
    requires IsLoose(l)
  {
    Scaled(l.neg, l.whole + l.frac, ExpValue(l.exp) - |l.frac|)
  }

  // --- the normal form ---

  function StripLeading(t: Text): (r: Text)
    ensures r != [] ==> r[0] != ZERO
    ensures IsDigits(t) ==> IsDigits(r)
  {
    if t != [] && t[0] == ZERO then StripLeading(t[1..]) else t
  }

  function StripTrailing(t: Text): (r: Text)
    ensures r <= t && (r != [] ==> r[|r| - 1] != ZERO)
    ensures t != [] && t[0] != ZERO ==> r != []
  {
    if t != [] && t[|t| - 1] == ZERO then StripTrailing(t[..|t| - 1]) else t
  }

  function Zeros(n: nat): (t: Text)
    ensures |t| == n && IsDigits(t)
  {
    if n == 0 then [] else Zeros(n - 1) + [ZERO]
  }

  /** The decimal digits of a natural number. */
  function Decimal(n: nat): (t: Text)
    ensures t != [] && IsDigits(t) && (n > 0 ==> t[0] != ZERO)
  {
    if n < 10 then [ZERO + n] else Decimal(n / 10) + [ZERO + n % 10]
  }

  /** How the digits d1 d2 ... dn, with no zero at either end, times ten to exp are written. */
  function Layout(neg: bool, digits: Text, exp: int): Literal
    requires digits != []
  {
    var len := |digits|;
    if exp >= 0 && len + exp <= 21 then Literal(neg, digits + Zeros(exp), [], NoExponent)
    else if exp < 0 && -exp < len then Literal(neg, digits[..len + exp], digits[len + exp..], NoExponent)
    else if exp < 0 && -exp - len < 6 then Literal(neg, [ZERO], Zeros(-exp - len) + digits, NoExponent)
    else
      var e := exp + len - 1;
      Literal(neg, digits[..1], digits[1..], Exponent(SMALL_E, if e < 0 then Negative
        else Unsigned, Decimal(if e < 0 then -e else e)))
  }

  const ZERO_LITERAL := Literal(false, [ZERO], [], NoExponent)

  function NormalForm(l: Literal): Literal
    requires IsLoose(l)
  {
    var digits := StripLeading(l.whole + l.frac);
    if digits == [] then ZERO_LITERAL
    else
      var trimmed := StripTrailing(digits);
      Layout(l.neg, trimmed, ExpValue(l.exp) - |l.frac| + (|digits| - |trimmed|))
  }

  // --- arithmetic ---

  lemma TenTimes(n: int, p: int)
    ensures 10 * (n * p) == n * (10 * p)
  {
  }

  lemma {:induction false} NatConcat(a: Text, b: Text)
    requires IsDigits(a) && IsDigits(b)
    ensures IsDigits(a + b) && Nat(a + b) == Nat(a) * Pow10(|b|) + Nat(b)
  {
    if b == [] {
      assert a + b == a;
    } else {
      var init := b[..|b| - 1];
      NatConcat(a, init);
      assert (a + b)[..|a + b| - 1] == a + init;
      var p := Pow10(|init|);
      assert Pow10(|b|) == 10 * p;
      hide Pow10;
      TenTimes(Nat(a), p);
    }
  }

  lemma {:induction false} NatZeros(n: nat)
    ensures Nat(Zeros(n)) == 0
  {
    if n > 0 {
      NatZeros(n - 1);
      assert Zeros(n)[..n - 1] == Zeros(n - 1);
    }
  }

  lemma {:induction false} StripLeadingValue(t: Text)
    requires IsDigits(t)
    ensures Nat(StripLeading(t)) == Nat(t)
  {
    if t != [] && t[0] == ZERO {
      StripLeadingValue(t[1..]);
      assert t == [ZERO] + t[1..];
      NatConcat([ZERO], t[1..]);
      assert Nat([ZERO]) == 0;
    }
  }

  lemma {:induction false} StripTrailingValue(t: Text)
    requires IsDigits(t)
    ensures IsDigits(StripTrailing(t))
    ensures Nat(t) == Nat(StripTrailing(t)) * Pow10(|t| - |StripTrailing(t)|)
  {
    if t != [] && t[|t| - 1] == ZERO {
      var init := t[..|t| - 1];
      StripTrailingValue(init);
      var r := StripTrailing(init);
      TenTimes(Nat(r), Pow10(|init| - |r|));
    }
  }

  lemma {:induction false} DecimalValue(n: nat)
    ensures Nat(Decimal(n)) == n
  {
    if n >= 10 {
      DecimalValue(n / 10);
      assert Decimal(n)[..|Decimal(n)| - 1] == Decimal(n / 10);
    } else {
      assert Decimal(n)[..0] == [];
    }
  }

  lemma TenStep(e: int)
    ensures Ten(e + 1) == 10.0 * Ten(e)
  {
  }

  lemma {:induction false} TenPlus(e: int, n: nat)
    ensures Ten(e + n) == Pow10(n) as real * Ten(e)
  {
    if n > 0 {
      TenPlus(e, n - 1);
      TenStep(e + n - 1);
      assert (10 * Pow10(n - 1)) as real * Ten(e) == 10.0 * (Pow10(n - 1) as real * Ten(e));
    }
  }

  /** Moving zeros between the digits and the exponent. */
  lemma Rescale(m: nat, n: nat, e: int)
    ensures (m * Pow10(n)) as real * Ten(e) == m as real * Ten(e + n)
  {
    hide Ten, Pow10;
    TenPlus(e, n);
    Regroup(m, Pow10(n), Ten(e));
  }

  lemma Regroup(m: nat, p: nat, t: real)
    ensures (m * p) as real * t == m as real * (p as real * t)
  {
    assert (m * p) as real == m as real * p as real;
    Associate(m as real, p as real, t);
  }

  lemma Associate(x: real, y: real, z: real)
    ensures (x * y) * z == x * (y * z)
  {
  }

  // --- the normal form keeps the value ---

  lemma LayoutValue(neg: bool, digits: Text, exp: int)
    requires digits != [] && IsDigits(digits) && digits[0] != ZERO
    ensures IsLiteral(Layout(neg, digits, exp)) && ValueOf(Layout(neg, digits, exp)) == Scaled(neg, digits, exp)
  {
    hide Nat, Ten, Pow10, Zeros, Decimal, Scaled;
    var len, l := |digits|, Layout(neg, digits, exp);
    if exp >= 0 && len + exp <= 21 {
      ZerosBehind(neg, digits, exp);
      assert l.whole + l.frac == digits + Zeros(exp);
    } else if exp < 0 && -exp < len {
      assert l.whole + l.frac == digits;
    } else if exp < 0 && -exp - len < 6 {
      var zeros := Zeros(-exp - len);
      ZerosBefore(neg, -exp - len, digits, exp);
      assert l.whole + l.frac == [ZERO] + (zeros + digits);
    } else {
      var e := exp + len - 1;
      DecimalValue(if e < 0 then -e else e);
      assert l.whole + l.frac == digits;
    }
  }

  lemma ZerosBehind(neg: bool, digits: Text, exp: nat)
    requires IsDigits(digits)
    ensures IsDigits(digits + Zeros(exp)) && Scaled(neg, digits + Zeros(exp), 0) == Scaled(neg, digits, exp)
  {
    hide Nat, Ten, Pow10, Zeros;
    NatConcat(digits, Zeros(exp));
    NatZeros(exp);
    Rescale(Nat(digits), exp, 0);
  }

  lemma ZerosBefore(neg: bool, n: nat, digits: Text, exp: int)
    requires IsDigits(digits)
    ensures IsDigits([ZERO] + (Zeros(n) + digits)) && Scaled(neg, [ZERO] + (Zeros(n) + digits), exp) ==
        Scaled(neg, digits, exp)
  {
    hide Nat, Ten, Pow10, Zeros;
    NatConcat([ZERO], Zeros(n) + digits);
    NatConcat(Zeros(n), digits);
    NatZeros(n);
    NatZero();
  }

  lemma NatZero()
    ensures Nat([ZERO]) == 0 && Nat([]) == 0
  {
  }

  /** Normalizing keeps the value. */
  lemma NormalValue(l: Literal)
    requires IsLoose(l)
    ensures IsLiteral(NormalForm(l)) && ValueOf(NormalForm(l)) == ValueOf(l)
  {
    hide Nat, Ten, Pow10, StripLeading, StripTrailing, Layout, ExpValue;
    var all := l.whole + l.frac;
    var exp := ExpValue(l.exp) - |l.frac|;
    var digits := StripLeading(all);
    StripLeadingValue(all);
    NatZero();
    if digits == [] {
      assert ZERO_LITERAL.whole + ZERO_LITERAL.frac == [ZERO];
      assert Scaled(l.neg, all, exp) == 0.0;
    } else {
      var trimmed := StripTrailing(digits);
      StripTrailingValue(digits);
      Rescale(Nat(trimmed), |digits| - |trimmed|, exp);
      LayoutValue(l.neg, trimmed, exp + (|digits| - |trimmed|));
    }
  }

  // --- equal values have equal normal forms ---

  lemma {:induction false} LeadingIsPositive(t: Text)
    requires t != [] && IsDigits(t) && t[0] != ZERO
    ensures Nat(t) > 0
  {
    if |t| > 1 {
      LeadingIsPositive(t[..|t| - 1]);
    }
  }

  /** A number has one decimal text without leading zeros. */
  lemma {:induction false} DigitsAreUnique(a: Text, b: Text)
    requires IsDigits(a) && IsDigits(b) && (a != [] ==> a[0] != ZERO) && (b != [] ==> b[0] != ZERO)
    requires Nat(a) == Nat(b)
    ensures a == b
  {
    if a == [] {
      if b != [] {
        LeadingIsPositive(b);
      }
    } else if b == [] {
      LeadingIsPositive(a);
    } else {
      LastDigit(a);
      LastDigit(b);
      DigitsAreUnique(a[..|a| - 1], b[..|b| - 1]);
      assert a == a[..|a| - 1] + [a[|a| - 1]] && b == b[..|b| - 1] + [b[|b| - 1]];
    }
  }

  lemma LastDigit(t: Text)
    requires t != [] && IsDigits(t)
    ensures Nat(t) % 10 == DigitValue(t[|t| - 1]) && Nat(t) / 10 == Nat(t[..|t| - 1])
  {
    Tens(Nat(t[..|t| - 1]), DigitValue(t[|t| - 1]));
  }

  lemma Tens(n: nat, d: nat)
    requires d < 10
    ensures (10 * n + d) % 10 == d && (10 * n + d) / 10 == n
  {
  }

  lemma CancelTen(x: real, y: real, e: int)
    requires x * Ten(e) == y * Ten(e)
    ensures x == y
  {
    hide Ten;
    CancelFactor(x, y, Ten(e));
  }

  lemma CancelFactor(x: real, y: real, f: real)
    requires f > 0.0 && x * f == y * f
    ensures x == y
  {
    assert (x - y) * f == 0.0;
  }

  /** Numbers whose last digit is not zero have one scale only. */
  lemma ScaleIsUnique(m: nat, e: int, n: nat, f: int)
    requires m % 10 != 0 && n % 10 != 0 && e <= f
    requires m as real * Ten(e) == n as real * Ten(f)
    ensures m == n && e == f
  {
    hide Ten, Pow10;
    var k := f - e;
    Rescale(n, k, e);
    CancelTen(m as real, (n * Pow10(k)) as real, e);
    assert m == n * Pow10(k);
    TensDivide(n, k);
  }

  lemma TensDivide(n: nat, k: nat)
    ensures k > 0 ==> (n * Pow10(k)) % 10 == 0
    ensures k == 0 ==> n * Pow10(k) == n
  {
    if k > 0 {
      var p := Pow10(k - 1);
      assert Pow10(k) == 10 * p;
      hide Pow10;
      TenTimes(n, p);
      TenDivides(n * p);
    }
  }

  lemma TenDivides(n: int)
    ensures 10 * n % 10 == 0
  {
  }

  lemma PositiveProduct(m: nat, e: int)
    ensures m > 0 <==> m as real * Ten(e) > 0.0
    ensures m as real * Ten(e) >= 0.0
  {
    hide Ten;
    var t := Ten(e);
    if m > 0 {
      assert m as real >= 1.0;
      assert m as real * t >= 1.0 * t;
    }
  }

  lemma ScaledIsUnique(neg1: bool, d1: Text, e1: int, neg2: bool, d2: Text, e2: int)
    requires d1 != [] && IsDigits(d1) && d1[0] != ZERO && d1[|d1| - 1] != ZERO
    requires d2 != [] && IsDigits(d2) && d2[0] != ZERO && d2[|d2| - 1] != ZERO
    requires Scaled(neg1, d1, e1) == Scaled(neg2, d2, e2)
    ensures neg1 == neg2 && d1 == d2 && e1 == e2
  {
    hide Nat, Ten;
    LeadingIsPositive(d1);
    LeadingIsPositive(d2);
    PositiveProduct(Nat(d1), e1);
    PositiveProduct(Nat(d2), e2);
    LastDigit(d1);
    LastDigit(d2);
    if e1 <= e2 {
      ScaleIsUnique(Nat(d1), e1, Nat(d2), e2);
    } else {
      ScaleIsUnique(Nat(d2), e2, Nat(d1), e1);
    }
    DigitsAreUnique(d1, d2);
  }

  /** Literals of one rational number have one normal form, and only those. */
  lemma NormalFormIsCanonical(a: Literal, b: Literal)
    requires IsLoose(a) && IsLoose(b)
    ensures NormalForm(a) == NormalForm(b) <==> ValueOf(a) == ValueOf(b)
  {
    hide Nat, Ten, StripLeading, StripTrailing, Layout, ExpValue, ValueOf, Scaled;
    NormalValue(a);
    NormalValue(b);
    if ValueOf(a) == ValueOf(b) {
      SameValueSameForm(a, b);
    }
  }

  /** The digits and exponent a nonzero literal is laid out with. */
  lemma Parts(l: Literal) returns (zero: bool, digits: Text, exp: int)
    requires IsLoose(l)
    ensures zero ==> NormalForm(l) == ZERO_LITERAL && ValueOf(l) == 0.0
    ensures !zero ==> digits != [] && IsDigits(digits) && digits[0] != ZERO && digits[|digits| - 1] != ZERO
    ensures !zero ==> NormalForm(l) == Layout(l.neg, digits, exp) && ValueOf(l) == Scaled(l.neg, digits, exp)
    ensures !zero ==> ValueOf(l) != 0.0
  {
    hide Nat, Ten, StripLeading, StripTrailing, Layout, ExpValue;
    var all := l.whole + l.frac;
    var stripped := StripLeading(all);
    zero, digits, exp := stripped == [], [], 0;
    StripLeadingValue(all);
    NatZero();
    if zero {
      assert Scaled(l.neg, all, ExpValue(l.exp) - |l.frac|) == 0.0;
    } else {
      digits := StripTrailing(stripped);
      exp := ExpValue(l.exp) - |l.frac| + (|stripped| - |digits|);
      StripTrailingValue(stripped);
      Rescale(Nat(digits), |stripped| - |digits|, ExpValue(l.exp) - |l.frac|);
      LeadingIsPositive(digits);
      PositiveProduct(Nat(digits), exp);
    }
  }

  lemma SameValueSameForm(a: Literal, b: Literal)
    requires IsLoose(a) && IsLoose(b) && ValueOf(a) == ValueOf(b)
    ensures NormalForm(a) == NormalForm(b)
  {
    hide NormalForm, ValueOf, Layout, Scaled;
    var zeroA, digitsA, expA := Parts(a);
    var zeroB, digitsB, expB := Parts(b);
    if !zeroA && !zeroB {
      ScaledIsUnique(a.neg, digitsA, expA, b.neg, digitsB, expB);
    }
  }

  /** Normalizing twice changes nothing. */
  lemma NormalFormIsIdempotent(l: Literal)
    requires IsLoose(l)
    ensures IsLoose(NormalForm(l)) && NormalForm(NormalForm(l)) == NormalForm(l)
  {
    hide NormalForm, ValueOf;
    NormalValue(l);
    NormalFormIsCanonical(NormalForm(l), l);
  }
}
