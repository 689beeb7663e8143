/** normalizeNumber of frontend/src/lib/canonical-json.ts, with its exponents
    computed in doubles, and where that is exact. */
module NumberText {
  import opened JsonText
  import opened JsonNumber
  import opened JsonDouble

  /** One digit before the point, the exponent as it is shown. */
  function Scientific(digits: Text, exp: Double): Text
    requires digits != []
  {
    digits[..1] + FracText(digits[1..]) + [SMALL_E] + Show(Plus(Plus(exp, |digits|), -1))
  }

  /** The text of some digits, with no zero at either end, times ten to exp. */
  function LaidOut(digits: Text, exp: Double): Text
    requires digits != []
  {
    var len := |digits|;
    match exp
    case Infinite(neg) => Scientific(digits, exp)
    case Finite(e) =>
      var end := Plus(exp, len);
      if e >= 0 && end.Finite? && end.n <= 21 then digits + Zeros(e)
      else if e < 0 && -e < len then digits[..len + e] + [POINT] + digits[len + e..]
      else if e < 0 && Round(-e - len).Finite? && Round(-e - len).n < 6
        then [ZERO, POINT] + Zeros(Round(-e - len).n) + digits
      else Scientific(digits, exp)
  }

  function NormalText(l: Literal): Text
    requires IsLoose(l)
  {
    var digits := StripLeading(l.whole + l.frac);
    if digits == [] then [ZERO]
    else
      var trimmed := StripTrailing(digits);
      var exp := Plus(Plus(Round(ExpValue(l.exp)), -|l.frac|), |digits| - |trimmed|);
      Signed(l.neg, LaidOut(trimmed, exp))
  }

  /** The digits of a literal without leading zeros. */
  function Significant(l: Literal): nat {
    |StripLeading(l.whole + l.frac)|
  }

  /** Unless the literal is zero, its exponent, the place of its last digit and the
      place above its first one are at most n; its digits fit an ECMAScript string. */
  predicate Within(l: Literal, n: nat)
    requires IsLoose(l)
  {
    Significant(l) > 0 ==>
      var e := ExpValue(l.exp);
      0 - n <= e <= n && |l.whole| + |l.frac| < TWO_53 && 0 - n <= e - |l.frac| && e - |l.frac| + Significant(l) <= n
  }

  /** No computation with the exponent rounds. */
  predicate Fits(l: Literal)
    requires IsLoose(l)
  {
    Significant(l) > 0 ==>
      var e := ExpValue(l.exp);
      -TWO_53 <= e <= TWO_53 && -TWO_53 <= e - |l.frac| && e - |l.frac| + Significant(l) <= TWO_53
  }

  lemma WithinFits(l: Literal, n: nat)
    requires IsLoose(l) && Within(l, n) && n <= TWO_53
    ensures Fits(l)
  {
    hide ExpValue;
  }

  lemma WithinMore(l: Literal, m: nat, n: nat)
    requires IsLoose(l) && m <= n && Within(l, m)
    ensures Within(l, n)
  {
    hide ExpValue;
  }

  function Signed(neg: bool, t: Text): Text {
    (if neg then [MINUS] else []) + t
  }

  lemma LaidOutIsLayout(neg: bool, digits: Text, e: int)
    requires digits != [] && -TWO_53 <= e && e + |digits| <= TWO_53
    ensures Signed(neg, LaidOut(digits, Finite(e))) == LiteralText(Layout(neg, digits, e))
  {
    hide Round, Decimal, Zeros, LiteralText, Signed, Show, Scientific;
    var len := |digits|;
    RoundIsExact(e + len);
    if -e >= len {
      RoundIsExact(-e - len);
    }
    if e >= 0 && len + e <= 21 {
      PlainText(neg, digits + Zeros(e), []);
    } else if e < 0 && -e < len {
      PlainText(neg, digits[..len + e], digits[len + e..]);
    } else if e < 0 && -e - len < 6 {
      PlainText(neg, [ZERO], Zeros(-e - len) + digits);
      assert [ZERO, POINT] + Zeros(-e - len) + digits == [ZERO] + ([POINT] + (Zeros(-e - len) + digits));
    } else {
      ScientificText(neg, digits, e);
    }
  }

  lemma PlainText(neg: bool, whole: Text, frac: Text)
    ensures LiteralText(Literal(neg, whole, frac, NoExponent)) == Signed(neg, if frac == [] then whole
        else whole + ([POINT] + frac))
    ensures frac != [] ==> whole + ([POINT] + frac) == whole + [POINT] + frac
  {
  }

  lemma ScientificText(neg: bool, digits: Text, e: int)
    requires digits != [] && -TWO_53 <= e && e + |digits| <= TWO_53
    ensures
      var exp := e + |digits| - 1;
      LiteralText(Literal(neg, digits[..1], digits[1..], Exponent(SMALL_E, if exp < 0 then Negative
        else Unsigned, Decimal(if exp < 0 then -exp else exp))))
      == Signed(neg, Scientific(digits, Finite(e)))
  {
    hide Round, Decimal, Show;
    RoundIsExact(e + |digits|);
    RoundIsExact(e + |digits| - 1);
    ShowIsDecimal(e + |digits| - 1);
  }

  lemma ShowIsDecimal(e: int)
    requires -TWO_53 <= e <= TWO_53
    ensures Show(Finite(e)) == if e < 0 then [MINUS] + Decimal(-e) else Decimal(e)
  {
    hide Decimal;
  }

  /** Where nothing rounds, the text is that of the exact normal form. */
  lemma NormalTextIsExact(l: Literal)
    requires IsLoose(l) && Fits(l)
    ensures NormalText(l) == LiteralText(NormalForm(l))
  {
    hide Round, Decimal, Zeros, StripLeading, StripTrailing, ExpValue, LaidOut, Layout, LiteralText;
    var digits := StripLeading(l.whole + l.frac);
    if digits == [] {
      ZeroText();
    } else {
      var trimmed, e := StripTrailing(digits), ExpValue(l.exp);
      assert 0 < |trimmed| <= |digits|;
      RoundIsExact(e);
      RoundIsExact(e - |l.frac|);
      RoundIsExact(e - |l.frac| + (|digits| - |trimmed|));
      LaidOutIsLayout(l.neg, trimmed, e - |l.frac| + (|digits| - |trimmed|));
    }
  }

  lemma ZeroText()
    ensures LiteralText(ZERO_LITERAL) == [ZERO]
  {
  }

  // --- texts of normal forms ---

  lemma {:induction false} NothingStripped(digits: Text)
    requires digits != [] && digits[0] != ZERO && digits[|digits| - 1] != ZERO
    ensures StripLeading(digits) == digits && StripTrailing(digits) == digits
  {
  }

  lemma {:induction false} ZerosStripped(n: nat, digits: Text)
    requires digits != [] && digits[0] != ZERO
    ensures StripLeading(Zeros(n) + digits) == digits
  {
    if n == 0 {
      assert Zeros(0) + digits == digits;
    } else {
      ZerosSplit(n);
      assert (Zeros(n) + digits)[1..] == Zeros(n - 1) + digits;
      ZerosStripped(n - 1, digits);
    }
  }

  lemma {:induction false} ZerosSplit(n: nat)
    requires n > 0
    ensures Zeros(n) == [ZERO] + Zeros(n - 1)
  {
    if n > 1 {
      ZerosSplit(n - 1);
    }
  }

  /** A laid out number whose computed exponents stay exact is its own normal form. */
  lemma LayoutIsNormal(neg: bool, digits: Text, e: int)
    requires digits != [] && IsDigits(digits) && digits[0] != ZERO && digits[|digits| - 1] != ZERO
    ensures IsLiteral(Layout(neg, digits, e)) && NormalForm(Layout(neg, digits, e)) == Layout(neg, digits, e)
  {
    hide Layout, Decimal;
    var l := Literal(neg, digits, [], Exponent(SMALL_E, if e < 0 then Negative
      else Unsigned, Decimal(if e < 0 then -e else e)));
    DecimalValue(if e < 0 then -e else e);
    NothingStripped(digits);
    assert l.whole + l.frac == digits;
    assert NormalForm(l) == Layout(neg, digits, e);
    NormalFormIsIdempotent(l);
    LayoutValue(neg, digits, e);
  }

  lemma LayoutFits(neg: bool, digits: Text, e: int)
    requires digits != [] && IsDigits(digits) && digits[0] != ZERO && digits[|digits| - 1] != ZERO
    requires -TWO_53 <= e && e + |digits| <= TWO_53 && IsLoose(Layout(neg, digits, e))
    ensures Fits(Layout(neg, digits, e))
  {
    hide Decimal, Zeros, StripLeading;
    var len, l := |digits|, Layout(neg, digits, e);
    if e >= 0 && len + e <= 21 {
      StartsNonzero(digits + Zeros(e));
      assert l.whole + l.frac == digits + Zeros(e);
    } else if e < 0 && -e < len {
      StartsNonzero(digits);
      assert l.whole + l.frac == digits;
    } else if e < 0 && -e - len < 6 {
      ZerosSplit(-e - len + 1);
      ZerosStripped(-e - len + 1, digits);
      assert l.whole + l.frac == Zeros(-e - len + 1) + digits;
    } else {
      StartsNonzero(digits);
      assert l.whole + l.frac == digits;
      DecimalValue(if e + len - 1 < 0 then -(e + len - 1) else e + len - 1);
    }
  }

  lemma StartsNonzero(t: Text)
    requires t != [] && t[0] != ZERO
    ensures StripLeading(t) == t
  {
  }

  /** t is the text of a literal that normalizes to itself. */
  predicate IsNormalText(t: Text, l: Literal) {
    IsLiteral(l) && LiteralText(l) == t && NormalForm(l) == l && NormalText(l) == t
  }

  lemma LayoutText(neg: bool, digits: Text, e: int)
    requires digits != [] && IsDigits(digits) && digits[0] != ZERO && digits[|digits| - 1] != ZERO
    requires -TWO_53 <= e && e + |digits| <= TWO_53
    ensures IsNormalText(LiteralText(Layout(neg, digits, e)), Layout(neg, digits, e))
  {
    hide Layout, LiteralText, NormalText, NormalForm, Fits;
    LayoutIsNormal(neg, digits, e);
    LayoutFits(neg, digits, e);
    NormalTextIsExact(Layout(neg, digits, e));
  }

  lemma ZeroIsNormal()
    ensures IsNormalText([ZERO], ZERO_LITERAL)
  {
    ZeroText();
    var all := ZERO_LITERAL.whole + ZERO_LITERAL.frac;
    assert all == [ZERO] && all[1..] == [] && StripLeading([]) == [];
    assert StripLeading(all) == [];
  }

  // --- one past 2^53 ---

  /** The exponents computed from a literal within 2^53 + 1: D2 and D3 in doubles. */
  lemma AlmostExact(e: int, f: nat, s: nat, len: nat)
    requires 0 < len <= s < TWO_53 && f < TWO_53 && -(TWO_53 + 1) <= e <= TWO_53 + 1
    requires -(TWO_53 + 1) <= e - f && e - f + s <= TWO_53 + 1
    ensures
      var exp := Plus(Plus(Round(e), 0 - f), s - len);
      exp.Finite? && -TWO_53 <= exp.n && exp.n + len <= TWO_53 + 1
  {
    hide Round;
    var d0 := RoundNear(e);
    assert Plus(Round(e), 0 - f) == Round(d0 - f);
    var d1 := RoundNear(d0 - f);
    assert d1 <= d0 - f || d1 == -TWO_53;
    var d2 := RoundNear(d1 + (s - len));
  }

  lemma RoundNear(n: int) returns (d: int)
    requires -(TWO_53 + 1) <= n <= TWO_53 + 1
    ensures Round(n) == Finite(d) && -TWO_53 <= d <= TWO_53
    ensures d == if n == TWO_53 + 1 then TWO_53 else if n == -(TWO_53 + 1) then -TWO_53 else n
  {
    hide Round;
    RoundAbove();
    d := if n == TWO_53 + 1 then TWO_53 else if n == -(TWO_53 + 1) then -TWO_53 else n;
    if d == n {
      RoundIsExact(n);
    }
  }

  /** Rounding the last sum lays the digits out one place lower. */
  lemma AlmostLaidOut(neg: bool, digits: Text, e: int)
    requires 0 < |digits| < TWO_53 && -TWO_53 <= e && e + |digits| <= TWO_53 + 1
    ensures LaidOut(digits, Finite(e)) == LaidOut(digits, Finite(if e + |digits| == TWO_53 + 1 then e - 1 else e))
  {
    hide Show, Zeros, Round;
    if e + |digits| == TWO_53 + 1 {
      RoundAbove();
      RoundIsExact(TWO_53);
      assert Plus(Finite(e), |digits|) == Finite(TWO_53) == Plus(Finite(e - 1), |digits|);
    }
  }

  /** A literal within 2^53 + 1 gets a text that normalizes to itself. */
  lemma NormalizesOnce(l: Literal) returns (n: Literal)
    requires IsLoose(l) && Within(l, TWO_53 + 1)
    ensures IsNormalText(NormalText(l), n)
  {
    hide Round, StripLeading, StripTrailing, LaidOut, Layout, LiteralText, IsNormalText, ExpValue;
    var digits := StripLeading(l.whole + l.frac);
    if digits == [] {
      ZeroIsNormal();
      n := ZERO_LITERAL;
    } else {
      var trimmed := StripTrailing(digits);
      TrimmedDigits(digits);
      StrippedIsShorter(l.whole + l.frac);
      AlmostExact(ExpValue(l.exp), |l.frac|, |digits|, |trimmed|);
      var exp := Plus(Plus(Round(ExpValue(l.exp)), -|l.frac|), |digits| - |trimmed|);
      AlmostLaidOut(l.neg, trimmed, exp.n);
      var e := if exp.n + |trimmed| == TWO_53 + 1 then exp.n - 1 else exp.n;
      AlmostAbove(e, exp.n, |trimmed|);
      LaidOutIsLayout(l.neg, trimmed, e);
      LayoutText(l.neg, trimmed, e);
      n := Layout(l.neg, trimmed, e);
    }
  }

  lemma AlmostAbove(e: int, n: int, len: nat)
    requires -TWO_53 <= n && n + len <= TWO_53 + 1 && 0 < len < TWO_53 && e == if n + len == TWO_53 + 1 then n - 1
        else n
    ensures -TWO_53 <= e && e + len <= TWO_53
  {
  }

  lemma {:induction false} StrippedIsShorter(t: Text)
    ensures |StripLeading(t)| <= |t|
  {
    if t != [] && t[0] == ZERO {
      StrippedIsShorter(t[1..]);
    }
  }

  lemma TrimmedDigits(digits: Text)
    requires digits != [] && IsDigits(digits) && digits[0] != ZERO
    ensures
      var trimmed := StripTrailing(digits);
      trimmed != [] && |trimmed| <= |digits| && IsDigits(trimmed) && trimmed[0] != ZERO
        && trimmed[|trimmed| - 1] != ZERO
  {
    StripTrailingValue(digits);
  }
}
