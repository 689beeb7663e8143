/** How far normalizeNumber is exact: beyond 2^53 its exponents round, and numbers of
    different value get one text. */
module NumberLimits {
  import opened JsonText
  import opened JsonDouble
  import opened JsonNumber
  import opened JsonScanner
  import opened NumberText

  /** digits followed by an exponent, such as 12e34 */
  function Power(digits: Text, k: nat): Literal {
    Literal(false, digits, [], Exponent(SMALL_E, Unsigned, Decimal(k)))
  }

  const ONE: Text := [ZERO + 1]
  const TWELVE: Text := [ZERO + 1, ZERO + 2]

  lemma PowerIs(digits: Text, k: nat)
    requires digits != [] && IsDigits(digits) && digits[0] != ZERO
    ensures IsLiteral(Power(digits, k)) && ExpValue(Power(digits, k).exp) == k
        && Significant(Power(digits, k)) == |digits|
    ensures StripLeading(digits) == digits == Power(digits, k).whole + Power(digits, k).frac
    ensures ValueOf(Power(digits, k)) == Nat(digits) as real * Ten(k)
  {
    hide Nat, Ten, Decimal, StripLeading;
    DecimalValue(k);
    StartsNonzero(digits);
    assert digits + [] == digits;
  }

  /** The text of 1ek for a large k. */
  lemma OneText(k: nat)
    requires 21 <= k <= TWO_53
    ensures NormalText(Power(ONE, k)) == ONE + [SMALL_E] + Decimal(if k == TWO_53 then k - 1 else k)
  {
    hide Round, Decimal, Nat, Ten;
    PowerIs(ONE, k);
    NothingStripped(ONE);
    RoundIsExact(k);
    RoundAbove();
    if k < TWO_53 {
      RoundIsExact(k + 1);
    } else {
      RoundIsExact(k - 1);
    }
    ShowIsDecimal(if k == TWO_53 then k - 1 else k);
  }

  /** 1e9007199254740991 and 1e9007199254740992, ten times as large, get one text. */
  lemma NeighboursCollide()
    ensures NormalizeNumber(LiteralText(Power(ONE, TWO_53 - 1))) == NormalizeNumber(LiteralText(Power(ONE, TWO_53)))
    ensures IsLoose(Power(ONE, TWO_53 - 1)) && IsLoose(Power(ONE, TWO_53))
    ensures ValueOf(Power(ONE, TWO_53)) == 10.0 * ValueOf(Power(ONE, TWO_53 - 1)) != ValueOf(Power(ONE, TWO_53 - 1))
  {
    hide NormalText, LiteralText, Decimal, Nat, Ten, NormalizeNumber;
    PowerIs(ONE, TWO_53 - 1);
    PowerIs(ONE, TWO_53);
    OneText(TWO_53 - 1);
    OneText(TWO_53);
    NormalizesLiteral(Power(ONE, TWO_53 - 1));
    NormalizesLiteral(Power(ONE, TWO_53));
    TenStep(TWO_53 - 1);
    OneIsOne();
  }

  lemma OneIsOne()
    ensures Nat(ONE) == 1 && Nat(ONE) as real == 1.0
  {
    assert ONE[..0] == [];
  }

  /** For all literals within n, equal texts mean equal values. */
  ghost predicate IsExactWithin(n: nat) {
    forall a: Literal, b: Literal :: IsLoose(a) && IsLoose(b) && Within(a, n) && Within(b, n) ==>
      (NormalizeNumber(LiteralText(a)) == NormalizeNumber(LiteralText(b)) <==> ValueOf(a) == ValueOf(b))
  }

  /** 2^53 is the largest such n. */
  lemma ExactUpTo53(n: nat)
    ensures IsExactWithin(n) <==> n <= TWO_53
  {
    hide NormalizeNumber, LiteralText, ValueOf, Within;
    if n <= TWO_53 {
      forall a: Literal, b: Literal | IsLoose(a) && IsLoose(b) && Within(a, n) && Within(b, n)
        ensures NormalizeNumber(LiteralText(a)) == NormalizeNumber(LiteralText(b)) <==> ValueOf(a) == ValueOf(b)
      {
        WithinFits(a, n);
        WithinFits(b, n);
        hide IsLoose, Fits;
        NormalizeNumberIsExact(a, b);
      }
    } else {
      NeighboursCollide();
      PowerWithin(ONE, TWO_53 - 1, n);
      PowerWithin(ONE, TWO_53, n);
    }
  }

  lemma PowerWithin(digits: Text, k: nat, n: nat)
    requires digits != [] && IsDigits(digits) && digits[0] != ZERO && |digits| < TWO_53 && k + |digits| <= n
    ensures IsLoose(Power(digits, k)) && Within(Power(digits, k), n)
  {
    hide ValueOf, Nat, Ten, Decimal;
    PowerIs(digits, k);
  }

  // --- normalizing twice ---

  /** 1.2ek */
  function Decimals(k: nat): Literal {
    Literal(false, TWELVE[..1], TWELVE[1..], Exponent(SMALL_E, Unsigned, Decimal(k)))
  }

  lemma DecimalsIs(k: nat)
    ensures IsLiteral(Decimals(k)) && ExpValue(Decimals(k).exp) == k && |Decimals(k).frac| == 1
    ensures Decimals(k).whole + Decimals(k).frac == TWELVE && StripLeading(TWELVE) == TWELVE == StripTrailing(TWELVE)
    ensures Significant(Decimals(k)) == 2
  {
    DecimalValue(k);
  }

  /** The text of the digits 12 at an exponent whose sum with 2 rounds down to 2^53. */
  lemma DriftText(e: int)
    requires e == TWO_53 || e == TWO_53 - 1
    ensures LaidOut(TWELVE, Finite(e)) == LiteralText(Decimals(if e == TWO_53 then TWO_53 else TWO_53 - 1))
  {
    hide Round, Decimal;
    RoundAbove();
    RoundIsExact(TWO_53 - 1);
    ShowIsDecimal(if e == TWO_53 then TWO_53 else TWO_53 - 1);
  }

  /** 12e9007199254740992 becomes 1.2e9007199254740992, which becomes 1.2e9007199254740991. */
  lemma TextsDrift()
    ensures NormalizeNumber(LiteralText(Power(TWELVE, TWO_53))) == LiteralText(Decimals(TWO_53))
    ensures NormalizeNumber(LiteralText(Decimals(TWO_53))) ==
        LiteralText(Decimals(TWO_53 - 1)) != LiteralText(Decimals(TWO_53))
  {
    hide Round, Decimal, LaidOut, LiteralText, NormalizeNumber;
    PowerIs(TWELVE, TWO_53);
    DecimalsIs(TWO_53);
    DecimalsIs(TWO_53 - 1);
    RoundIsExact(TWO_53);
    RoundIsExact(TWO_53 - 1);
    DriftText(TWO_53);
    DriftText(TWO_53 - 1);
    NormalizesLiteral(Power(TWELVE, TWO_53));
    NormalizesLiteral(Decimals(TWO_53));
    if LiteralText(Decimals(TWO_53 - 1)) == LiteralText(Decimals(TWO_53)) {
      TextIsLiteral(Decimals(TWO_53 - 1), Decimals(TWO_53));
    }
  }

  ghost predicate IsIdempotentWithin(n: nat) {
    forall l: Literal :: IsLoose(l) && Within(l, n) ==>
      NormalizeNumber(NormalizeNumber(LiteralText(l))) == NormalizeNumber(LiteralText(l))
  }

  /** Normalizing twice changes nothing for all literals within n, up to n = 2^53 + 1. */
  lemma IdempotentUpTo53(n: nat)
    ensures IsIdempotentWithin(n) <==> n <= TWO_53 + 1
  {
    hide NormalizeNumber, LiteralText, Within;
    if n <= TWO_53 + 1 {
      forall l: Literal | IsLoose(l) && Within(l, n)
        ensures NormalizeNumber(NormalizeNumber(LiteralText(l))) == NormalizeNumber(LiteralText(l))
      {
        WithinMore(l, n, TWO_53 + 1);
        NormalizedTwice(l);
      }
    } else {
      TextsDrift();
      PowerWithin(TWELVE, TWO_53, n);
    }
  }

  lemma NormalizedTwice(l: Literal)
    requires IsLoose(l) && Within(l, TWO_53 + 1)
    ensures NormalizeNumber(NormalizeNumber(LiteralText(l))) == NormalizeNumber(LiteralText(l))
  {
    hide NormalizeNumber, LiteralText, NormalText, NormalForm, Within;
    var m := NormalizesOnce(l);
    NormalizesLiteral(l);
    NormalizesLiteral(m);
  }
}
