/** How far canonicalJson decides equality: its number texts limit it. */
module CanonicalLimits {
  import opened Options
  import opened JsonText
  import opened JsonDouble
  import opened JsonNumber
  import opened JsonScanner
  import opened JsonString
  import opened JsonSyntax
  import opened JsonGrammar
  import opened JsonValue
  import opened CanonicalJson
  import opened NumberText
  import opened NumberLimits

  /** A text that is one number. */
  lemma NumberIsCanonical(l: Literal, ignoreOrder: bool)
    requires IsLiteral(l)
    ensures IsTree(Number(l)) && Writes(LiteralText(l), [], Number(l), [])
    ensures Canonical(LiteralText(l), ignoreOrder) == Some(NormalizeNumber(LiteralText(l)))
  {
    hide LiteralText, NormalizeNumber, Parse, ReadNumber;
    assert [] + LiteralText(l) + [] == LiteralText(l);
    assert Writes(LiteralText(l), [], Number(l), []) && NodeOf(Number(l)) == Num(NormalizeNumber(LiteralText(l)));
    ParseIsExact(LiteralText(l), NodeOf(Number(l)));
  }

  /** For all texts whose numbers are within n, equal canonical forms mean equal values. */
  ghost predicate DecidesWithin(n: nat, ignoreOrder: bool) {
    forall a, beforeA, treeA, afterA, b, beforeB, treeB, afterB ::
      Writes(a, beforeA, treeA, afterA) && Writes(b, beforeB, treeB, afterB) && IsWithin(treeA, n)
        && IsWithin(treeB, n) ==>
        (Canonical(a, ignoreOrder) == Canonical(b, ignoreOrder) <==>
          TreeValue(treeA, ignoreOrder) == TreeValue(treeB, ignoreOrder))
  }

  /** 2^53 is the largest such n. */
  lemma DecidesUpTo53(n: nat, ignoreOrder: bool)
    ensures DecidesWithin(n, ignoreOrder) <==> n <= TWO_53
  {
    if n <= TWO_53 {
      forall a, beforeA, treeA, afterA, b, beforeB, treeB, afterB
        | Writes(a, beforeA, treeA, afterA) && Writes(b, beforeB, treeB, afterB) && IsWithin(treeA, n)
          && IsWithin(treeB, n)
        ensures Canonical(a, ignoreOrder) == Canonical(b, ignoreOrder) <==>
            TreeValue(treeA, ignoreOrder) == TreeValue(treeB, ignoreOrder)
      {
        hide *;
        WritesIsTree(a, beforeA, treeA, afterA);
        WritesIsTree(b, beforeB, treeB, afterB);
        TreeWithinMore(treeA, n, TWO_53);
        TreeWithinMore(treeB, n, TWO_53);
        CanonicalDecides(a, b, ignoreOrder, beforeA, treeA, afterA, beforeB, treeB, afterB);
      }
    } else {
      NeighboursAreOne(n, ignoreOrder);
    }
  }

  lemma NeighboursAreOne(n: nat, ignoreOrder: bool)
    requires n > TWO_53
    ensures !DecidesWithin(n, ignoreOrder)
  {
    hide LiteralText, NormalizeNumber, Canonical, Within, ValueOf, Writes;
    var k, l := Power(ONE, TWO_53 - 1), Power(ONE, TWO_53);
    PowerIs(ONE, TWO_53 - 1);
    PowerIs(ONE, TWO_53);
    NeighboursCollide();
    NumberIsCanonical(k, ignoreOrder);
    NumberIsCanonical(l, ignoreOrder);
    PowerWithin(ONE, TWO_53 - 1, n);
    PowerWithin(ONE, TWO_53, n);
    assert IsWithin(Number(k), n) && IsWithin(Number(l), n);
    assert TreeValue(Number(k), ignoreOrder) == Rational(ValueOf(k))
      && TreeValue(Number(l), ignoreOrder) == Rational(ValueOf(l));
    hide *;
    OneTextForTwo(n, ignoreOrder, LiteralText(k), Number(k), LiteralText(l), Number(l));
  }

  lemma OneTextForTwo(n: nat, ignoreOrder: bool, a: Text, treeA: Tree, b: Text, treeB: Tree)
    requires Writes(a, [], treeA, []) && Writes(b, [], treeB, []) && IsWithin(treeA, n) && IsWithin(treeB, n)
    requires Canonical(a, ignoreOrder) == Canonical(b, ignoreOrder)
        && TreeValue(treeA, ignoreOrder) != TreeValue(treeB, ignoreOrder)
    ensures !DecidesWithin(n, ignoreOrder)
  {
    hide Writes, IsWithin, Canonical, TreeValue;
  }

  lemma {:induction false} TreeWithinMore(t: Tree, m: nat, n: nat)
    requires IsTree(t) && IsWithin(t, m) && m <= n
    ensures IsWithin(t, n)
    decreases t, 1
  {
    hide Within, IsLiteral, IsLoose;
    match t
    case Number(l) => LiteralWithinMore(l, m, n);
    case Array(blank, items) => ItemsWithinMore(items, m, n);
    case Object(blank, members) => MembersWithinMore(members, m, n);
    case _ =>
  }

  lemma LiteralWithinMore(l: Literal, m: nat, n: nat)
    requires IsLiteral(l) && m <= n && Within(l, m)
    ensures Within(l, n)
  {
    hide Within;
    WithinMore(l, m, n);
  }

  lemma {:induction false} ItemsWithinMore(items: seq<Padded>, m: nat, n: nat)
    requires AreItems(items) && AreWithin(items, m) && m <= n
    ensures AreWithin(items, n)
    decreases items, 0
  {
    hide IsWithin, IsTree;
    if items != [] {
      TreeWithinMore(items[0].value, m, n);
      ItemsWithinMore(items[1..], m, n);
    }
  }

  lemma {:induction false} MembersWithinMore(members: seq<Member>, m: nat, n: nat)
    requires AreMembers(members) && AreMembersWithin(members, m) && m <= n
    ensures AreMembersWithin(members, n)
    decreases members, 0
  {
    hide IsWithin, IsTree, IsToken;
    if members != [] {
      TreeWithinMore(members[0].value.value, m, n);
      MembersWithinMore(members[1..], m, n);
    }
  }

  // --- the fixed point ---

  /** For all texts whose numbers are within n, the canonical form of the canonical form is itself. */
  ghost predicate IsFixedWithin(n: nat, ignoreOrder: bool) {
    forall t, before, tree, after :: Writes(t, before, tree, after) && IsWithin(tree, n) ==>
      Canonical(t, ignoreOrder).Some? && Canonical(Canonical(t, ignoreOrder).value, ignoreOrder) ==
        Canonical(t, ignoreOrder)
  }

  /** 2^53 + 1 is the largest such n. */
  lemma FixedUpTo53(n: nat, ignoreOrder: bool)
    ensures IsFixedWithin(n, ignoreOrder) <==> n <= TWO_53 + 1
  {
    if n <= TWO_53 + 1 {
      forall t, before, tree, after | Writes(t, before, tree, after) && IsWithin(tree, n)
        ensures Canonical(t, ignoreOrder).Some? && Canonical(Canonical(t, ignoreOrder).value, ignoreOrder) ==
            Canonical(t, ignoreOrder)
      {
        hide *;
        WritesIsTree(t, before, tree, after);
        TreeWithinMore(tree, n, TWO_53 + 1);
        CanonicalIsFixed(t, ignoreOrder, before, tree, after);
      }
    } else {
      DriftIsNotFixed(n, ignoreOrder);
    }
  }

  lemma DriftIsNotFixed(n: nat, ignoreOrder: bool)
    requires n > TWO_53 + 1
    ensures !IsFixedWithin(n, ignoreOrder)
  {
    hide LiteralText, NormalizeNumber, Canonical, Within, ValueOf, Writes;
    var l, m := Power(TWELVE, TWO_53), Decimals(TWO_53);
    PowerIs(TWELVE, TWO_53);
    DecimalsIs(TWO_53);
    TextsDrift();
    NumberIsCanonical(l, ignoreOrder);
    NumberIsCanonical(m, ignoreOrder);
    PowerWithin(TWELVE, TWO_53, n);
    assert IsWithin(Number(l), n);
  }

  // --- from 1e21 on ---

  /** No JSON value starts with a number that has two exponents. */
  lemma TwoExponents(c: CodeUnit, rest: Text)
    requires IsDigit(c) && rest != [] && !StartsDigit(rest) && !IsSpace(rest[0])
    ensures Parse(ONE + [SMALL_E] + [c] + rest) == None
  {
    var t := ONE + [SMALL_E] + [c] + rest;
    ReadsOneExponent(c, rest);
    NumberStarts(t);
    NotSkipped(rest);
    hide ReadNumber, NormalizeNumber, ReadString, SkipSpace, StartsWord, Starts, StartsDigit;
  }

  lemma NumberStarts(t: Text)
    requires t != [] && t[0] == '1' as int
    ensures SkipSpace(t) == t
    ensures !Starts(t, QUOTE) && !Starts(t, OPEN_BRACE) && !Starts(t, OPEN_BRACKET)
    ensures !StartsWord(t, NULL) && !StartsWord(t, TRUE) && !StartsWord(t, FALSE)
  {
  }

  lemma NotSkipped(t: Text)
    requires t != [] && !IsSpace(t[0])
    ensures SkipSpace(t) == t
  {
  }

  lemma ReadsOneExponent(c: CodeUnit, rest: Text)
    requires IsDigit(c) && rest != [] && !StartsDigit(rest)
    ensures ReadNumber(ONE + [SMALL_E] + [c] + rest, false) ==
        Scanned(Literal(false, ONE, [], Exponent(SMALL_E, Unsigned, [c])), rest)
  {
    hide *;
    var behind := [SMALL_E] + ([c] + rest);
    assert ONE + [SMALL_E] + [c] + rest == ONE + behind;
    OneStarts(c, rest);
    ReadsDigits(ONE, behind);
    ReadsDigits([c], rest);
    ReadsTail(c, rest);
    ReadsInParts(ONE + behind, ONE, behind, Exponent(SMALL_E, Unsigned, [c]), rest);
  }

  lemma OneStarts(c: CodeUnit, rest: Text)
    requires IsDigit(c)
    ensures
      var behind := [SMALL_E] + ([c] + rest);
      && IsDigits(ONE) && IsDigits([c]) && !StartsDigit(behind) && !Starts(behind, POINT)
      && StartsDigit(ONE + behind) && (ONE + behind)[0] != ZERO
  {
  }

  lemma ReadsTail(c: CodeUnit, rest: Text)
    requires IsDigit(c) && LeadingDigits([c] + rest) == [c]
    ensures ReadExponent([SMALL_E] + ([c] + rest)) == Scanned(Exponent(SMALL_E, Unsigned, [c]), rest)
  {
    hide LeadingDigits;
    var tail := [c] + rest;
    assert ([SMALL_E] + tail)[1..] == tail && tail[1..] == rest;
  }

  lemma ReadsInParts(t: Text, whole: Text, behind: Text, exp: Exponent, rest: Text)
    requires t == whole + behind && StartsDigit(t) && t[0] != ZERO && !Starts(behind, POINT)
    requires LeadingDigits(t) == whole && ReadExponent(behind) == Scanned(exp, rest)
    ensures ReadNumber(t, false) == Scanned(Literal(false, whole, [], exp), rest)
  {
    hide LeadingDigits, ReadExponent;
    assert t[|whole|..] == behind;
  }

  /** 10^21 is a double, and adding or taking one is lost. */
  lemma BigRounds(k: int)
    requires k == Pow10(21)
    ensures Round(k) == Finite(k) && Round(k + 1) == Finite(k) && Round(k - 1) == Finite(k)
  {
    hide Pow2, Pow10, Ulp, RoundNat;
    BigIs();
    SixtyNine();
    BigUlp(k);
    BigUlp(k + 1);
    BigUlp(k - 1);
    SmallEnough();
    RoundWith(k, 7629394531250000, 0, 131072);
    RoundWith(k + 1, 7629394531250000, 1, 131072);
    RoundWith(k - 1, 7629394531249999, 131071, 131072);
  }

  lemma RoundWith(n: nat, q: nat, r: nat, u: nat)
    requires Ulp(n) == u && r < u && n == q * u + r && 2 * r != u
    ensures RoundNat(n) == if 2 * r < u then q * u else (q + 1) * u
  {
    hide Ulp;
    QuotientIs(n, q, r, u);
  }

  lemma QuotientIs(n: nat, q: nat, r: nat, u: nat)
    requires r < u && n == q * u + r
    ensures n / u == q && n % u == r
  {
    var d := n / u - q;
    assert n == (n / u) * u + n % u;
    assert (n / u) * u - q * u == d * u;
    assert d > 0 ==> d * u >= u;
    assert d < 0 ==> d * u + u <= 0;
  }

  lemma BigIs()
    ensures Pow10(21) == 1_000_000_000_000_000_000_000
  {
    assert Pow10(7) == 10_000_000;
    assert Pow10(14) == 100_000_000_000_000;
  }

  lemma SixtyNine()
    ensures Pow2(17) == 131072 && Pow2(69) == 590295810358705651712 && Pow2(70) == 1180591620717411303424
  {
    TwoTo64();
    assert Pow2(8) == 256;
    assert Pow2(16) == 65536;
    assert Pow2(66) == 4 * Pow2(64);
    assert Pow2(68) == 4 * Pow2(66);
  }

  lemma SmallEnough()
    ensures 1_000_000_000_000_000_000_000 < Pow2(1024)
  {
    SixtyNine();
    hide Pow2;
    Pow2Grows(70, 1024);
  }

  lemma {:induction false} UlpIs(n: nat, k: nat)
    requires Pow2(k + 52) <= n < Pow2(k + 53)
    ensures Ulp(n) == Pow2(k)
  {
    FiftyThree();
    if k == 0 {
    } else {
      Pow2Grows(53, k + 52);
      UlpIs(n / 2, k - 1);
    }
  }

  lemma FiftyThree()
    ensures Pow2(53) == TWO_53
  {
    assert Pow2(10) == 1024;
    assert Pow2(20) == 1048576;
    assert Pow2(30) == 1073741824;
    assert Pow2(40) == 1099511627776;
    assert Pow2(50) == 1125899906842624;
  }

  lemma BigUlp(n: nat)
    requires Pow2(69) <= n < Pow2(70)
    ensures Ulp(n) == Pow2(17)
  {
    hide Pow2, Ulp;
    UlpIs(n, 17);
  }

  /** 1e1000000000000000000000 is a JSON text whose canonical form is none. */
  lemma BigExponentBreaks(ignoreOrder: bool)
    ensures
      var t := LiteralText(Power(ONE, Pow10(21)));
      Canonical(t, ignoreOrder).Some? && Canonical(Canonical(t, ignoreOrder).value, ignoreOrder) == None
  {
    var k := Pow10(21);
    var l := Power(ONE, k);
    PowerIs(ONE, k);
    NumberIsCanonical(l, ignoreOrder);
    NormalizesLiteral(l);
    var c, rest := BigText();
    TwoExponents(c, rest);
    hide LiteralText, NormalText, Parse, NormalizeNumber;
    assert Canonical(NormalText(l), ignoreOrder) == None;
  }

  lemma BigText() returns (c: CodeUnit, rest: Text)
    ensures IsLoose(Power(ONE, Pow10(21))) && NormalText(Power(ONE, Pow10(21))) == ONE + [SMALL_E] + [c] + rest
    ensures IsDigit(c) && rest != [] && !StartsDigit(rest) && !IsSpace(rest[0])
  {
    hide *;
    var k := Pow10(21);
    BigIsLarge(k);
    PowerIs(ONE, k);
    LiteralIsLoose(Power(ONE, k));
    BigRounds(k);
    BigLaidOut(k);
    c, rest := ShowsExponent(k);
    assert ONE + [SMALL_E] + ([c] + rest) == ONE + [SMALL_E] + [c] + rest;
  }

  lemma LiteralIsLoose(l: Literal)
    requires IsLiteral(l)
    ensures IsLoose(l)
  {
    hide IsLoose;
  }

  lemma BigIsLarge(k: int)
    requires k == Pow10(21)
    ensures TWO_53 < k && 21 < k && ONE != [] && IsDigits(ONE) && ONE[0] != ZERO
  {
    BigIs();
  }

  lemma BigLaidOut(k: nat)
    requires k > 21 && IsLoose(Power(ONE, k)) && Round(k) == Finite(k) && Round(k + 1) == Finite(k)
        && Round(k - 1) == Finite(k)
    ensures NormalText(Power(ONE, k)) == ONE + [SMALL_E] + Show(Finite(k))
  {
    hide Round, Decimal, Nat, Ten, Show, Scientific, LaidOut;
    PowerIs(ONE, k);
    NothingStripped(ONE);
    ScientificOne(k);
    assert Plus(Plus(Round(k), 0), 0) == Finite(k);
  }

  lemma ScientificOne(k: nat)
    requires k > 21 && Round(k + 1) == Finite(k) && Round(k - 1) == Finite(k)
    ensures LaidOut(ONE, Finite(k)) == ONE + [SMALL_E] + Show(Finite(k))
  {
    hide Round, Show;
    assert ONE[..1] + FracText(ONE[1..]) + [SMALL_E] == ONE + [SMALL_E];
  }

  lemma ShowsExponent(n: nat) returns (c: CodeUnit, rest: Text)
    requires n >= Pow10(21) && Pow10(21) > TWO_53
    ensures Show(Finite(n)) == [c] + rest
    ensures IsDigit(c) && rest != [] && !StartsDigit(rest) && !IsSpace(rest[0])
  {
    hide Pow10, Shortest, Decimal;
    var digits := Decimal(Shortest(n, |Decimal(n)|));
    ShortestIsPositive(n, |Decimal(n)|);
    StripTrailingValue(digits);
    var s := StripTrailing(digits);
    c := s[0];
    rest := Show(Finite(n))[1..];
  }

  lemma {:induction false} ShortestIsPositive(n: nat, place: nat)
    requires n > 0
    ensures Shortest(n, place) > 0
  {
    hide Pow10, Multiples;
    if place > 0 {
      ShortestIsPositive(n, place - 1);
    }
  }
}
