/** The tokens of a JSON text (RFC 8259, sections 2, 6 and 7): what the parser of
    frontend/src/lib/canonical-json.ts reads for white space, numbers and strings. */
module JsonScanner {
  import opened JsonText
  import opened JsonDouble
  import opened JsonNumber
  import opened NumberText

  // --- white space ---

  function SkipSpace(t: Text): (r: Text)
    ensures |r| <= |t| && (r == [] || !IsSpace(r[0]))
  {
    if t != [] && IsSpace(t[0]) then SkipSpace(t[1..]) else t
  }

  lemma {:induction false} SkipsBlank(blank: Text, rest: Text)
    requires IsBlank(blank) && (rest == [] || !IsSpace(rest[0]))
    ensures SkipSpace(blank + rest) == rest
  {
    if blank == [] {
      assert blank + rest == rest;
    } else {
      assert (blank + rest)[1..] == blank[1..] + rest;
      SkipsBlank(blank[1..], rest);
    }
  }

  lemma {:induction false} SkippedIsBlank(t: Text) returns (blank: Text)
    ensures IsBlank(blank) && t == blank + SkipSpace(t)
  {
    if t != [] && IsSpace(t[0]) {
      var more := SkippedIsBlank(t[1..]);
      blank := [t[0]] + more;
      assert t == [t[0]] + (more + SkipSpace(t[1..]));
      assert t == blank + SkipSpace(t[1..]);
    } else {
      blank := [];
    }
  }

  /** What is skipped are the spaces, tabs and line ends in front, all of them. */
  lemma {:induction false} SkipsSpaces(t: Text) returns (k: nat)
    ensures k <= |t| && SkipSpace(t) == t[k..]
    ensures forall i ::
        0 <= i < k ==> t[i] == ' ' as int || t[i] == '\t' as int || t[i] == '\n' as int || t[i] == '\r' as int
    ensures k < |t| ==> t[k] != ' ' as int && t[k] != '\t' as int && t[k] != '\n' as int && t[k] != '\r' as int
  {
    k := 0;
    if t != [] && IsSpace(t[0]) {
      var j := SkipsSpaces(t[1..]);
      k := j + 1;
      assert t[1..][j..] == t[k..];
      assert forall i :: 0 < i < k ==> t[i] == t[1..][i - 1];
    }
  }

  // --- numbers ---

  /** The digits a text starts with. */
  function LeadingDigits(t: Text): (d: Text)
    ensures IsDigits(d) && |d| <= |t| && t == d + t[|d|..]
    ensures |d| < |t| ==> !IsDigit(t[|d|])
    ensures StartsDigit(t) ==> d != [] && d[0] == t[0]
  {
    if StartsDigit(t) then
      assert t == [t[0]] + t[1..];
      [t[0]] + LeadingDigits(t[1..])
    else []
  }

  lemma {:induction false} ReadsDigits(d: Text, rest: Text)
    requires IsDigits(d) && !StartsDigit(rest)
    ensures LeadingDigits(d + rest) == d && (d + rest)[|d|..] == rest
  {
    if d == [] {
      assert d + rest == rest;
    } else {
      assert (d + rest)[1..] == d[1..] + rest;
      ReadsDigits(d[1..], rest);
    }
  }

  datatype Scanned<T> = Nothing | Scanned(token: T, rest: Text)

  function ReadFraction(t: Text): (r: Scanned<Text>)
    ensures r.Scanned? && IsDigits(r.token)
  {
    if Starts(t, POINT) && StartsDigit(t[1..]) then
      var d := LeadingDigits(t[1..]);
      Scanned(d, t[1 + |d|..])
    else Scanned([], t)
  }

  lemma ReadFractionIsOne(t: Text)
    ensures var r := ReadFraction(t); t == FracText(r.token) + r.rest
  {
    hide LeadingDigits;
    var r := ReadFraction(t);
    if Starts(t, POINT) && StartsDigit(t[1..]) {
      assert t == [POINT] + (r.token + r.rest);
    } else {
      assert [] + t == t;
    }
  }

  function ReadSign(t: Text): (r: Scanned<Sign>)
    ensures r.Scanned? && t == SignText(r.token) + r.rest
  {
    if Starts(t, PLUS) then Scanned(Positive, t[1..])
    else if Starts(t, MINUS) then Scanned(Negative, t[1..])
    else Scanned(Unsigned, t)
  }

  function ReadExponent(t: Text): (r: Scanned<Exponent>)
    ensures r.Scanned?
  {
    if Starts(t, SMALL_E) || Starts(t, LARGE_E) then
      var s := ReadSign(t[1..]);
      if StartsDigit(s.rest) then
        var d := LeadingDigits(s.rest);
        Scanned(Exponent(t[0], s.token, d), s.rest[|d|..])
      else Scanned(NoExponent, t)
    else Scanned(NoExponent, t)
  }

  predicate IsExponent(e: Exponent) {
    e.Exponent? ==> e.digits != [] && IsDigits(e.digits) && (e.mark == SMALL_E || e.mark == LARGE_E)
  }

  lemma ReadExponentIsOne(t: Text)
    ensures var r := ReadExponent(t); IsExponent(r.token) && t == ExpText(r.token) + r.rest
  {
    hide LeadingDigits, ReadSign, SignText;
    var r := ReadExponent(t);
    if r.token.Exponent? {
      var s := ReadSign(t[1..]);
      assert t == [t[0]] + t[1..];
      assert t[1..] == SignText(s.token) + s.rest;
      assert s.rest == r.token.digits + r.rest;
      Joined([t[0]], SignText(s.token), r.token.digits, [], r.rest);
      assert [] + r.rest == r.rest;
      assert [t[0]] + SignText(s.token) + r.token.digits + [] == ExpText(r.token);
    } else {
      assert ExpText(r.token) + t == t;
    }
  }

  /** The longest number at the start of a text; leading zeros are read if `loose`. */
  function ReadNumber(t: Text, loose: bool): (r: Scanned<Literal>) {
    var neg := Starts(t, MINUS);
    var t1 := if neg then t[1..] else t;
    if !StartsDigit(t1) then Nothing
    else
      var whole := if !loose && t1[0] == ZERO then [ZERO] else LeadingDigits(t1);
      var frac := ReadFraction(t1[|whole|..]);
      var exp := ReadExponent(frac.rest);
      Scanned(Literal(neg, whole, frac.token, exp.token), exp.rest)
  }

  /** What it reads is a literal the text starts with. */
  lemma ReadNumberIsLiteral(t: Text, loose: bool)
    requires ReadNumber(t, loose).Scanned?
    ensures
      var r := ReadNumber(t, loose);
      (if loose then IsLoose(r.token) else IsLiteral(r.token)) && t == LiteralText(r.token) + r.rest
  {
    hide LeadingDigits, ReadFraction, ReadExponent, FracText, ExpText;
    var r := ReadNumber(t, loose);
    var l := r.token;
    var t1 := if l.neg then t[1..] else t;
    var t2 := t1[|l.whole|..];
    var t3 := ReadFraction(t2).rest;
    assert t == (if l.neg then [MINUS] else []) + t1;
    assert t1 == l.whole + t2;
    ReadFractionIsOne(t2);
    ReadExponentIsOne(t3);
    Joined(if l.neg then [MINUS] else [], l.whole, FracText(l.frac), ExpText(l.exp), r.rest);
  }

  lemma Joined(a: Text, b: Text, c: Text, d: Text, e: Text)
    ensures a + (b + (c + (d + e))) == a + b + c + d + e
  {
  }

  /** A text that would make a number before it longer. */
  predicate Continues(rest: Text) {
    StartsDigit(rest) || Starts(rest, POINT) || Starts(rest, SMALL_E) || Starts(rest, LARGE_E)
  }

  lemma ReadsFraction(frac: Text, rest: Text)
    requires IsDigits(frac) && !StartsDigit(rest) && !Starts(rest, POINT)
    ensures ReadFraction(FracText(frac) + rest) == Scanned(frac, rest)
  {
    if frac != [] {
      var t := FracText(frac) + rest;
      assert t[1..] == frac + rest;
      ReadsDigits(frac, rest);
      assert t[1 + |frac|..] == rest;
    } else {
      assert FracText(frac) + rest == rest;
    }
  }

  lemma ReadsExponent(e: Exponent, rest: Text)
    requires IsExponent(e)
    requires !StartsDigit(rest) && (e.NoExponent? ==> !Starts(rest, SMALL_E) && !Starts(rest, LARGE_E))
    ensures ReadExponent(ExpText(e) + rest) == Scanned(e, rest)
  {
    if e.Exponent? {
      var t, tail := ExpText(e) + rest, e.digits + rest;
      assert t[1..] == SignText(e.sign) + tail;
      assert tail[0] == e.digits[0];
      ReadsSign(e.sign, tail);
      hide LeadingDigits, ReadSign, SignText;
      ReadsDigits(e.digits, rest);
      assert t[0] == e.mark;
    } else {
      assert ExpText(e) + rest == rest;
    }
  }

  lemma ReadsSign(s: Sign, rest: Text)
    requires StartsDigit(rest)
    ensures ReadSign(SignText(s) + rest) == Scanned(s, rest)
  {
    if s == Unsigned {
      assert SignText(s) + rest == rest;
    } else {
      assert (SignText(s) + rest)[1..] == rest;
    }
  }

  /** The scanner reads back every literal in front of what cannot continue it. */
  lemma ReadsNumber(l: Literal, rest: Text, loose: bool)
    requires (if loose then IsLoose(l) else IsLiteral(l)) && !Continues(rest)
    ensures ReadNumber(LiteralText(l) + rest, loose) == Scanned(l, rest)
  {
    hide *;
    var tail := ExpText(l.exp) + rest;
    var behind := FracText(l.frac) + tail;
    var body := l.whole + behind;
    var sign: Text := if l.neg then [MINUS] else [];
    LiteralIs(l);
    NotContinued(rest);
    ExpStarts(l.exp, rest);
    FracStarts(l.frac, tail);
    Joined(sign, l.whole, FracText(l.frac), ExpText(l.exp), rest);
    ReadsDigits(l.whole, behind);
    assert body[|l.whole|..] == behind;
    ReadsFraction(l.frac, tail);
    ReadsExponent(l.exp, rest);
    assert body[0] == l.whole[0];
    SignedBody(l, sign, body);
    ReadsParts(l, sign + body, loose, body, behind, tail, rest);
  }

  lemma SignedBody(l: Literal, sign: Text, body: Text)
    requires sign == if l.neg then [MINUS] else []
    ensures if l.neg then Starts(sign + body, MINUS) && (sign + body)[1..] == body else sign + body == body
  {
  }

  lemma LiteralIs(l: Literal)
    ensures LiteralText(l) == (if l.neg then [MINUS] else []) + l.whole + FracText(l.frac) + ExpText(l.exp)
    ensures IsLiteral(l) ==> IsLoose(l)
    ensures IsLoose(l) ==> l.whole != [] && IsDigits(l.whole) && IsDigits(l.frac) && IsExponent(l.exp)
  {
  }

  lemma NotContinued(rest: Text)
    requires !Continues(rest)
    ensures !StartsDigit(rest) && !Starts(rest, POINT) && !Starts(rest, SMALL_E) && !Starts(rest, LARGE_E)
  {
  }

  lemma ReadsParts(l: Literal, t: Text, loose: bool, body: Text, behind: Text, tail: Text, rest: Text)
    requires if loose then IsLoose(l) else IsLiteral(l)
    requires l.whole != [] && body != [] && body[0] == l.whole[0]
    requires |l.whole| <= |body| && body[|l.whole|..] == behind
    requires if l.neg then Starts(t, MINUS) && t[1..] == body else t == body
    requires LeadingDigits(body) == l.whole
    requires ReadFraction(behind) == Scanned(l.frac, tail) && ReadExponent(tail) == Scanned(l.exp, rest)
    ensures ReadNumber(t, loose) == Scanned(l, rest)
  {
    hide LeadingDigits, ReadFraction, ReadExponent;
    assert IsDigit(l.whole[0]);
  }

  lemma ExpStarts(e: Exponent, rest: Text)
    requires IsExponent(e)
    requires !StartsDigit(rest) && !Starts(rest, POINT)
    ensures !StartsDigit(ExpText(e) + rest) && !Starts(ExpText(e) + rest, POINT)
  {
  }

  lemma FracStarts(frac: Text, rest: Text)
    requires !StartsDigit(rest)
    ensures !StartsDigit(FracText(frac) + rest)
  {
  }

  /** normalizeNumber: the normal text of a literal, any other text as it is. */
  function NormalizeNumber(t: Text): Text {
    var r := ReadNumber(t, true);
    if r.Scanned? && r.rest == [] then NormalText(r.token) else t
  }

  lemma NormalizesLiteral(l: Literal)
    requires IsLoose(l)
    ensures NormalizeNumber(LiteralText(l)) == NormalText(l)
  {
    ReadsNumber(l, [], true);
    assert LiteralText(l) + [] == LiteralText(l);
    hide NormalText, LiteralText, ReadNumber;
  }

  lemma TextIsLiteral(a: Literal, b: Literal)
    requires IsLoose(a) && IsLoose(b) && LiteralText(a) == LiteralText(b)
    ensures a == b
  {
    hide ReadNumber, LiteralText;
    ReadsNumber(a, [], true);
    ReadsNumber(b, [], true);
  }

  /** Where no exponent rounds, two literals normalize to one text if and only if they
      denote one rational number. */
  lemma NormalizeNumberIsExact(a: Literal, b: Literal)
    requires IsLoose(a) && IsLoose(b) && Fits(a) && Fits(b)
    ensures NormalizeNumber(LiteralText(a)) == NormalizeNumber(LiteralText(b)) <==> ValueOf(a) == ValueOf(b)
  {
    hide NormalForm, NormalText, LiteralText, ValueOf, NormalizeNumber, Fits;
    NormalizesLiteral(a);
    NormalizesLiteral(b);
    NormalTextIsExact(a);
    NormalTextIsExact(b);
    NormalFormIsIdempotent(a);
    NormalFormIsIdempotent(b);
    NormalFormIsCanonical(a, b);
    if LiteralText(NormalForm(a)) == LiteralText(NormalForm(b)) {
      TextIsLiteral(NormalForm(a), NormalForm(b));
    }
  }

  /** normalizeNumber is idempotent on literals within 2^53 + 1, and on all other texts. */
  lemma NormalizeNumberIsIdempotent(t: Text)
    requires forall l: Literal :: IsLoose(l) && LiteralText(l) == t ==> Within(l, TWO_53 + 1)
    ensures NormalizeNumber(NormalizeNumber(t)) == NormalizeNumber(t)
  {
    hide NormalForm, NormalText, LiteralText, ReadNumber, Within;
    var r := ReadNumber(t, true);
    if r.Scanned? && r.rest == [] {
      ReadNumberIsLiteral(t, true);
      assert LiteralText(r.token) + [] == LiteralText(r.token) == t;
      var n := NormalizesOnce(r.token);
      NormalizesLiteral(n);
    }
  }
}
