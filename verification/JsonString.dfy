/** String tokens (RFC 8259, section 7): how the parser of
    frontend/src/lib/canonical-json.ts reads them and how JSON.stringify writes them. */
module JsonString {
  import opened JsonText
  import opened JsonScanner

  /** A code unit as it is, a two-character escape, or \u and four hexadecimal digits. */
  datatype Part = Raw(unit: CodeUnit) | Short(letter: CodeUnit) | Hex(digits: Text)

  type Token = seq<Part>

  /** The code unit a two-character escape stands for, -1 for a letter that is none. */
  function ShortUnit(letter: CodeUnit): int {
    if letter == QUOTE || letter == BACKSLASH || letter == '/' as int then letter
    else if letter == 'b' as int then 0x08
    else if letter == 'f' as int then 0x0C
    else if letter == 'n' as int then 0x0A
    else if letter == 'r' as int then 0x0D
    else if letter == 't' as int then 0x09
    else -1
  }

  /** The value of a hexadecimal digit, -1 for anything else. */
  function HexDigit(c: CodeUnit): int {
    if '0' as int <= c <= '9' as int then c - '0' as int
    else if 'a' as int <= c <= 'f' as int then c - 'a' as int + 10
    else if 'A' as int <= c <= 'F' as int then c - 'A' as int + 10
    else -1
  }

  predicate IsHex(d: Text) {
    |d| == 4 && forall i :: 0 <= i < 4 ==> HexDigit(d[i]) >= 0
  }

  function HexUnit(d: Text): CodeUnit
    requires IsHex(d)
  {
    assert forall i :: 0 <= i < 4 ==> 0 <= HexDigit(d[i]) < 16;
    hide HexDigit;
    HexDigit(d[0]) * 0x1000 + HexDigit(d[1]) * 0x100 + HexDigit(d[2]) * 0x10 + HexDigit(d[3])
  }

  predicate IsPart(p: Part) {
    match p
    case Raw(c) => c >= 0x20 && c != QUOTE && c != BACKSLASH
    case Short(letter) => ShortUnit(letter) >= 0
    case Hex(d) => IsHex(d)
  }

  predicate IsToken(token: Token) {
    forall p :: p in token ==> IsPart(p)
  }

  function PartText(p: Part): (t: Text)
    ensures t != []
  {
    match p
    case Raw(c) => [c]
    case Short(letter) => [BACKSLASH, letter]
    case Hex(d) => [BACKSLASH, LETTER_U] + d
  }

  function PartUnit(p: Part): CodeUnit
    requires IsPart(p)
  {
    match p
    case Raw(c) => c
    case Short(letter) => ShortUnit(letter)
    case Hex(d) => HexUnit(d)
  }

  function BodyText(token: Token): Text {
    if token == [] then [] else PartText(token[0]) + BodyText(token[1..])
  }

  function TokenText(token: Token): Text {
    [QUOTE] + BodyText(token) + [QUOTE]
  }

  /** The string a token denotes. */
  function TokenUnits(token: Token): Text
    requires IsToken(token)
  {
    if token == [] then [] else [PartUnit(token[0])] + TokenUnits(token[1..])
  }

  // --- reading ---

  function Prepend(unit: CodeUnit, r: Scanned<Text>): Scanned<Text> {
    if r.Scanned? then Scanned([unit] + r.token, r.rest) else Nothing
  }

  /** The string behind an opening quote. */
  function ReadBody(t: Text): (r: Scanned<Text>)
    ensures r.Scanned? ==> |r.rest| < |t|
  {
    if t == [] then Nothing
    else if t[0] == QUOTE then Scanned([], t[1..])
    else if t[0] < 0x20 then Nothing
    else if t[0] == BACKSLASH then
      if |t| < 2 then Nothing
      else if t[1] == LETTER_U then
        if |t| >= 6 && IsHex(t[2..6]) then Prepend(HexUnit(t[2..6]), ReadBody(t[6..])) else Nothing
      else if ShortUnit(t[1]) >= 0 then Prepend(ShortUnit(t[1]), ReadBody(t[2..]))
      else Nothing
    else Prepend(t[0], ReadBody(t[1..]))
  }

  function ReadString(t: Text): (r: Scanned<Text>)
    ensures r.Scanned? ==> |r.rest| < |t|
  {
    if Starts(t, QUOTE) then ReadBody(t[1..]) else Nothing
  }

  lemma {:induction false} ReadsBody(token: Token, rest: Text)
    requires IsToken(token)
    ensures ReadBody(BodyText(token) + ([QUOTE] + rest)) == Scanned(TokenUnits(token), rest)
  {
    hide ReadBody, PartText, PartUnit, IsPart;
    var end := [QUOTE] + rest;
    if token == [] {
      assert BodyText(token) + end == end;
      ReadsQuote(rest);
    } else {
      ReadsBody(token[1..], rest);
      var tail := BodyText(token[1..]) + end;
      assert BodyText(token) + end == PartText(token[0]) + tail;
      ReadsPart(token[0], tail);
    }
  }

  lemma ReadsQuote(rest: Text)
    ensures ReadBody([QUOTE] + rest) == Scanned([], rest)
  {
    assert ([QUOTE] + rest)[1..] == rest;
  }

  lemma ReadsPart(p: Part, tail: Text)
    requires IsPart(p)
    ensures ReadBody(PartText(p) + tail) == Prepend(PartUnit(p), ReadBody(tail))
  {
    var t := PartText(p) + tail;
    match p
    case Raw(c) => assert t[1..] == tail;
    case Short(letter) => assert t[2..] == tail && letter != LETTER_U;
    case Hex(d) => assert t[2..6] == d && t[6..] == tail;
  }

  /** The reader reads back every token. */
  lemma ReadsString(token: Token, rest: Text)
    requires IsToken(token)
    ensures ReadString(TokenText(token) + rest) == Scanned(TokenUnits(token), rest)
  {
    hide ReadBody, BodyText;
    ReadsBody(token, rest);
    assert (TokenText(token) + rest)[1..] == BodyText(token) + ([QUOTE] + rest);
  }

  /** What it reads is a token the text starts with. */
  lemma {:induction false} ReadBodyIsToken(t: Text) returns (token: Token)
    requires ReadBody(t).Scanned?
    ensures IsToken(token) && TokenUnits(token) == ReadBody(t).token
    ensures t == BodyText(token) + ([QUOTE] + ReadBody(t).rest)
    decreases |t|
  {
    hide *;
    NoBody(t);
    if t[0] == QUOTE {
      token := [];
      EmptyToken();
      assert t == [QUOTE] + t[1..];
    } else {
      var p, tail := FirstPart(t);
      ReadsPart(p, tail);
      PrependedIs(PartUnit(p), ReadBody(tail));
      var more := ReadBodyIsToken(tail);
      token := [p] + more;
      TokenSplits(p, more);
      var end := [QUOTE] + ReadBody(t).rest;
      assert t == PartText(p) + (BodyText(more) + end);
      assert t == PartText(p) + BodyText(more) + end;
    }
  }

  lemma NoBody(t: Text)
    requires ReadBody(t).Scanned?
    ensures t != [] && (t[0] == QUOTE ==> ReadBody(t) == Scanned([], t[1..]))
  {
  }

  lemma EmptyToken()
    ensures IsToken([]) && TokenUnits([]) == [] && BodyText([]) == []
  {
  }

  lemma PrependedIs(unit: CodeUnit, r: Scanned<Text>)
    ensures Prepend(unit, r).Scanned? <==> r.Scanned?
    ensures r.Scanned? ==> Prepend(unit, r) == Scanned([unit] + r.token, r.rest)
  {
  }

  lemma FirstPart(t: Text) returns (p: Part, tail: Text)
    requires ReadBody(t).Scanned? && t[0] != QUOTE
    ensures IsPart(p) && t == PartText(p) + tail && |tail| < |t|
  {
    p := if t[0] != BACKSLASH then Raw(t[0]) else if t[1] == LETTER_U then Hex(t[2..6]) else Short(t[1]);
    tail := t[|PartText(p)|..];
  }

  lemma TokenSplits(p: Part, more: Token)
    requires IsPart(p) && IsToken(more)
    ensures IsToken([p] + more) && BodyText([p] + more) == PartText(p) + BodyText(more)
    ensures TokenUnits([p] + more) == [PartUnit(p)] + TokenUnits(more)
  {
    assert ([p] + more)[1..] == more;
  }

  lemma ReadStringIsToken(t: Text) returns (token: Token)
    requires ReadString(t).Scanned?
    ensures IsToken(token) && TokenUnits(token) == ReadString(t).token
    ensures t == TokenText(token) + ReadString(t).rest
  {
    hide ReadBody, BodyText, TokenUnits;
    token := ReadBodyIsToken(t[1..]);
    assert t == [QUOTE] + t[1..];
  }

  // --- writing ---

  predicate IsLead(c: CodeUnit) {
    0xD800 <= c <= 0xDBFF
  }

  predicate IsTrail(c: CodeUnit) {
    0xDC00 <= c <= 0xDFFF
  }

  /** Half of a surrogate pair without the other half. */
  predicate IsLone(v: Text, i: nat)
    requires i < |v|
  {
    || (IsLead(v[i]) && !(i + 1 < |v| && IsTrail(v[i + 1])))
    || (IsTrail(v[i]) && !(i > 0 && IsLead(v[i - 1])))
  }

  function HexChar(n: nat): CodeUnit
    requires n < 16
  {
    if n < 10 then '0' as int + n else 'a' as int + n - 10
  }

  function HexText(c: CodeUnit): Text {
    [HexChar(c / 0x10 / 0x10 / 0x10), HexChar(c / 0x10 / 0x10 % 0x10), HexChar(c / 0x10 % 0x10), HexChar(c % 0x10)]
  }

  /** How JSON.stringify writes code unit i. */
  function PartOf(v: Text, i: nat): Part
    requires i < |v|
  {
    var c := v[i];
    if c == QUOTE || c == BACKSLASH then Short(c)
    else if c == 0x08 then Short('b' as int)
    else if c == 0x09 then Short('t' as int)
    else if c == 0x0A then Short('n' as int)
    else if c == 0x0C then Short('f' as int)
    else if c == 0x0D then Short('r' as int)
    else if c < 0x20 || IsLone(v, i) then Hex(HexText(c))
    else Raw(c)
  }

  function TokenFrom(v: Text, i: nat): Token
    requires i <= |v|
    decreases |v| - i
  {
    if i == |v| then [] else [PartOf(v, i)] + TokenFrom(v, i + 1)
  }

  function TokenOf(v: Text): Token {
    TokenFrom(v, 0)
  }

  /** JSON.stringify(v) */
  function Stringify(v: Text): Text {
    TokenText(TokenOf(v))
  }

  lemma HexIsExact(c: CodeUnit)
    ensures IsHex(HexText(c)) && HexUnit(HexText(c)) == c
  {
    HexCharIs(c / 0x10 / 0x10 / 0x10);
    HexCharIs(c / 0x10 / 0x10 % 0x10);
    HexCharIs(c / 0x10 % 0x10);
    HexCharIs(c % 0x10);
    hide HexChar;
  }

  lemma HexCharIs(n: nat)
    requires n < 16
    ensures HexDigit(HexChar(n)) == n
  {
  }

  lemma PartIsExact(v: Text, i: nat)
    requires i < |v|
    ensures IsPart(PartOf(v, i)) && PartUnit(PartOf(v, i)) == v[i]
  {
    HexIsExact(v[i]);
    hide HexText;
  }

  lemma {:induction false} TokenFromIsExact(v: Text, i: nat)
    requires i <= |v|
    ensures IsToken(TokenFrom(v, i)) && TokenUnits(TokenFrom(v, i)) == v[i..]
    decreases |v| - i
  {
    if i < |v| {
      TokenFromIsExact(v, i + 1);
      PartIsExact(v, i);
      TokenSplits(PartOf(v, i), TokenFrom(v, i + 1));
      assert v[i..] == [v[i]] + v[i + 1..];
    }
  }

  /** The written token denotes the string. */
  lemma StringifyIsExact(v: Text)
    ensures IsToken(TokenOf(v)) && TokenUnits(TokenOf(v)) == v
  {
    TokenFromIsExact(v, 0);
    assert v[0..] == v;
  }
}
