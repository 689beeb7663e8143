/** The escapes of JSON strings, character by character: which ones
    frontend/src/lib/canonical-json.ts reads and which ones JSON.stringify writes. */
module JsonEscapes {
  import opened JsonText
  import opened JsonString

  const LOWER_DIGITS := "0123456789abcdef"
  const UPPER_DIGITS := "0123456789ABCDEF"

  // --- what is read ---

  /** The letter behind a backslash and the code unit they stand for. */
  predicate IsEscape(letter: CodeUnit, unit: CodeUnit) {
    || (letter == '\"' as int && unit == 0x22) || (letter == '\\' as int && unit == 0x5C)
    || (letter == '/' as int && unit == 0x2F) || (letter == 'b' as int && unit == 0x08)
    || (letter == 'f' as int && unit == 0x0C) || (letter == 'n' as int && unit == 0x0A)
    || (letter == 'r' as int && unit == 0x0D) || (letter == 't' as int && unit == 0x09)
  }

  predicate IsHexDigit(c: CodeUnit, n: int) {
    0 <= n < 16 && (c == LOWER_DIGITS[n] as int || c == UPPER_DIGITS[n] as int)
  }

  /** Exactly these two-character escapes are read. */
  lemma EscapesRead(letter: CodeUnit, unit: CodeUnit)
    ensures ShortUnit(letter) == unit <==> IsEscape(letter, unit)
  {
  }

  lemma HexDigitsRead(c: CodeUnit, n: nat)
    ensures HexDigit(c) == n <==> IsHexDigit(c, n)
  {
  }

  /** Four hexadecimal digits, the highest first. */
  lemma HexRead(d: Text, a: nat, b: nat, c: nat, e: nat)
    requires |d| == 4 && IsHexDigit(d[0], a) && IsHexDigit(d[1], b) && IsHexDigit(d[2], c) && IsHexDigit(d[3], e)
    ensures IsHex(d) && HexUnit(d) == ((a * 16 + b) * 16 + c) * 16 + e
  {
    hide IsHexDigit, HexDigit;
    HexDigitsRead(d[0], a);
    HexDigitsRead(d[1], b);
    HexDigitsRead(d[2], c);
    HexDigitsRead(d[3], e);
  }

  // --- what is written ---

  ghost predicate IsHexText(t: Text, n: nat) {
    && |t| == 4 && t[0] == LOWER_DIGITS[n / 0x1000 % 16] as int && t[1] == LOWER_DIGITS[n / 0x100 % 16] as int
    && t[2] == LOWER_DIGITS[n / 0x10 % 16] as int && t[3] == LOWER_DIGITS[n % 16] as int
  }

  /** Half of a surrogate pair without the other half. */
  ghost predicate IsHalf(v: Text, i: nat)
    requires i < |v|
  {
    || (0xD800 <= v[i] <= 0xDBFF && (i + 1 == |v| || !(0xDC00 <= v[i + 1] <= 0xDFFF)))
    || (0xDC00 <= v[i] <= 0xDFFF && (i == 0 || !(0xD800 <= v[i - 1] <= 0xDBFF)))
  }

  /** How code unit i is written: controls, quotes, backslashes and half pairs are
      escaped, with a letter where there is one, a slash is not. */
  ghost predicate IsWritten(v: Text, i: nat, t: Text)
    requires i < |v|
  {
    var c := v[i];
    if c < 0x20 || c == 0x22 || c == 0x5C || IsHalf(v, i) then
      && 2 <= |t| && t[0] == '\\' as int
      && if c == 0x22 || c == 0x5C || (0x08 <= c <= 0x0D && c != 0x0B) then |t| == 2 && IsEscape(t[1], c)
         else t[1] == 'u' as int && IsHexText(t[2..], c)
    else t == [c]
  }

  ghost function Joined(pieces: seq<Text>): Text {
    if pieces == [] then [] else pieces[0] + Joined(pieces[1..])
  }

  lemma PartIsWritten(v: Text, i: nat)
    requires i < |v|
    ensures IsWritten(v, i, PartText(PartOf(v, i)))
  {
    hide HexText;
    var p := PartOf(v, i);
    if p.Hex? {
      HexIsWritten(v[i]);
      assert PartText(p)[2..] == p.digits;
    }
  }

  lemma HexIsWritten(c: CodeUnit)
    ensures IsHexText(HexText(c), c)
  {
    DigitsOf(c);
    DigitIsWritten(c / 0x1000 % 16);
    DigitIsWritten(c / 0x100 % 16);
    DigitIsWritten(c / 0x10 % 16);
    DigitIsWritten(c % 16);
    hide HexChar;
  }

  lemma DigitsOf(c: CodeUnit)
    ensures c / 0x10 / 0x10 / 0x10 == c / 0x1000 && c / 0x1000 % 16 == c / 0x1000
    ensures c / 0x10 / 0x10 == c / 0x100
  {
  }

  lemma DigitIsWritten(n: nat)
    requires n < 16
    ensures HexChar(n) == LOWER_DIGITS[n] as int
  {
  }

  lemma {:induction false} PiecesFrom(v: Text, i: nat) returns (pieces: seq<Text>)
    requires i <= |v|
    ensures |pieces| == |v| - i && BodyText(TokenFrom(v, i)) == Joined(pieces)
    ensures forall k :: 0 <= k < |pieces| ==> IsWritten(v, i + k, pieces[k])
    decreases |v| - i
  {
    hide IsWritten, PartOf, PartText;
    if i == |v| {
      pieces := [];
    } else {
      var more := PiecesFrom(v, i + 1);
      PartIsWritten(v, i);
      pieces := [PartText(PartOf(v, i))] + more;
      assert pieces[1..] == more && TokenFrom(v, i)[1..] == TokenFrom(v, i + 1);
    }
  }

  /** JSON.stringify writes the code units one after the other between quotes. */
  lemma StringifyWrites(v: Text) returns (pieces: seq<Text>)
    ensures Stringify(v) == ['\"' as int] + Joined(pieces) + ['\"' as int] && |pieces| == |v|
    ensures forall i :: 0 <= i < |v| ==> IsWritten(v, i, pieces[i])
  {
    hide TokenFrom, BodyText, IsWritten;
    pieces := PiecesFrom(v, 0);
  }
}
