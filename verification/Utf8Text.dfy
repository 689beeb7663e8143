/** UTF-8 (RFC 3629): how characters are written as bytes, and which bytes are
    written characters. */
module Utf8Text {
  import opened Base64

  /** A character of a well-formed string. */
  type Scalar = c: int | 0 <= c < 0xD800 || 0xE000 <= c < 0x11_0000

  type Characters = seq<Scalar>

  function Utf8Char(c: Scalar): (b: Bytes)
    ensures b != []
  {
    if c < 0x80 then [c]
    else if c < 0x800 then [0xC0 + c / 0x40, 0x80 + c % 0x40]
    else if c < 0x1_0000 then [0xE0 + c / 0x40 / 0x40, 0x80 + c / 0x40 % 0x40, 0x80 + c % 0x40]
    else [0xF0 + c / 0x40 / 0x40 / 0x40, 0x80 + c / 0x40 / 0x40 % 0x40, 0x80 + c / 0x40 % 0x40, 0x80 + c % 0x40]
  }

  function Utf8(s: Characters): Bytes {
    if s == [] then [] else Utf8Char(s[0]) + Utf8(s[1..])
  }

  lemma Utf8CharEnds(c: Scalar, d: Scalar, r: Bytes, s: Bytes)
    requires Utf8Char(c) + r == Utf8Char(d) + s
    ensures c == d && r == s
  {
    hide Utf8Char;
    var a, b := Utf8Char(c), Utf8Char(d);
    assert (a + r)[0] == a[0] && (b + s)[0] == b[0];
    LeadTellsLength(c, d);
    SplitAt(a, b, r, s);
    SameBytes(c, d);
  }

  lemma LeadTellsLength(c: Scalar, d: Scalar)
    requires Utf8Char(c)[0] == Utf8Char(d)[0]
    ensures |Utf8Char(c)| == |Utf8Char(d)|
  {
    hide *;
    LeadIs(c);
    LeadIs(d);
  }

  lemma LeadIs(c: Scalar)
    ensures
      var lead := Utf8Char(c)[0];
      |Utf8Char(c)| == if lead < 0x80 then 1 else if lead < 0xE0 then 2 else if lead < 0xF0 then 3 else 4
  {
  }

  lemma SameBytes(c: Scalar, d: Scalar)
    requires Utf8Char(c) == Utf8Char(d)
    ensures c == d
  {
    var a, b := Utf8Char(c), Utf8Char(d);
    assert |a| == |b| && a[0] == b[0];
    assert |a| > 1 ==> a[1] == b[1];
    assert |a| > 2 ==> a[2] == b[2];
    assert |a| > 3 ==> a[3] == b[3];
  }

  /** UTF-8 keeps strings apart. */
  lemma {:induction false} Utf8IsInjective(x: Characters, y: Characters)
    requires Utf8(x) == Utf8(y)
    ensures x == y
  {
    hide Utf8Char;
    if x != [] && y != [] {
      Utf8CharEnds(x[0], y[0], Utf8(x[1..]), Utf8(y[1..]));
      Utf8IsInjective(x[1..], y[1..]);
      assert x == [x[0]] + x[1..] && y == [y[0]] + y[1..];
    }
  }

  lemma SplitAt<T>(x: seq<T>, y: seq<T>, r: seq<T>, s: seq<T>)
    requires |x| == |y| && x + r == y + s
    ensures x == y && r == s
  {
    assert x == (x + r)[..|x|] && y == (y + s)[..|y|];
    assert r == (x + r)[|x|..] && s == (y + s)[|y|..];
  }

  // --- valid bytes (RFC 3629, section 4) ---

  predicate IsTail(b: Bytes, i: nat) {
    i < |b| && 0x80 <= b[i] <= 0xBF
  }

  predicate IsAt(b: Bytes, i: nat, low: int, high: int) {
    i < |b| && low <= b[i] <= high
  }

  /** The length of the character a byte sequence starts with, 0 when there is none. */
  function CharLength(b: Bytes): (n: nat)
    ensures n <= |b|
  {
    if b == [] then 0
    else if b[0] <= 0x7F then 1
    else if IsAt(b, 0, 0xC2, 0xDF) && IsTail(b, 1) then 2
    else if (|| (b[0] == 0xE0 && IsAt(b, 1, 0xA0, 0xBF))
             || ((IsAt(b, 0, 0xE1, 0xEC) || IsAt(b, 0, 0xEE, 0xEF)) && IsTail(b, 1))
             || (b[0] == 0xED && IsAt(b, 1, 0x80, 0x9F))) && IsTail(b, 2) then 3
    else if (|| (b[0] == 0xF0 && IsAt(b, 1, 0x90, 0xBF))
             || (IsAt(b, 0, 0xF1, 0xF3) && IsTail(b, 1))
             || (b[0] == 0xF4 && IsAt(b, 1, 0x80, 0x8F))) && IsTail(b, 2) && IsTail(b, 3) then 4
    else 0
  }

  predicate IsUtf8(b: Bytes) {
    b == [] || (CharLength(b) > 0 && IsUtf8(b[CharLength(b)..]))
  }

  /** The character that the first bytes write. */
  function FirstChar(b: Bytes): (c: int)
    requires CharLength(b) > 0
  {
    var n := CharLength(b);
    if n == 1 then b[0]
    else if n == 2 then More(b[0] % 0x20, b[1])
    else if n == 3 then More(More(b[0] % 0x10, b[1]), b[2])
    else More(More(More(b[0] % 8, b[1]), b[2]), b[3])
  }

  /** Six more bits. */
  function More(c: int, tail: Byte): int {
    c * 0x40 + tail % 0x40
  }

  lemma MoreSplits(c: int, tail: Byte)
    requires 0x80 <= tail <= 0xBF
    ensures More(c, tail) / 0x40 == c && 0x80 + More(c, tail) % 0x40 == tail
  {
  }

  /** What is valid as one character is how that character is written. */
  lemma FirstCharIsWritten(b: Bytes)
    requires CharLength(b) > 0
    ensures var c := FirstChar(b); (0 <= c < 0xD800 || 0xE000 <= c < 0x11_0000) && Utf8Char(c) == b[..CharLength(b)]
  {
    hide *;
    LengthIs(b);
    if CharLength(b) == 1 {
      OneWritten(b);
    } else if CharLength(b) == 2 {
      TwoWritten(b);
    } else if CharLength(b) == 3 {
      ThreeWritten(b);
    } else {
      FourWritten(b);
    }
  }

  lemma LengthIs(b: Bytes)
    ensures 0 <= CharLength(b) <= 4
  {
  }

  lemma OneWritten(b: Bytes)
    requires CharLength(b) == 1
    ensures var c := FirstChar(b); (0 <= c < 0xD800 || 0xE000 <= c < 0x11_0000) && Utf8Char(c) == b[..CharLength(b)]
  {
    var c := FirstChar(b);
    hide CharLength, FirstChar, More;
    assert b[..1] == [b[0]];
  }

  lemma TwoWritten(b: Bytes)
    requires CharLength(b) == 2
    ensures var c := FirstChar(b); (0 <= c < 0xD800 || 0xE000 <= c < 0x11_0000) && Utf8Char(c) == b[..CharLength(b)]
  {
    TwoBytes(b);
    var c := FirstChar(b);
    hide CharLength, FirstChar, More;
    assert b[..2] == [b[0], b[1]];
  }

  lemma ThreeWritten(b: Bytes)
    requires CharLength(b) == 3
    ensures var c := FirstChar(b); (0 <= c < 0xD800 || 0xE000 <= c < 0x11_0000) && Utf8Char(c) == b[..CharLength(b)]
  {
    ThreeBytes(b);
    var c := FirstChar(b);
    hide CharLength, FirstChar, More;
    assert b[..3] == [b[0], b[1], b[2]];
  }

  lemma FourWritten(b: Bytes)
    requires CharLength(b) == 4
    ensures var c := FirstChar(b); (0 <= c < 0xD800 || 0xE000 <= c < 0x11_0000) && Utf8Char(c) == b[..CharLength(b)]
  {
    hide *;
    FourBytes(b);
    FourIsFirst(b);
    WrittenAsFour(FirstChar(b), b[0], b[1], b[2], b[3]);
    assert b[..4] == [b[0], b[1], b[2], b[3]];
  }

  lemma FourIsFirst(b: Bytes)
    requires CharLength(b) == 4
    ensures FirstChar(b) == More(More(More(b[0] % 8, b[1]), b[2]), b[3])
  {
    hide CharLength, More;
  }

  lemma WrittenAsFour(c: Scalar, b0: Byte, b1: Byte, b2: Byte, b3: Byte)
    requires c >= 0x1_0000
    requires 0xF0 + c / 0x40 / 0x40 / 0x40 == b0 && 0x80 + c / 0x40 / 0x40 % 0x40 == b1
    requires 0x80 + c / 0x40 % 0x40 == b2 && 0x80 + c % 0x40 == b3
    ensures Utf8Char(c) == [b0, b1, b2, b3]
  {
  }

  lemma TwoBytes(b: Bytes)
    requires CharLength(b) == 2
    ensures var c := More(b[0] % 0x20, b[1]); 0x80 <= c < 0x800 && 0xC0 + c / 0x40 == b[0] && 0x80 + c % 0x40 == b[1]
  {
    MoreSplits(b[0] % 0x20, b[1]);
  }

  lemma ThreeBytes(b: Bytes)
    requires CharLength(b) == 3
    ensures var c := More(More(b[0] % 0x10, b[1]), b[2]);
      && (0x800 <= c < 0xD800 || 0xE000 <= c < 0x1_0000)
      && 0xE0 + c / 0x40 / 0x40 == b[0] && 0x80 + c / 0x40 % 0x40 == b[1] && 0x80 + c % 0x40 == b[2]
  {
    MoreSplits(b[0] % 0x10, b[1]);
    MoreSplits(More(b[0] % 0x10, b[1]), b[2]);
  }

  lemma FourBytes(b: Bytes)
    requires CharLength(b) == 4
    ensures var c := More(More(More(b[0] % 8, b[1]), b[2]), b[3]);
      && 0x1_0000 <= c < 0x11_0000
      && 0xF0 + c / 0x40 / 0x40 / 0x40 == b[0] && 0x80 + c / 0x40 / 0x40 % 0x40 == b[1]
      && 0x80 + c / 0x40 % 0x40 == b[2] && 0x80 + c % 0x40 == b[3]
  {
    MoreSplits(b[0] % 8, b[1]);
    MoreSplits(More(b[0] % 8, b[1]), b[2]);
    MoreSplits(More(More(b[0] % 8, b[1]), b[2]), b[3]);
  }

  /** A written character is valid, with the bits of its bytes. */
  lemma WrittenIsFirst(c: Scalar, rest: Bytes)
    ensures CharLength(Utf8Char(c) + rest) == |Utf8Char(c)| && FirstChar(Utf8Char(c) + rest) == c
  {
    var b := Utf8Char(c) + rest;
    if c < 0x800 {
    } else if c < 0x1_0000 {
      WritesThree(c);
      assert b[0] == Utf8Char(c)[0] && b[1] == Utf8Char(c)[1] && b[2] == Utf8Char(c)[2];
    } else {
      WritesFour(c);
      assert b[0] == Utf8Char(c)[0] && b[1] == Utf8Char(c)[1] && b[2] == Utf8Char(c)[2] && b[3] == Utf8Char(c)[3];
    }
    assert CharLength(b) == |Utf8Char(c)|;
    FirstCharIsWritten(b);
    hide CharLength, FirstChar, Utf8Char;
    assert b[..|Utf8Char(c)|] == Utf8Char(c);
    SameBytes(FirstChar(b), c);
  }

  lemma WritesThree(c: Scalar)
    requires 0x800 <= c < 0x1_0000
    ensures var b := Utf8Char(c); |b| == 3 && IsTail(b, 1) && IsTail(b, 2) && 0xE0 <= b[0] <= 0xEF
    ensures var b := Utf8Char(c); (b[0] == 0xE0 ==> b[1] >= 0xA0) && (b[0] == 0xED ==> b[1] <= 0x9F)
  {
  }

  lemma WritesFour(c: Scalar)
    requires 0x1_0000 <= c
    ensures var b := Utf8Char(c); |b| == 4 && IsTail(b, 1) && IsTail(b, 2) && IsTail(b, 3) && 0xF0 <= b[0] <= 0xF4
    ensures var b := Utf8Char(c); (b[0] == 0xF0 ==> b[1] >= 0x90) && (b[0] == 0xF4 ==> b[1] <= 0x8F)
  {
  }

  /** The bytes write some characters. */
  ghost predicate IsWritten(b: Bytes) {
    exists s: Characters :: Utf8(s) == b
  }

  /** Exactly such bytes are valid UTF-8. */
  lemma ValidIsWritten(b: Bytes)
    ensures IsUtf8(b) <==> IsWritten(b)
  {
    hide CharLength, Utf8Char;
    if IsUtf8(b) {
      var s := CharactersOf(b);
      assert Utf8(s) == b;
    }
    forall s: Characters | Utf8(s) == b ensures IsUtf8(b) {
      WrittenIsValid(s);
    }
  }

  lemma {:induction false} CharactersOf(b: Bytes) returns (s: Characters)
    requires IsUtf8(b)
    ensures Utf8(s) == b
    decreases |b|
  {
    hide *;
    IsUtf8Is(b);
    if b == [] {
      s := [];
      Utf8Is([]);
    } else {
      var n := CharLength(b);
      var rest := CharactersOf(b[n..]);
      FirstCharIsWritten(b);
      var c: Scalar := FirstChar(b);
      s := [c] + rest;
      Utf8Is(s);
      assert s[1..] == rest && b == b[..n] + b[n..];
    }
  }

  lemma IsUtf8Is(b: Bytes)
    ensures IsUtf8(b) <==> b == [] || (CharLength(b) > 0 && IsUtf8(b[CharLength(b)..]))
  {
    hide CharLength;
  }

  lemma Utf8Is(s: Characters)
    ensures Utf8(s) == if s == [] then [] else Utf8Char(s[0]) + Utf8(s[1..])
  {
    hide Utf8Char;
  }

  lemma {:induction false} WrittenIsValid(s: Characters)
    ensures IsUtf8(Utf8(s))
  {
    hide CharLength, Utf8Char;
    if s != [] {
      var rest := Utf8(s[1..]);
      WrittenIsFirst(s[0], rest);
      WrittenIsValid(s[1..]);
      assert (Utf8Char(s[0]) + rest)[|Utf8Char(s[0])|..] == rest;
    }
  }
}
