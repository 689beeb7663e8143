/** Base64 (RFC 4648, sections 4 and 5) as Go's encoding/base64 reads and writes it. */
module Base64 {

  type Byte = b: int | 0 <= b < 256

  type Bytes = seq<Byte>

  const PAD: Byte := '=' as int

  /** The standard and the URL-safe alphabet, and the standard one without padding. */
  datatype Variant = Standard | UrlSafe | RawStandard

  function Char(n: nat, v: Variant): Byte
    requires n < 64
  {
    if n < 26 then 'A' as int + n
    else if n < 52 then 'a' as int + (n - 26)
    else if n < 62 then '0' as int + (n - 52)
    else if v == UrlSafe then (if n == 62 then '-' as int else '_' as int)
    else if n == 62 then '+' as int else '/' as int
  }

  /** The six bits a character stands for, -1 when it is not in the alphabet. */
  function Sextet(c: Byte, v: Variant): (n: int)
    ensures -1 <= n < 64
  {
    if 'A' as int <= c <= 'Z' as int then c - 'A' as int
    else if 'a' as int <= c <= 'z' as int then c - 'a' as int + 26
    else if '0' as int <= c <= '9' as int then c - '0' as int + 52
    else if c == (if v == UrlSafe then '-' as int else '+' as int) then 62
    else if c == (if v == UrlSafe then '_' as int else '/' as int) then 63
    else -1
  }

  function Encode(b: Bytes, v: Variant): Bytes {
    var end := if v == RawStandard then [] else [PAD];
    if b == [] then []
    else if |b| == 1 then [Char(b[0] / 4, v), Char(b[0] % 4 * 16, v)] + end + end
    else if |b| == 2 then [Char(b[0] / 4, v), Char(b[0] % 4 * 16 + b[1] / 16, v), Char(b[1] % 16 * 4, v)] + end
    else
      [Char(b[0] / 4, v), Char(b[0] % 4 * 16 + b[1] / 16, v), Char(b[1] % 16 * 4 + b[2] / 64, v), Char(b[2] % 64, v)]
      + Encode(b[3..], v)
  }

  datatype Decoded = Corrupt | Decoded(bytes: Bytes)

  /** Line breaks are ignored. */
  function WithoutBreaks(s: Bytes): Bytes {
    if s == [] then []
    else (if s[0] == '\r' as int || s[0] == '\n' as int then [] else [s[0]]) + WithoutBreaks(s[1..])
  }

  function Prepend(head: Bytes, tail: Decoded): Decoded {
    if tail.Decoded? then Decoded(head + tail.bytes) else Corrupt
  }

  function DecodeGroups(s: Bytes, v: Variant): Decoded {
    if s == [] then Decoded([])
    else if |s| == 1 || Sextet(s[0], v) < 0 || Sextet(s[1], v) < 0 then Corrupt
    else
      var n0, n1 := Sextet(s[0], v), Sextet(s[1], v);
      var first := n0 * 4 + n1 / 16;
      if v != RawStandard && |s| == 4 && s[2] == PAD && s[3] == PAD then Decoded([first])
      else if |s| == 2 then (if v == RawStandard then Decoded([first]) else Corrupt)
      else if Sextet(s[2], v) < 0 then Corrupt
      else
        var n2 := Sextet(s[2], v);
        var second := n1 % 16 * 16 + n2 / 4;
        if v != RawStandard && |s| == 4 && s[3] == PAD then Decoded([first, second])
        else if |s| == 3 then (if v == RawStandard then Decoded([first, second]) else Corrupt)
        else if Sextet(s[3], v) < 0 then Corrupt
        else
          var n3 := Sextet(s[3], v);
          Prepend([first, second, n2 % 4 * 64 + n3], DecodeGroups(s[4..], v))
  }

  function Decode(s: Bytes, v: Variant): Decoded {
    DecodeGroups(WithoutBreaks(s), v)
  }

  lemma CharIsSextet(n: nat, v: Variant)
    requires n < 64
    ensures Sextet(Char(n, v), v) == n && Char(n, v) != PAD
    ensures Char(n, v) != '\r' as int && Char(n, v) != '\n' as int
  {
  }

  lemma {:induction false} EncodeHasNoBreaks(b: Bytes, v: Variant)
    ensures forall c :: c in Encode(b, v) ==> c != '\r' as int && c != '\n' as int
  {
    if b != [] {
      CharsAre(b, v);
      if |b| > 3 {
        EncodeHasNoBreaks(b[3..], v);
      }
      hide Char;
    }
  }

  /** The characters of the first group. */
  lemma CharsAre(b: Bytes, v: Variant)
    requires b != []
    ensures b[0] / 4 < 64 && b[0] % 4 * 16 < 64
    ensures |b| > 1 ==> b[0] % 4 * 16 + b[1] / 16 < 64 && b[1] % 16 * 4 < 64
    ensures |b| > 2 ==> b[1] % 16 * 4 + b[2] / 64 < 64 && b[2] % 64 < 64
    ensures forall n: nat :: n < 64 ==> Sextet(Char(n, v), v) == n && Char(n, v) != PAD
    ensures forall n: nat :: n < 64 ==> Char(n, v) != '\r' as int && Char(n, v) != '\n' as int
  {
    forall n: nat | n < 64 ensures Sextet(Char(n, v), v) == n && Char(n, v) != PAD && Char(n, v) != '\r' as int
      && Char(n, v) != '\n' as int {
      CharIsSextet(n, v);
    }
  }

  lemma {:induction false} NothingToDrop(s: Bytes)
    requires forall c :: c in s ==> c != '\r' as int && c != '\n' as int
    ensures WithoutBreaks(s) == s
  {
    if s != [] {
      assert s == [s[0]] + s[1..];
      assert forall c :: c in s[1..] ==> c in s;
      assert s[0] in s;
      NothingToDrop(s[1..]);
    }
  }

  /** The sextets of a group hold its bytes. */
  lemma GroupBits(b0: Byte, b1: Byte, b2: Byte)
    ensures
      var n0, n1, n2, n3 := b0 / 4, b0 % 4 * 16 + b1 / 16, b1 % 16 * 4 + b2 / 64, b2 % 64;
      n0 * 4 + n1 / 16 == b0 && n1 % 16 * 16 + n2 / 4 == b1 && n2 % 4 * 64 + n3 == b2
    ensures b0 / 4 * 4 + b0 % 4 * 16 / 16 == b0
    ensures (b0 % 4 * 16 + b1 / 16) % 16 * 16 + b1 % 16 * 4 / 4 == b1
  {
  }

  lemma {:induction false} DecodesGroups(b: Bytes, v: Variant)
    ensures DecodeGroups(Encode(b, v), v) == Decoded(b)
  {
    hide *;
    if b == [] {
      NoGroups(v);
    } else if |b| <= 2 {
      ShortGroup(b, v);
    } else {
      DecodesGroups(b[3..], v);
      FullGroup(b, v);
      PrependIs([b[0], b[1], b[2]], b[3..]);
      assert b == [b[0], b[1], b[2]] + b[3..];
    }
  }

  lemma NoGroups(v: Variant)
    ensures Encode([], v) == [] && DecodeGroups([], v) == Decoded([])
  {
  }

  lemma PrependIs(head: Bytes, tail: Bytes)
    ensures Prepend(head, Decoded(tail)) == Decoded(head + tail)
  {
  }

  lemma ShortGroup(b: Bytes, v: Variant)
    requires 1 <= |b| <= 2
    ensures DecodeGroups(Encode(b, v), v) == Decoded(b)
  {
    hide Char, Sextet;
    PadIsNone(v);
    var b1 := if |b| > 1 then b[1] else 0;
    GroupBits(b[0], b1, 0);
    CharIsSextet(b[0] / 4, v);
    if |b| == 1 {
      CharIsSextet(b[0] % 4 * 16, v);
      assert b == [b[0]];
    } else {
      CharIsSextet(b[0] % 4 * 16 + b1 / 16, v);
      CharIsSextet(b1 % 16 * 4, v);
      assert b == [b[0], b[1]];
    }
  }

  lemma PadIsNone(v: Variant)
    ensures Sextet(PAD, v) == -1
  {
  }

  lemma FullGroup(b: Bytes, v: Variant)
    requires |b| >= 3
    ensures DecodeGroups(Encode(b, v), v) == Prepend([b[0], b[1], b[2]], DecodeGroups(Encode(b[3..], v), v))
  {
    hide *;
    var n0, n1, n2, n3 := b[0] / 4, b[0] % 4 * 16 + b[1] / 16, b[1] % 16 * 4 + b[2] / 64, b[2] % 64;
    GroupBits(b[0], b[1], b[2]);
    EncodeGroup(b, v);
    CharIsSextet(n0, v);
    CharIsSextet(n1, v);
    CharIsSextet(n2, v);
    CharIsSextet(n3, v);
    var s := Encode(b, v);
    assert s[4..] == Encode(b[3..], v);
    GroupDecodes(s, v, n0, n1, n2, n3);
  }

  lemma EncodeGroup(b: Bytes, v: Variant)
    requires |b| >= 3
    ensures b[0] / 4 < 64 && b[0] % 4 * 16 + b[1] / 16 < 64 && b[1] % 16 * 4 + b[2] / 64 < 64 && b[2] % 64 < 64
    ensures Encode(b, v) == [Char(b[0] / 4, v), Char(b[0] % 4 * 16 + b[1] / 16, v), Char(b[1] % 16 * 4 + b[2] / 64, v),
                             Char(b[2] % 64, v)]
                            + Encode(b[3..], v)
  {
    hide Char;
  }

  lemma GroupDecodes(s: Bytes, v: Variant, n0: nat, n1: nat, n2: nat, n3: nat)
    requires n0 < 64 && n1 < 64 && n2 < 64 && n3 < 64 && |s| >= 4 && s[2] != PAD && s[3] != PAD
    requires Sextet(s[0], v) == n0 && Sextet(s[1], v) == n1 && Sextet(s[2], v) == n2 && Sextet(s[3], v) == n3
    ensures DecodeGroups(s, v) == Prepend([n0 * 4 + n1 / 16, n1 % 16 * 16 + n2 / 4, n2 % 4 * 64 + n3],
                                          DecodeGroups(s[4..], v))
  {
    hide Sextet;
  }

  /** Decoding gives the encoded bytes back. */
  lemma DecodesEncoded(b: Bytes, v: Variant)
    ensures Decode(Encode(b, v), v) == Decoded(b)
  {
    EncodeHasNoBreaks(b, v);
    NothingToDrop(Encode(b, v));
    DecodesGroups(b, v);
  }

  // --- the decoders of the other variants ---

  /** Decoder v may read c as w does, or not at all. */
  predicate ReadsAlike(c: Byte, v: Variant, w: Variant) {
    Sextet(c, v) == Sextet(c, w) || Sextet(c, v) < 0
  }

  /** Text decoder v can read without padding, or with the padding w expects too, w reads the same way. */
  lemma {:induction false} DecodesAlike(s: Bytes, v: Variant, w: Variant)
    requires v != RawStandard && (w == RawStandard ==> PAD !in s) && forall c :: c in s ==> ReadsAlike(c, v, w)
    ensures DecodeGroups(s, v).Decoded? ==> DecodeGroups(s, w) == DecodeGroups(s, v)
    decreases |s|
  {
    hide *;
    if |s| >= 4 {
      assert forall c :: c in s[4..] ==> c in s;
      DecodesAlike(s[4..], v, w);
    }
    forall i | 0 <= i < |s| ensures ReadsAlike(s[i], v, w) && (w == RawStandard ==> s[i] != PAD) {
      assert s[i] in s;
    }
    GroupAlike(s, v, w);
  }

  /** The sextets of the first characters are the same when v can read them at all. */
  lemma GroupAlike(s: Bytes, v: Variant, w: Variant)
    requires v != RawStandard
    requires forall i :: 0 <= i < |s| ==> ReadsAlike(s[i], v, w) && (w == RawStandard ==> s[i] != PAD)
    requires |s| >= 4 && DecodeGroups(s[4..], v).Decoded? ==> DecodeGroups(s[4..], w) == DecodeGroups(s[4..], v)
    ensures DecodeGroups(s, v).Decoded? ==> DecodeGroups(s, w) == DecodeGroups(s, v)
  {
    if |s| >= 4 && DecodeGroups(s, v).Decoded? {
      var a, b, c, d := s[0], s[1], s[2], s[3];
      assert ReadsAlike(a, v, w) && ReadsAlike(b, v, w) && ReadsAlike(c, v, w) && ReadsAlike(d, v, w);
      PadIsNone(v);
      PadIsNone(w);
      hide ReadsAlike;
      AlikeIs(a, v, w);
      AlikeIs(b, v, w);
      AlikeIs(c, v, w);
      AlikeIs(d, v, w);
      hide Sextet;
    } else {
      hide Sextet;
    }
  }

  lemma AlikeIs(c: Byte, v: Variant, w: Variant)
    requires ReadsAlike(c, v, w)
    ensures Sextet(c, v) >= 0 ==> Sextet(c, v) == Sextet(c, w)
  {
  }

  lemma {:induction false} EncodedChars(b: Bytes, v: Variant, w: Variant)
    ensures forall c :: c in Encode(b, v) ==> ReadsAlike(c, w, v)
    ensures v == RawStandard ==> PAD !in Encode(b, v)
  {
    hide Char, ReadsAlike;
    PadAlike(v, w);
    forall n: nat | n < 64 ensures ReadsAlike(Char(n, v), w, v) && Char(n, v) != PAD {
      CharAlike(n, v, w);
    }
    if |b| > 3 {
      EncodedChars(b[3..], v, w);
    }
  }

  lemma CharAlike(n: nat, v: Variant, w: Variant)
    requires n < 64
    ensures ReadsAlike(Char(n, v), w, v) && Char(n, v) != PAD
  {
  }

  lemma PadAlike(v: Variant, w: Variant)
    ensures ReadsAlike(PAD, w, v)
  {
  }

  /** A decoder of another variant that reads an encoding reads the same bytes. */
  lemma OthersDecodeAlike(b: Bytes, v: Variant, w: Variant)
    requires w != RawStandard
    ensures Decode(Encode(b, v), w) == Corrupt || Decode(Encode(b, v), w) == Decoded(b)
  {
    EncodeHasNoBreaks(b, v);
    NothingToDrop(Encode(b, v));
    DecodesGroups(b, v);
    EncodedChars(b, v, w);
    hide *;
    DecodesAlike(Encode(b, v), w, v);
    DecodeIs(Encode(b, v), w);
  }

  lemma DecodeIs(s: Bytes, v: Variant)
    requires WithoutBreaks(s) == s
    ensures Decode(s, v) == DecodeGroups(s, v)
    ensures Decode(s, v) == Corrupt || Decode(s, v).Decoded?
  {
  }

  // --- which text is written ---

  const UPPER := "ABCDEFGHIJKLMNOPQRSTUVWXYZ"
  const LOWER := "abcdefghijklmnopqrstuvwxyz"
  const REST := "0123456789+/"
  const URL_REST := "0123456789-_"

  /** The characters in the order of the sextets they stand for. */
  predicate IsCharOf(c: Byte, n: nat, v: Variant) {
    if n < 26 then c == UPPER[n] as int
    else if n < 52 then c == LOWER[n - 26] as int
    else n < 64 && c == (if v == UrlSafe then URL_REST else REST)[n - 52] as int
  }

  lemma AlphabetIs(n: nat, v: Variant)
    requires n < 64
    ensures IsCharOf(Char(n, v), n, v)
  {
  }

  /** Byte i, zero behind the end. */
  function ByteAt(b: Bytes, i: nat): Byte {
    if i < |b| then b[i] else 0
  }

  /** Character k of t is that of the sextet. */
  predicate IsChar(t: Bytes, k: nat, sextet: nat, v: Variant) {
    k < |t| && IsCharOf(t[k], sextet, v)
  }

  /** The four characters at 4 * g hold the 24 bits of the three bytes at 3 * g, with
      padding for bytes behind the end, or nothing. */
  ghost predicate IsGroup(b: Bytes, v: Variant, t: Bytes, g: nat) {
    var bits := ByteAt(b, 3 * g) * 0x1_0000 + ByteAt(b, 3 * g + 1) * 0x100 + ByteAt(b, 3 * g + 2);
    && IsChar(t, 4 * g, bits / 0x4_0000, v) && IsChar(t, 4 * g + 1, bits / 0x1000 % 64, v)
    && (if 3 * g + 1 < |b| then IsChar(t, 4 * g + 2, bits / 64 % 64, v) else IsEnd(t, 4 * g + 2, v))
    && (if 3 * g + 2 < |b| then IsChar(t, 4 * g + 3, bits % 64, v) else IsEnd(t, 4 * g + 3, v))
  }

  ghost predicate IsEnd(t: Bytes, k: nat, v: Variant) {
    if v == RawStandard then |t| <= k else k < |t| && t[k] == '=' as int
  }

  lemma Bits(b0: Byte, b1: Byte, b2: Byte)
    ensures
      var bits := b0 * 0x1_0000 + b1 * 0x100 + b2;
      && bits / 0x4_0000 == b0 / 4 && bits / 0x1000 % 64 == b0 % 4 * 16 + b1 / 16
      && bits / 64 % 64 == b1 % 16 * 4 + b2 / 64 && bits % 64 == b2 % 64
  {
    var n0, n1, n2, n3 := b0 / 4, b0 % 4 * 16 + b1 / 16, b1 % 16 * 4 + b2 / 64, b2 % 64;
    Sextets(n0, n1, n2, n3);
    assert b0 == 4 * n0 + b0 % 4 && b1 == 16 * (b1 / 16) + b1 % 16 && b2 == 64 * (b2 / 64) + n3;
  }

  lemma Sextets(n0: nat, n1: nat, n2: nat, n3: nat)
    requires n0 < 64 && n1 < 64 && n2 < 64 && n3 < 64
    ensures
      var bits := n0 * 0x4_0000 + n1 * 0x1000 + n2 * 64 + n3;
      bits / 0x4_0000 == n0 && bits / 0x1000 % 64 == n1 && bits / 64 % 64 == n2 && bits % 64 == n3
  {
    var high, middle := n0 * 64 + n1, n0 * 0x1000 + n1 * 64 + n2;
    assert middle / 64 == high && (middle * 64 + n3) / 64 == middle && (middle * 64 + n3) / 0x1000 == high;
    assert high / 64 == n0 && high % 64 == n1 && middle % 64 == n2;
  }

  lemma FirstGroup(b: Bytes, v: Variant)
    requires b != []
    ensures IsGroup(b, v, Encode(b, v), 0)
  {
    hide *;
    var b0, b1, b2 := ByteAt(b, 0), ByteAt(b, 1), ByteAt(b, 2);
    Bits(b0, b1, b2);
    SextetsFit(b0, b1, b2);
    EncodeStarts(b, v, b0, b1, b2);
    AlphabetIs(b0 / 4, v);
    AlphabetIs(b0 % 4 * 16 + b1 / 16, v);
    AlphabetIs(b1 % 16 * 4 + b2 / 64, v);
    AlphabetIs(b2 % 64, v);
    GroupIs(b, v, Encode(b, v), b0 / 4, b0 % 4 * 16 + b1 / 16, b1 % 16 * 4 + b2 / 64, b2 % 64);
  }

  /** The characters of the first group, by their sextets. */
  lemma EncodeStarts(b: Bytes, v: Variant, b0: Byte, b1: Byte, b2: Byte)
    requires b != [] && b0 == ByteAt(b, 0) && b1 == ByteAt(b, 1) && b2 == ByteAt(b, 2)
    requires b0 / 4 < 64 && b0 % 4 * 16 + b1 / 16 < 64 && b1 % 16 * 4 + b2 / 64 < 64 && b2 % 64 < 64
    ensures
      var t := Encode(b, v);
      && |t| >= 2 && t[0] == Char(b0 / 4, v) && t[1] == Char(b0 % 4 * 16 + b1 / 16, v)
      && (if 1 < |b| then |t| >= 3 && t[2] == Char(b1 % 16 * 4 + b2 / 64, v) else IsEnd(t, 2, v))
      && (if 2 < |b| then |t| >= 4 && t[3] == Char(b2 % 64, v) else IsEnd(t, 3, v))
  {
    hide Char;
  }

  lemma GroupIs(b: Bytes, v: Variant, t: Bytes, n0: nat, n1: nat, n2: nat, n3: nat)
    requires
      var bits := ByteAt(b, 0) * 0x1_0000 + ByteAt(b, 1) * 0x100 + ByteAt(b, 2);
      n0 == bits / 0x4_0000 && n1 == bits / 0x1000 % 64 && n2 == bits / 64 % 64 && n3 == bits % 64
    requires |t| >= 2 && IsCharOf(t[0], n0, v) && IsCharOf(t[1], n1, v)
    requires if 1 < |b| then |t| >= 3 && IsCharOf(t[2], n2, v) else IsEnd(t, 2, v)
    requires if 2 < |b| then |t| >= 4 && IsCharOf(t[3], n3, v) else IsEnd(t, 3, v)
    ensures IsGroup(b, v, t, 0)
  {
    hide IsCharOf, IsEnd, ByteAt;
  }

  lemma SextetsFit(b0: Byte, b1: Byte, b2: Byte)
    ensures b0 / 4 < 64 && b0 % 4 * 16 + b1 / 16 < 64 && b1 % 16 * 4 + b2 / 64 < 64 && b2 % 64 < 64
  {
  }

  /** Three bytes become four characters, the last ones as many as are needed, padded. */
  lemma {:induction false} EncodesBits(b: Bytes, v: Variant)
    ensures forall g: nat :: 3 * g < |b| ==> IsGroup(b, v, Encode(b, v), g)
    ensures |Encode(b, v)| == if v == RawStandard then (4 * |b| + 2) / 3 else (|b| + 2) / 3 * 4
  {
    hide IsGroup, Char;
    if b != [] {
      FirstGroup(b, v);
    }
    if |b| > 3 {
      EncodesBits(b[3..], v);
      forall g: nat | 3 * g < |b| ensures IsGroup(b, v, Encode(b, v), g) {
        if g > 0 {
          NextGroup(b, v, g);
        }
      }
    }
  }

  lemma NextGroup(b: Bytes, v: Variant, g: nat)
    requires |b| > 3 && g > 0 && IsGroup(b[3..], v, Encode(b[3..], v), g - 1)
    ensures IsGroup(b, v, Encode(b, v), g)
  {
    hide Encode, Char, IsCharOf;
    EncodeGroup(b, v);
  }

  // --- which texts are read ---

  /** t writes b, but for the bits of its last character that hold nothing of b. */
  ghost predicate Writes(t: Bytes, b: Bytes, v: Variant) {
    var e, last := Encode(b, v), |b| / 3 * 4 + |b| % 3;
    && |t| == |e|
    && forall i :: 0 <= i < |e| ==>
         t[i] == e[i] || (|b| % 3 != 0 && i == last && SameBits(t[i], e[i], if |b| % 3 == 1 then 16 else 4, v))
  }

  predicate SameBits(c: Byte, d: Byte, unused: nat, v: Variant)
    requires unused > 0
  {
    Sextet(c, v) >= 0 && Sextet(d, v) >= 0 && Sextet(c, v) / unused == Sextet(d, v) / unused
  }

  lemma SextetIsChar(c: Byte, v: Variant)
    ensures Sextet(c, v) >= 0 ==> Char(Sextet(c, v), v) == c
  {
  }

  /** The first three bytes are read from the first four characters. */
  lemma ReadsGroup(t: Bytes, b: Bytes, v: Variant)
    requires |b| >= 3
    ensures DecodeGroups(t, v) == Decoded(b) <==>
              && |t| >= 4 && t[..4] == Encode(b, v)[..4] && DecodeGroups(t[4..], v) == Decoded(b[3..])
  {
    hide *;
    EncodeSplits(b, v);
    if |t| >= 4 && t[..4] == Encode(b, v)[..4] {
      GroupDecoded(t, b, v);
      PrependsTo([b[0], b[1], b[2]], DecodeGroups(t[4..], v), b);
    } else if DecodeGroups(t, v) == Decoded(b) {
      FourRead(t, b, v);
    }
  }

  lemma GroupDecoded(t: Bytes, b: Bytes, v: Variant)
    requires |b| >= 3 && |t| >= 4 && |Encode(b, v)| >= 4 && t[..4] == Encode(b, v)[..4]
    ensures DecodeGroups(t, v) == Prepend([b[0], b[1], b[2]], DecodeGroups(t[4..], v))
  {
    hide *;
    SextetsFit(b[0], b[1], b[2]);
    GroupBits(b[0], b[1], b[2]);
    FirstFour(t, Encode(b, v));
    CharsRead(t, b, v, b[0] / 4, b[0] % 4 * 16 + b[1] / 16, b[1] % 16 * 4 + b[2] / 64, b[2] % 64);
  }

  lemma CharsRead(t: Bytes, b: Bytes, v: Variant, n0: nat, n1: nat, n2: nat, n3: nat)
    requires |b| >= 3 && |t| >= 4 && |Encode(b, v)| >= 4 && n0 < 64 && n1 < 64 && n2 < 64 && n3 < 64
    requires n0 == b[0] / 4 && n1 == b[0] % 4 * 16 + b[1] / 16 && n2 == b[1] % 16 * 4 + b[2] / 64 && n3 == b[2] % 64
    requires n0 * 4 + n1 / 16 == b[0] && n1 % 16 * 16 + n2 / 4 == b[1] && n2 % 4 * 64 + n3 == b[2]
    requires t[0] == Encode(b, v)[0] && t[1] == Encode(b, v)[1] && t[2] == Encode(b, v)[2] && t[3] == Encode(b, v)[3]
    ensures DecodeGroups(t, v) == Prepend([b[0], b[1], b[2]], DecodeGroups(t[4..], v))
  {
    hide *;
    EncodeGroup(b, v);
    CharIsSextet(n0, v);
    CharIsSextet(n1, v);
    CharIsSextet(n2, v);
    CharIsSextet(n3, v);
    GroupDecodes(t, v, n0, n1, n2, n3);
  }

  lemma FirstFour(t: Bytes, e: Bytes)
    requires |t| >= 4 && |e| >= 4 && t[..4] == e[..4]
    ensures t[0] == e[0] && t[1] == e[1] && t[2] == e[2] && t[3] == e[3]
  {
    assert forall i :: 0 <= i < 4 ==> t[i] == t[..4][i] && e[i] == e[..4][i];
  }

  lemma PrependsTo(head: Bytes, tail: Decoded, b: Bytes)
    requires |head| == 3 && |b| >= 3 && head == b[..3]
    ensures Prepend(head, tail) == Decoded(b) <==> tail == Decoded(b[3..])
  {
    assert b == b[..3] + b[3..];
    if tail.Decoded? {
      assert (head + tail.bytes)[3..] == tail.bytes;
    }
  }

  lemma FourRead(t: Bytes, b: Bytes, v: Variant)
    requires |b| >= 3 && DecodeGroups(t, v) == Decoded(b)
    ensures |t| >= 4 && |Encode(b, v)| >= 4 && t[..4] == Encode(b, v)[..4]
  {
    hide *;
    EncodeSplits(b, v);
    GroupRead(t, b, v);
    GroupSextets(t[0], t[1], t[2], t[3], b, v);
    assert t[..4] == [t[0], t[1], t[2], t[3]];
  }

  /** Three bytes or more were read from four characters of the alphabet. */
  lemma GroupRead(t: Bytes, b: Bytes, v: Variant)
    requires |b| >= 3 && DecodeGroups(t, v) == Decoded(b)
    ensures |t| >= 4 && Sextet(t[0], v) >= 0 && Sextet(t[1], v) >= 0 && Sextet(t[2], v) >= 0 && Sextet(t[3], v) >= 0
    ensures b[0] == Sextet(t[0], v) * 4 + Sextet(t[1], v) / 16
    ensures b[1] == Sextet(t[1], v) % 16 * 16 + Sextet(t[2], v) / 4
    ensures b[2] == Sextet(t[2], v) % 4 * 64 + Sextet(t[3], v)
  {
    hide Sextet;
    PadIsNone(v);
  }

  lemma GroupSextets(c0: Byte, c1: Byte, c2: Byte, c3: Byte, b: Bytes, v: Variant)
    requires |b| >= 3 && Sextet(c0, v) >= 0 && Sextet(c1, v) >= 0 && Sextet(c2, v) >= 0 && Sextet(c3, v) >= 0
    requires b[0] == Sextet(c0, v) * 4 + Sextet(c1, v) / 16
    requires b[1] == Sextet(c1, v) % 16 * 16 + Sextet(c2, v) / 4
    requires b[2] == Sextet(c2, v) % 4 * 64 + Sextet(c3, v)
    ensures [c0, c1, c2, c3] == Encode(b, v)[..4]
  {
    hide *;
    SextetIsChar(c0, v);
    SextetIsChar(c1, v);
    SextetIsChar(c2, v);
    SextetIsChar(c3, v);
    EncodeGroup(b, v);
    BytesBits(Sextet(c0, v), Sextet(c1, v), Sextet(c2, v), Sextet(c3, v));
  }

  /** The bytes of a group hold its sextets. */
  lemma BytesBits(n0: nat, n1: nat, n2: nat, n3: nat)
    requires n0 < 64 && n1 < 64 && n2 < 64 && n3 < 64
    ensures
      var b0, b1, b2 := n0 * 4 + n1 / 16, n1 % 16 * 16 + n2 / 4, n2 % 4 * 64 + n3;
      b0 / 4 == n0 && b0 % 4 * 16 + b1 / 16 == n1 && b1 % 16 * 4 + b2 / 64 == n2 && b2 % 64 == n3
  {
  }

  lemma WritesGroup(t: Bytes, b: Bytes, v: Variant)
    requires |b| >= 3
    ensures Writes(t, b, v) <==> |t| >= 4 && t[..4] == Encode(b, v)[..4] && Writes(t[4..], b[3..], v)
  {
    hide *;
    EncodeSplits(b, v);
    if Writes(t, b, v) {
      WritesOn(t, b, v);
    }
    if |t| >= 4 && t[..4] == Encode(b, v)[..4] && Writes(t[4..], b[3..], v) {
      WritesBack(t, b, v);
    }
  }

  lemma EncodeSplits(b: Bytes, v: Variant)
    requires |b| >= 3
    ensures |Encode(b, v)| == 4 + |Encode(b[3..], v)| && Encode(b, v)[4..] == Encode(b[3..], v)
  {
    hide *;
    EncodeGroup(b, v);
  }

  lemma WritesOn(t: Bytes, b: Bytes, v: Variant)
    requires |b| >= 3 && Writes(t, b, v) && |Encode(b, v)| >= 4 && Encode(b, v)[4..] == Encode(b[3..], v)
    ensures |t| >= 4 && t[..4] == Encode(b, v)[..4] && Writes(t[4..], b[3..], v)
  {
    hide Encode, SameBits;
    var e := Encode(b, v);
    forall i | 0 <= i < 4 ensures t[..4][i] == e[..4][i] {
      assert t[i] == e[i];
    }
    forall i | 0 <= i < |e| - 4 ensures t[4..][i] == t[i + 4] && e[4..][i] == e[i + 4] {
    }
  }

  lemma WritesBack(t: Bytes, b: Bytes, v: Variant)
    requires |b| >= 3 && |t| >= 4 && |Encode(b, v)| >= 4 && t[..4] == Encode(b, v)[..4]
    requires Writes(t[4..], b[3..], v) && Encode(b, v)[4..] == Encode(b[3..], v)
    ensures Writes(t, b, v)
  {
    hide Encode, SameBits;
    var e := Encode(b, v);
    FirstFour(t, e);
    forall i | 4 <= i < |e| ensures t[i] == t[4..][i - 4] && e[i] == e[4..][i - 4] {
    }
    assert forall i :: 0 <= i < 4 ==> t[i] == e[i];
  }

  lemma ReadsEnd(t: Bytes, b: Bytes, v: Variant)
    requires |b| <= 2
    ensures DecodeGroups(t, v) == Decoded(b) <==> Writes(t, b, v)
  {
    hide *;
    if b == [] {
      ReadsNothing(t, v);
    } else if |b| == 1 {
      ReadsOne(t, b, v);
    } else {
      ReadsTwo(t, b, v);
    }
  }

  lemma ReadsNothing(t: Bytes, v: Variant)
    ensures DecodeGroups(t, v) == Decoded([]) <==> Writes(t, [], v)
  {
    hide Sextet;
  }

  lemma ReadsOne(t: Bytes, b: Bytes, v: Variant)
    requires |b| == 1
    ensures DecodeGroups(t, v) == Decoded(b) <==> Writes(t, b, v)
  {
    var n0, n1 := b[0] / 4, b[0] % 4 * 16;
    CharIsSextet(n0, v);
    CharIsSextet(n1, v);
    hide Sextet, Char;
    OneRead(t, b, v);
    if |t| >= 2 {
      SextetIsChar(t[0], v);
      OneByte(Sextet(t[0], v), Sextet(t[1], v), b[0]);
    }
  }

  /** One byte is read from two characters, padded or not. */
  lemma OneRead(t: Bytes, b: Bytes, v: Variant)
    requires |b| == 1
    ensures DecodeGroups(t, v) == Decoded(b) <==>
              && (if v == RawStandard then |t| == 2 else |t| == 4 && t[2] == PAD && t[3] == PAD)
              && Sextet(t[0], v) >= 0 && Sextet(t[1], v) >= 0 && b[0] == Sextet(t[0], v) * 4 + Sextet(t[1], v) / 16
  {
    hide Sextet;
    PadIsNone(v);
  }

  lemma OneByte(n0: int, n1: int, b0: Byte)
    requires -1 <= n0 < 64 && -1 <= n1 < 64
    ensures n0 >= 0 && n1 >= 0 ==> (b0 == n0 * 4 + n1 / 16 <==> n0 == b0 / 4 && n1 / 16 == b0 % 4 * 16 / 16)
  {
  }

  lemma ReadsTwo(t: Bytes, b: Bytes, v: Variant)
    requires |b| == 2
    ensures DecodeGroups(t, v) == Decoded(b) <==> Writes(t, b, v)
  {
    var n0, n1, n2 := b[0] / 4, b[0] % 4 * 16 + b[1] / 16, b[1] % 16 * 4;
    CharIsSextet(n0, v);
    CharIsSextet(n1, v);
    CharIsSextet(n2, v);
    hide Sextet, Char;
    TwoRead(t, b, v);
    if |t| >= 3 {
      SextetIsChar(t[0], v);
      SextetIsChar(t[1], v);
      TwoBytes(Sextet(t[0], v), Sextet(t[1], v), Sextet(t[2], v), b[0], b[1]);
    }
  }

  lemma TwoRead(t: Bytes, b: Bytes, v: Variant)
    requires |b| == 2
    ensures DecodeGroups(t, v) == Decoded(b) <==>
              && (if v == RawStandard then |t| == 3 else |t| == 4 && t[3] == PAD)
              && Sextet(t[0], v) >= 0 && Sextet(t[1], v) >= 0 && Sextet(t[2], v) >= 0
              && b[0] == Sextet(t[0], v) * 4 + Sextet(t[1], v) / 16
              && b[1] == Sextet(t[1], v) % 16 * 16 + Sextet(t[2], v) / 4
  {
    hide Sextet;
    PadIsNone(v);
  }

  lemma TwoBytes(n0: int, n1: int, n2: int, b0: Byte, b1: Byte)
    requires -1 <= n0 < 64 && -1 <= n1 < 64 && -1 <= n2 < 64
    ensures n0 >= 0 && n1 >= 0 && n2 >= 0 ==>
              (b0 == n0 * 4 + n1 / 16 && b1 == n1 % 16 * 16 + n2 / 4
               <==> n0 == b0 / 4 && n1 == b0 % 4 * 16 + b1 / 16 && n2 / 4 == b1 % 16 * 4 / 4)
  {
  }

  lemma {:induction false} ReadsWritten(t: Bytes, b: Bytes, v: Variant)
    ensures DecodeGroups(t, v) == Decoded(b) <==> Writes(t, b, v)
    decreases |b|
  {
    hide *;
    if |b| >= 3 {
      if |t| >= 4 {
        ReadsWritten(t[4..], b[3..], v);
      }
      ReadsGroup(t, b, v);
      WritesGroup(t, b, v);
    } else {
      ReadsEnd(t, b, v);
    }
  }

  /** A decoder reads exactly the texts of its variant, ignoring line breaks and the
      bits behind the last byte. */
  lemma DecodesExactly(s: Bytes, b: Bytes, v: Variant)
    ensures Decode(s, v) == Decoded(b) <==> Writes(WithoutBreaks(s), b, v)
  {
    hide DecodeGroups, Writes, WithoutBreaks;
    ReadsWritten(WithoutBreaks(s), b, v);
  }
}
