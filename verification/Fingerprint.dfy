/** The bytes a message fingerprint hashes in exact mode: fingerprintInput of
    frontend/src/lib/message-fingerprint.ts. */
module Fingerprint {
  import opened Base64
  import opened Sorting
  import opened JsonText
  import opened JsonNumber
  import opened Utf8Text

  /** Key or value as shown; binary data as the bytes its base64 form decodes to. */
  datatype Part = NullPart | EmptyPart | Binary(bytes: Bytes) | Plain(text: Characters)

  datatype Header = Header(name: Characters, value: Part)

  datatype Content = Content(key: Part, value: Part, headers: map<Characters, Part>)

  const TAG_TEXT: Byte := 'T' as int
  const TAG_BINARY: Byte := 'B' as int
  const LINE_END: Byte := '\n' as int
  const LENGTH_END: Byte := ':' as int

  // --- fields ---

  function DigitByte(c: CodeUnit): Byte {
    if IsDigit(c) then c else ZERO
  }

  /** The decimal digits of a length. */
  function Length(n: nat): Bytes {
    var t := Decimal(n);
    seq(|t|, i requires 0 <= i < |t| => DigitByte(t[i]))
  }

  lemma LengthIsDecimal(n: nat)
    ensures |Length(n)| == |Decimal(n)| && forall i :: 0 <= i < |Length(n)| ==> Length(n)[i] == Decimal(n)[i]
    ensures AreDigits(Length(n))
  {
    var t := Decimal(n);
    forall i | 0 <= i < |t| ensures IsDigit(t[i]) {
      assert t[i] in t;
    }
  }

  predicate AreDigits(b: Bytes) {
    forall i :: 0 <= i < |b| ==> IsDigit(b[i])
  }

  /** Two runs of digits in front of the same other byte have one length. */
  lemma {:induction false} RunsEnd(a: Bytes, b: Bytes, end: Byte, r: Bytes, s: Bytes)
    requires AreDigits(a) && AreDigits(b) && !IsDigit(end) && a + ([end] + r) == b + ([end] + s)
    ensures a == b && r == s
  {
    var x, y := a + ([end] + r), b + ([end] + s);
    assert x[0] == if a == [] then end else a[0];
    assert y[0] == if b == [] then end else b[0];
    if a == [] {
      assert x[1..] == r && y[1..] == s;
    } else {
      assert x[1..] == a[1..] + ([end] + r) && y[1..] == b[1..] + ([end] + s);
      RunsEnd(a[1..], b[1..], end, r, s);
      assert a == [a[0]] + a[1..] && b == [b[0]] + b[1..];
    }
  }

  lemma LengthEnds(m: nat, n: nat, end: Byte, r: Bytes, s: Bytes)
    requires Length(m) + ([end] + r) == Length(n) + ([end] + s) && !IsDigit(end)
    ensures m == n && r == s
  {
    hide Decimal, Length, AreDigits;
    LengthIsDecimal(m);
    LengthIsDecimal(n);
    RunsEnd(Length(m), Length(n), end, r, s);
    assert Decimal(m) == Decimal(n);
    DecimalValue(m);
    DecimalValue(n);
  }

  /** `<tag><length>:<bytes>` and a line end */
  function Field(tag: Byte, b: Bytes): Bytes {
    [tag] + (Length(|b|) + ([LENGTH_END] + (b + [LINE_END])))
  }

  /** A tag, the length in decimal digits, a colon, the bytes and a line end. */
  lemma FieldIs(tag: Byte, b: Bytes) returns (digits: Bytes)
    ensures Field(tag, b) == [tag] + digits + [':' as int] + b + ['\n' as int]
    ensures digits != [] && (b != [] ==> digits[0] != '0' as int)
    ensures AreDigits(digits) && IsDigits(digits) && Nat(digits) == |b|
  {
    hide Length, Nat, Decimal;
    digits := Length(|b|);
    LengthIsDecimal(|b|);
    DecimalValue(|b|);
    assert digits == Decimal(|b|);
  }

  lemma FieldEnds(t: Byte, u: Byte, x: Bytes, y: Bytes, r: Bytes, s: Bytes)
    requires Field(t, x) + r == Field(u, y) + s
    ensures t == u && x == y && r == s
  {
    hide Length;
    var xr, ys := x + [LINE_END] + r, y + [LINE_END] + s;
    assert Field(t, x) + r == [t] + (Length(|x|) + ([LENGTH_END] + xr));
    assert Field(u, y) + s == [u] + (Length(|y|) + ([LENGTH_END] + ys));
    SplitAt([t], [u], Length(|x|) + ([LENGTH_END] + xr), Length(|y|) + ([LENGTH_END] + ys));
    LengthEnds(|x|, |y|, LENGTH_END, xr, ys);
    assert xr == x + ([LINE_END] + r) && ys == y + ([LINE_END] + s);
    SplitAt(x, y, [LINE_END] + r, [LINE_END] + s);
    SplitAt([LINE_END], [LINE_END], r, s);
  }

  function PartInput(p: Part): Bytes {
    match p
    case NullPart => ['N' as int, LINE_END]
    case EmptyPart => ['E' as int, LINE_END]
    case Binary(b) => Field(TAG_BINARY, b)
    case Plain(t) => Field(TAG_TEXT, Utf8(t))
  }

  lemma PartEnds(p: Part, q: Part, r: Bytes, s: Bytes)
    requires PartInput(p) + r == PartInput(q) + s
    ensures p == q && r == s
  {
    hide Length, Utf8;
    var a, b := PartInput(p), PartInput(q);
    assert (a + r)[0] == a[0] && (b + s)[0] == b[0];
    match p
    case NullPart => SplitAt(a, b, r, s);
    case EmptyPart => SplitAt(a, b, r, s);
    case Binary(x) => FieldEnds(TAG_BINARY, TAG_BINARY, x, q.bytes, r, s);
    case Plain(x) =>
      FieldEnds(TAG_TEXT, TAG_TEXT, Utf8(x), Utf8(q.text), r, s);
      Utf8IsInjective(x, q.text);
  }

  // --- headers ---

  function HeadersInput(headers: seq<Header>): Bytes {
    if headers == [] then []
    else Field(TAG_TEXT, Utf8(headers[0].name)) + (PartInput(headers[0].value) + HeadersInput(headers[1..]))
  }

  lemma {:induction false} HeadersEnd(x: seq<Header>, y: seq<Header>)
    requires |x| == |y| && HeadersInput(x) == HeadersInput(y)
    ensures x == y
  {
    hide Field, Utf8, PartInput;
    if x != [] {
      var p, q := PartInput(x[0].value) + HeadersInput(x[1..]), PartInput(y[0].value) + HeadersInput(y[1..]);
      FieldEnds(TAG_TEXT, TAG_TEXT, Utf8(x[0].name), Utf8(y[0].name), p, q);
      Utf8IsInjective(x[0].name, y[0].name);
      PartEnds(x[0].value, y[0].value, HeadersInput(x[1..]), HeadersInput(y[1..]));
      HeadersEnd(x[1..], y[1..]);
      assert x == [x[0]] + x[1..] && y == [y[0]] + y[1..];
    }
  }

  /** H, the number of headers and a line end; the headers follow in the order of their names. */
  function CountInput(n: nat): Bytes {
    ['H' as int] + (Length(n) + [LINE_END])
  }

  lemma CountEnds(m: nat, n: nat, r: Bytes, s: Bytes)
    requires CountInput(m) + r == CountInput(n) + s
    ensures m == n && r == s
  {
    hide Decimal, Length;
    var a, b := Length(m), Length(n);
    assert CountInput(m) + r == ['H' as int] + (a + ([LINE_END] + r))
      && CountInput(n) + s == ['H' as int] + (b + ([LINE_END] + s));
    SplitAt(['H' as int], ['H' as int], a + ([LINE_END] + r), b + ([LINE_END] + s));
    LengthEnds(m, n, LINE_END, r, s);
  }

  // --- the order of the headers ---

  /** The code units of a character, a surrogate pair above 0xFFFF. */
  function Units(c: Scalar): (t: Text)
    ensures t != []
  {
    if c < 0x1_0000 then [c] else [0xD800 + (c - 0x1_0000) / 0x400, 0xDC00 + (c - 0x1_0000) % 0x400]
  }

  function Utf16(s: Characters): Text {
    if s == [] then [] else Units(s[0]) + Utf16(s[1..])
  }

  /** The order of Array.prototype.sort: by code units. */
  function ByUnits(): Less<Characters> {
    (x: Characters, y: Characters) => Precedes(Utf16(x), Utf16(y))
  }

  lemma UnitsEnd(c: Scalar, d: Scalar, r: Text, s: Text)
    requires Units(c) + r == Units(d) + s
    ensures c == d && r == s
  {
    var a, b := Units(c), Units(d);
    assert (a + r)[0] == a[0] && (b + s)[0] == b[0];
    SplitAt(a, b, r, s);
    assert |a| > 1 ==> a[1] == b[1];
  }

  lemma {:induction false} Utf16IsInjective(x: Characters, y: Characters)
    requires Utf16(x) == Utf16(y)
    ensures x == y
  {
    hide Units;
    if x != [] && y != [] {
      UnitsEnd(x[0], y[0], Utf16(x[1..]), Utf16(y[1..]));
      Utf16IsInjective(x[1..], y[1..]);
      assert x == [x[0]] + x[1..] && y == [y[0]] + y[1..];
    }
  }

  lemma UnitsAreOrder()
    ensures IsOrder(ByUnits())
    ensures forall x, y :: !ByUnits()(x, y) && !ByUnits()(y, x) ==> x == y
  {
    hide Precedes, Utf16;
    forall a, b, c | !ByUnits()(c, b) && !ByUnits()(b, a) ensures !ByUnits()(c, a) {
      PrecedesIsTransitive(Utf16(a), Utf16(b), Utf16(c));
    }
    forall a, b ensures ByUnits()(a, b) ==> !ByUnits()(b, a) {
      PrecedesIsTotal(Utf16(a), Utf16(b));
    }
    forall x, y | !ByUnits()(x, y) && !ByUnits()(y, x) ensures x == y {
      PrecedesIsTotal(Utf16(x), Utf16(y));
      Utf16IsInjective(x, y);
    }
  }

  /** The same names in order, each once, are the same list. */
  lemma {:induction false} OneOrder(x: seq<Characters>, y: seq<Characters>, less: Less<Characters>)
    requires NoDup(x) && NoDup(y) && Sorted(x, less) && Sorted(y, less) && (forall k :: k in x <==> k in y)
    requires forall a, b :: !less(a, b) && !less(b, a) ==> a == b
    ensures x == y
  {
    BothAreEmpty(x, y);
    if x != [] {
      assert x == [x[0]] + x[1..] && y == [y[0]] + y[1..];
      assert x[0] in y && y[0] in x;
      assert x[0] == y[0];
      forall k ensures k in x[1..] <==> k in y[1..] {
        assert k in x <==> k == x[0] || k in x[1..];
        assert k in y <==> k == y[0] || k in y[1..];
      }
      OneOrder(x[1..], y[1..], less);
    }
  }

  lemma BothAreEmpty(x: seq<Characters>, y: seq<Characters>)
    requires forall k :: k in x <==> k in y
    ensures x == [] <==> y == []
  {
    if x != [] {
      assert x[0] in x;
    }
    if y != [] {
      assert y[0] in y;
    }
  }

  /** keys lists the header names, each once. */
  ghost predicate Lists(keys: seq<Characters>, headers: map<Characters, Part>) {
    && NoDup(keys)
    && (forall k :: k in headers <==> k in keys)
  }

  function Listed(names: seq<Characters>, headers: map<Characters, Part>): (r: seq<Header>)
    requires forall k :: k in names ==> k in headers
    ensures |r| == |names| && forall i :: 0 <= i < |names| ==> r[i] == Header(names[i], headers[names[i]])
  {
    seq(|names|, i requires 0 <= i < |names| && names[i] in headers => Header(names[i], headers[names[i]]))
  }

  /** The whole input; `prefix` is the line that names the format. */
  function FingerprintInput(prefix: Bytes, c: Content, names: seq<Characters>): Bytes
    requires forall k :: k in names ==> k in c.headers
  {
    prefix + (PartInput(c.key) + (PartInput(c.value) + (CountInput(|names|) + HeadersInput(Listed(names, c.headers)))))
  }

  /** No two different records serialize alike. */
  lemma FingerprintInputIsInjective(prefix: Bytes, a: Content, namesA: seq<Characters>, b: Content,
                                    namesB: seq<Characters>)
    requires Lists(namesA, a.headers) && Lists(namesB, b.headers)
    requires FingerprintInput(prefix, a, namesA) == FingerprintInput(prefix, b, namesB)
    ensures a == b
  {
    hide PartInput, CountInput, HeadersInput;
    var la, lb := Listed(namesA, a.headers), Listed(namesB, b.headers);
    var ha, hb := CountInput(|la|) + HeadersInput(la), CountInput(|lb|) + HeadersInput(lb);
    var va, vb := PartInput(a.value) + ha, PartInput(b.value) + hb;
    SplitAt(prefix, prefix, PartInput(a.key) + va, PartInput(b.key) + vb);
    PartEnds(a.key, b.key, va, vb);
    PartEnds(a.value, b.value, ha, hb);
    CountEnds(|la|, |lb|, HeadersInput(la), HeadersInput(lb));
    HeadersEnd(la, lb);
    SameHeaders(namesA, a.headers, namesB, b.headers);
  }

  /** What is written of a record, however its headers are listed. */
  function InputOf(prefix: Bytes, c: Content, keys: seq<Characters>): Bytes
    requires forall k :: k in keys ==> k in c.headers
  {
    SameMultiset(keys, Sort(keys, ByUnits()));
    FingerprintInput(prefix, c, Sort(keys, ByUnits()))
  }

  /** Two records have the same input if and only if they are the same, in whatever order
      their headers come. */
  lemma InputDecides(prefix: Bytes, a: Content, keysA: seq<Characters>, b: Content, keysB: seq<Characters>)
    requires Lists(keysA, a.headers) && Lists(keysB, b.headers)
    ensures InputOf(prefix, a, keysA) == InputOf(prefix, b, keysB) <==> a == b
  {
    hide *;
    ListsSorted(keysA, a.headers);
    ListsSorted(keysB, b.headers);
    var namesA, namesB := Sort(keysA, ByUnits()), Sort(keysB, ByUnits());
    InputIs(prefix, a, keysA);
    InputIs(prefix, b, keysB);
    if FingerprintInput(prefix, a, namesA) == FingerprintInput(prefix, b, namesB) {
      FingerprintInputIsInjective(prefix, a, namesA, b, namesB);
    }
    if a == b {
      SortedAlike(keysA, keysB, a.headers);
    }
  }

  lemma InputIs(prefix: Bytes, c: Content, keys: seq<Characters>)
    requires (forall k :: k in keys ==> k in c.headers) && forall k :: k in Sort(keys, ByUnits()) ==> k in c.headers
    ensures InputOf(prefix, c, keys) == FingerprintInput(prefix, c, Sort(keys, ByUnits()))
  {
  }

  lemma ListsSorted(keys: seq<Characters>, headers: map<Characters, Part>)
    requires Lists(keys, headers)
    ensures Lists(Sort(keys, ByUnits()), headers)
    ensures (forall k :: k in keys ==> k in headers) && forall k :: k in Sort(keys, ByUnits()) ==> k in headers
  {
    hide Sort;
    SameMultiset(keys, Sort(keys, ByUnits()));
  }

  lemma SortedAlike(x: seq<Characters>, y: seq<Characters>, headers: map<Characters, Part>)
    requires Lists(x, headers) && Lists(y, headers)
    ensures Sort(x, ByUnits()) == Sort(y, ByUnits())
  {
    hide Sort, Sorted, IsOrder, ByUnits, NoDup;
    UnitsAreOrder();
    SortSorts(x, ByUnits());
    SortSorts(y, ByUnits());
    SameMultiset(x, Sort(x, ByUnits()));
    SameMultiset(y, Sort(y, ByUnits()));
    OneOrder(Sort(x, ByUnits()), Sort(y, ByUnits()), ByUnits());
  }

  lemma SameHeaders(namesA: seq<Characters>, a: map<Characters, Part>, namesB: seq<Characters>,
                    b: map<Characters, Part>)
    requires Lists(namesA, a) && Lists(namesB, b) && Listed(namesA, a) == Listed(namesB, b)
    ensures a == b
  {
    var la, lb := Listed(namesA, a), Listed(namesB, b);
    assert |namesA| == |la| == |lb| == |namesB|;
    forall i | 0 <= i < |namesA| ensures namesA[i] == namesB[i] && a[namesA[i]] == b[namesA[i]] {
      assert la[i] == lb[i];
    }
    assert namesA == namesB;
    forall k | k in a ensures k in b && a[k] == b[k] {
      var i :| 0 <= i < |namesA| && namesA[i] == k;
    }
  }

  /** Collects the bytes field by field. */
  class ByteWriter {
    var chunks: seq<Bytes>

    ghost function Contents(): Bytes
      reads this
    {
      Joined(chunks)
    }

    constructor ()
      ensures chunks == [] && Contents() == []
    {
      chunks := [];
    }

    method Push(b: Bytes)
      modifies this
      ensures Contents() == old(Contents()) + b
    {
      JoinedMore(chunks, b);
      chunks := chunks + [b];
    }

    method WriteField(tag: Byte, b: Bytes)
      modifies this
      ensures Contents() == old(Contents()) + Field(tag, b)
    {
      hide Length;
      ghost var start := Contents();
      Push([tag] + Length(|b|) + [LENGTH_END]);
      Push(b);
      Push([LINE_END]);
      assert start + ([tag] + Length(|b|) + [LENGTH_END]) + b + [LINE_END] == start + Field(tag, b);
    }

    method WritePart(p: Part)
      modifies this
      ensures Contents() == old(Contents()) + PartInput(p)
    {
      match p
      case NullPart => Push(['N' as int, LINE_END]);
      case EmptyPart => Push(['E' as int, LINE_END]);
      case Binary(b) => WriteField(TAG_BINARY, b);
      case Plain(t) => WriteField(TAG_TEXT, Utf8(t));
    }

    method WriteContent(prefix: Bytes, c: Content, keys: seq<Characters>)
      requires forall k :: k in keys ==> k in c.headers
      modifies this
      ensures Contents() == old(Contents()) + InputOf(prefix, c, keys)
    {
      hide PartInput, CountInput, Field, Joined, HeadersInput, Utf8, FingerprintInput, Sort, ByUnits;
      var names := Sort(keys, ByUnits());
      SameMultiset(keys, names);
      ghost var start, list := Contents(), Listed(names, c.headers);
      InputInTurn(start, prefix, c, names);
      Push(prefix);
      WritePart(c.key);
      WritePart(c.value);
      Push(CountInput(|names|));
      assert list[0..] == list;
      for i := 0 to |names|
        invariant Contents() + HeadersInput(list[i..]) == start + FingerprintInput(prefix, c, names)
      {
        assert names[i] in names;
        HeaderFirst(list[i..], Contents());
        assert list[i..][1..] == list[i + 1..];
        WriteField(TAG_TEXT, Utf8(names[i]));
        WritePart(c.headers[names[i]]);
      }
      assert list[|names|..] == [];
      NoHeaders(Contents());
    }

    method Concat() returns (out: Bytes)
      ensures out == Contents()
    {
      out := [];
      assert chunks[..0] == [];
      for i := 0 to |chunks|
        invariant out == Joined(chunks[..i])
      {
        JoinedMore(chunks[..i], chunks[i]);
        assert chunks[..i + 1] == chunks[..i] + [chunks[i]];
        out := out + chunks[i];
      }
      assert chunks[..|chunks|] == chunks;
    }
  }

  lemma InputInTurn(start: Bytes, prefix: Bytes, c: Content, names: seq<Characters>)
    requires forall k :: k in names ==> k in c.headers
    ensures start + prefix + PartInput(c.key) + PartInput(c.value) + CountInput(|names|)
        + HeadersInput(Listed(names, c.headers))
            == start + FingerprintInput(prefix, c, names)
  {
    hide PartInput, CountInput, HeadersInput;
  }

  lemma NoHeaders(start: Bytes)
    ensures start + HeadersInput([]) == start
  {
  }

  lemma HeaderFirst(headers: seq<Header>, start: Bytes)
    requires headers != []
    ensures start + HeadersInput(headers) ==
            start + Field(TAG_TEXT, Utf8(headers[0].name)) + PartInput(headers[0].value) + HeadersInput(headers[1..])
  {
    hide Field, PartInput, Utf8;
  }

  function Joined(chunks: seq<Bytes>): Bytes {
    if chunks == [] then [] else Joined(chunks[..|chunks| - 1]) + chunks[|chunks| - 1]
  }

  lemma JoinedMore(chunks: seq<Bytes>, b: Bytes)
    ensures Joined(chunks + [b]) == Joined(chunks) + b
  {
    assert (chunks + [b])[..|chunks|] == chunks;
  }
}
