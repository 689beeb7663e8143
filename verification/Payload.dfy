/** Payloads on their way through a copy: decodeBytes of internal/kafka/record_decode.go,
    copyProduceRequest of internal/server/topic_copy.go and decodeProducePayload of
    internal/kafka/produce.go. Go strings are byte sequences. */
module Payload {
  import opened Options
  import opened Base64
  import opened Utf8Text

  /** Key or value of a record; Nil is Kafka's null. */
  datatype Payload = Nil | Payload(bytes: Bytes)

  // --- rendering ---

  const MAX_VALUE_BYTES := 65536
  const PREVIEW_BYTES := 64

  /** json.Valid and the XML tokenizer. */
  datatype Validators = Validators(isJson: Bytes -> bool, isXml: Bytes -> bool)

  datatype Rendering = Rendering(text: Bytes, encoding: string, b64: Bytes)

  predicate IsBlankByte(c: Byte) {
    c == ' ' as int || c == '\t' as int || c == '\n' as int || c == '\r' as int
  }

  function TrimStart(b: Bytes): Bytes {
    if b != [] && IsBlankByte(b[0]) then TrimStart(b[1..]) else b
  }

  function TrimEnd(b: Bytes): Bytes {
    if b != [] && IsBlankByte(b[|b| - 1]) then TrimEnd(b[..|b| - 1]) else b
  }

  function HexDigit(n: nat): Byte
    requires n < 16
  {
    if n < 10 then '0' as int + n else 'a' as int + (n - 10)
  }

  function HexOf(b: Bytes): Bytes {
    if b == [] then [] else [HexDigit(b[0] / 16), HexDigit(b[0] % 16)] + HexOf(b[1..])
  }

  function Preview(b: Bytes): Bytes {
    ['0' as int, 'x' as int] + HexOf(if |b| > PREVIEW_BYTES then b[..PREVIEW_BYTES] else b)
  }

  function DecodeBytes(p: Payload, truncated: bool, valid: Validators): Rendering {
    if p.Nil? then Rendering([], "null", [])
    else if p.bytes == [] then Rendering([], "empty", [])
    else if IsUtf8(p.bytes) then
      var trimmed := TrimEnd(TrimStart(p.bytes));
      if trimmed != [] && (trimmed[0] == '{' as int || trimmed[0] == '[' as int)
        && (truncated || valid.isJson(trimmed)) then
        Rendering(p.bytes, "json", [])
      else if trimmed != [] && trimmed[0] == '<' as int && (truncated || valid.isXml(trimmed))
        then Rendering(p.bytes, "xml", [])
      else Rendering(p.bytes, "text", [])
    else Rendering(Preview(p.bytes), "binary", Encode(p.bytes, Standard))
  }

  // --- what is shown ---

  predicate AreBlank(b: Bytes) {
    forall c :: c in b ==> c == ' ' as int || c == '\t' as int || c == '\n' as int || c == '\r' as int
  }

  /** b is mid with white space around it, and mid neither starts nor ends with any. */
  predicate IsTrimmed(b: Bytes, before: Bytes, mid: Bytes, after: Bytes) {
    && b == before + mid + after && AreBlank(before) && AreBlank(after)
    && (mid != [] ==> !AreBlank([mid[0]]) && !AreBlank([mid[|mid| - 1]]))
  }

  /** The label of a text, by what it starts with and whether the rest bears that out. */
  predicate IsLabel(encoding: string, mid: Bytes, truncated: bool, valid: Validators) {
    var json := mid != [] && (mid[0] == '{' as int || mid[0] == '[' as int) && (truncated || valid.isJson(mid));
    var xml := mid != [] && mid[0] == '<' as int && (truncated || valid.isXml(mid));
    encoding == if json then "json" else if xml then "xml" else "text"
  }

  /** Text is shown as it is, with a label; other bytes by the hexadecimal digits of the
      first ones, with all of them beside it in base64; null and empty as such. */
  lemma RenderingIs(p: Payload, truncated: bool, valid: Validators)
    ensures p == Nil ==> DecodeBytes(p, truncated, valid) == Rendering([], "null", [])
    ensures p == Payload([]) ==> DecodeBytes(p, truncated, valid) == Rendering([], "empty", [])
    ensures p.Payload? && p.bytes != [] && IsWritten(p.bytes) ==>
              var r := DecodeBytes(p, truncated, valid);
              && r.text == p.bytes && r.b64 == []
              && exists before, mid, after ::
                IsTrimmed(p.bytes, before, mid, after) && IsLabel(r.encoding, mid, truncated, valid)
    ensures p.Payload? && !IsWritten(p.bytes) ==>
              var r := DecodeBytes(p, truncated, valid);
              && r.encoding == "binary" && Decode(r.b64, Standard) == Decoded(p.bytes)
              && IsHexOf(r.text, if |p.bytes| > 64 then p.bytes[..64] else p.bytes)
  {
    hide IsUtf8, IsWritten, TrimStart, TrimEnd, Encode, Decode, IsTrimmed, IsHexOf, HexOf;
    if p.Payload? {
      ValidIsWritten(p.bytes);
      var before, after := Trims(p.bytes);
      if p.bytes == [] {
        EmptyIsUtf8();
      }
      DecodesEncoded(p.bytes, Standard);
      PreviewIsHex(if |p.bytes| > PREVIEW_BYTES then p.bytes[..PREVIEW_BYTES] else p.bytes);
    }
  }

  lemma EmptyIsUtf8()
    ensures IsUtf8([])
  {
  }

  lemma Trims(b: Bytes) returns (before: Bytes, after: Bytes)
    ensures IsTrimmed(b, before, TrimEnd(TrimStart(b)), after)
  {
    hide TrimStart, TrimEnd, AreBlank, IsBlankByte;
    before := TrimsStart(b);
    after := TrimsEnd(TrimStart(b));
    assert before + TrimStart(b) == before + (TrimEnd(TrimStart(b)) + after);
    assert before + TrimEnd(TrimStart(b)) + after == before + (TrimEnd(TrimStart(b)) + after);
    var mid := TrimEnd(TrimStart(b));
    assert mid != [] ==> mid[0] == TrimStart(b)[0];
    if mid != [] {
      BlankIs(mid[0]);
      BlankIs(mid[|mid| - 1]);
    }
  }

  lemma BlankIs(c: Byte)
    ensures AreBlank([c]) <==> IsBlankByte(c)
  {
    assert c in [c];
  }

  lemma {:induction false} TrimsStart(b: Bytes) returns (before: Bytes)
    ensures b == before + TrimStart(b) && AreBlank(before)
    ensures TrimStart(b) != [] ==> !IsBlankByte(TrimStart(b)[0])
  {
    if b != [] && IsBlankByte(b[0]) {
      var more := TrimsStart(b[1..]);
      before := [b[0]] + more;
      assert b == [b[0]] + b[1..];
    } else {
      before := [];
      assert b == [] + b;
    }
  }

  lemma {:induction false} TrimsEnd(b: Bytes) returns (after: Bytes)
    ensures b == TrimEnd(b) + after && AreBlank(after)
    ensures TrimEnd(b) != [] ==> !IsBlankByte(TrimEnd(b)[|TrimEnd(b)| - 1])
    decreases |b|
  {
    if b != [] && IsBlankByte(b[|b| - 1]) {
      var more := TrimsEnd(b[..|b| - 1]);
      after := more + [b[|b| - 1]];
      assert b == b[..|b| - 1] + [b[|b| - 1]];
      assert TrimEnd(b) + after == TrimEnd(b[..|b| - 1]) + more + [b[|b| - 1]];
    } else {
      after := [];
      assert b == b + [];
    }
  }

  /** "0x" and the two lower-case hexadecimal digits of every byte. */
  predicate IsHexOf(text: Bytes, b: Bytes) {
    && |text| == 2 + 2 * |b| && text[0] == '0' as int && text[1] == 'x' as int
    && forall i :: 0 <= i < |b| ==>
         && text[2 + 2 * i] == "0123456789abcdef"[b[i] / 16] as int
         && text[3 + 2 * i] == "0123456789abcdef"[b[i] % 16] as int
  }

  lemma PreviewIsHex(b: Bytes)
    ensures IsHexOf(['0' as int, 'x' as int] + HexOf(b), b)
  {
    hide HexDigit;
    forall i | 0 <= i < |b| ensures |HexOf(b)| == 2 * |b|
      && HexOf(b)[2 * i] == "0123456789abcdef"[b[i] / 16] as int
      && HexOf(b)[2 * i + 1] == "0123456789abcdef"[b[i] % 16] as int
    {
      HexAt(b, i);
    }
  }

  lemma {:induction false} HexAt(b: Bytes, i: nat)
    requires i < |b|
    ensures |HexOf(b)| == 2 * |b|
    ensures HexOf(b)[2 * i] == "0123456789abcdef"[b[i] / 16] as int
    ensures HexOf(b)[2 * i + 1] == "0123456789abcdef"[b[i] % 16] as int
  {
    HexDigitIs(b[0] / 16);
    HexDigitIs(b[0] % 16);
    hide HexDigit;
    HexSize(b[1..]);
    if i > 0 {
      HexAt(b[1..], i - 1);
      assert HexOf(b)[2..] == HexOf(b[1..]);
      assert HexOf(b)[2 * i] == HexOf(b)[2..][2 * (i - 1)];
      assert HexOf(b)[2 * i + 1] == HexOf(b)[2..][2 * (i - 1) + 1];
    }
  }

  lemma HexDigitIs(n: nat)
    requires n < 16
    ensures HexDigit(n) == "0123456789abcdef"[n] as int
  {
  }

  lemma {:induction false} HexSize(b: Bytes)
    ensures |HexOf(b)| == 2 * |b|
  {
    if b != [] {
      HexSize(b[1..]);
    }
  }

  /** What the search matches on: the rendering without its label. */
  function RenderForMatch(p: Payload): Bytes {
    if p.Nil? || p.bytes == [] then []
    else if IsUtf8(p.bytes) then p.bytes
    else Preview(p.bytes)
  }

  lemma MatchSeesWhatIsShown(p: Payload, valid: Validators)
    ensures RenderForMatch(p) == DecodeBytes(p, false, valid).text
  {
    hide Preview, IsUtf8, TrimStart, TrimEnd;
  }

  // --- reproducing ---

  datatype Field = Field(text: Bytes, encoding: string)

  /** None for a field the Schema Registry decoded: its bytes are gone. */
  function ProduceEncodingFor(r: Rendering): Option<Field> {
    if r.encoding == "avro" || r.encoding == "json_schema" || r.encoding == "protobuf" then None
    else if r.encoding == "binary" then Some(Field(r.b64, "base64"))
    else if r.encoding == "empty" then Some(Field([], "empty"))
    else Some(Field(r.text, "text"))
  }

  datatype Produced = BadBase64 | BadEncoding | Produced(payload: Payload)

  /** Standard, URL-safe and unpadded base64, tried in this order. */
  function DecodeTolerant(s: Bytes): Decoded {
    if Decode(s, Standard).Decoded? then Decode(s, Standard)
    else if Decode(s, UrlSafe).Decoded? then Decode(s, UrlSafe)
    else Decode(s, RawStandard)
  }

  /** An encoding of any of the three variants is read back, though another decoder may do it. */
  lemma TolerantDecodes(b: Bytes, v: Variant)
    ensures DecodeTolerant(Encode(b, v)) == Decoded(b)
  {
    hide Encode, Decode;
    DecodesEncoded(b, v);
    OthersDecodeAlike(b, v, Standard);
    OthersDecodeAlike(b, v, UrlSafe);
  }

  function DecodeProducePayload(f: Field): Produced {
    if f.encoding == "" || f.encoding == "text" then Produced(if f.text == [] then Nil else Payload(f.text))
    else if f.encoding == "empty" then Produced(Payload([]))
    else if f.encoding == "base64" then
      if f.text == [] then Produced(Nil)
      else
        var d := DecodeTolerant(f.text);
        if d.Decoded? then Produced(Payload(d.bytes)) else BadBase64
    else BadEncoding
  }

  /** Base64 is refused if no variant writes it, and an encoding if it is none of the four. */
  lemma RefusedIs(f: Field)
    ensures DecodeProducePayload(f) == BadBase64 <==>
              f.encoding == "base64" && f.text != [] && forall v, b :: !Writes(WithoutBreaks(f.text), b, v)
    ensures DecodeProducePayload(f) == BadEncoding <==>
              f.encoding != "" && f.encoding != "text" && f.encoding != "empty" && f.encoding != "base64"
  {
    hide Decode, Writes, WithoutBreaks;
    ReadableIs(f.text, Standard);
    ReadableIs(f.text, UrlSafe);
    ReadableIs(f.text, RawStandard);
    if v, b :| Writes(WithoutBreaks(f.text), b, v) {
      assert v == Standard || v == UrlSafe || v == RawStandard;
    }
  }

  lemma ReadableIs(s: Bytes, v: Variant)
    ensures Decode(s, v).Decoded? <==> exists b :: Writes(WithoutBreaks(s), b, v)
  {
    hide Decode, Writes, WithoutBreaks;
    if Decode(s, v).Decoded? {
      DecodesExactly(s, Decode(s, v).bytes, v);
    }
    if b :| Writes(WithoutBreaks(s), b, v) {
      DecodesExactly(s, b, v);
    }
  }

  /** What decodeBytes shows of a payload reproduces it byte for byte, null and empty kept apart. */
  lemma PayloadRoundTrips(p: Payload, valid: Validators)
    ensures
      var f := ProduceEncodingFor(DecodeBytes(p, false, valid));
      f.Some? && DecodeProducePayload(f.value) == Produced(p)
  {
    hide IsUtf8, TrimStart, TrimEnd, Encode, Decode;
    if p.Payload? && p.bytes != [] {
      TolerantDecodes(p.bytes, Standard);
      EncodedIsNotEmpty(p.bytes);
    }
  }

  lemma EncodedIsNotEmpty(b: Bytes)
    requires b != []
    ensures Encode(b, Standard) != []
  {
    CharsAre(b, Standard);
    hide Char;
  }

  /** A consumed record: what is known of key and value after masking and Schema Registry decoding. */
  datatype Consumed = Consumed(key: Rendering, value: Rendering, masked: bool, truncated: bool)

  /** recordToMessage followed by what masking and the Schema Registry may change:
      `masked` says that the policy changed something, srKey and srValue hold the
      decoded forms, if any. */
  function Consume(key: Payload, value: Payload, valid: Validators, masked: bool, srKey: Option<Rendering>,
                   srValue: Option<Rendering>): Consumed {
    var truncated := value.Payload? && |value.bytes| > MAX_VALUE_BYTES;
    var kept := if truncated then Payload(value.bytes[..MAX_VALUE_BYTES]) else value;
    Consumed(if srKey.Some? then srKey.value else DecodeBytes(key, false, valid),
             if srValue.Some? then srValue.value else DecodeBytes(kept, truncated, valid),
             masked, truncated)
  }

  datatype Request = Request(key: Field, value: Field)

  /** None: the record is skipped. */
  function CopyProduceRequest(c: Consumed): Option<Request> {
    if c.masked || c.truncated then None
    else
      var key, value := ProduceEncodingFor(c.key), ProduceEncodingFor(c.value);
      if key.None? || value.None? then None else Some(Request(key.value, value.value))
  }

  predicate IsRegistryForm(r: Rendering) {
    r.encoding == "avro" || r.encoding == "json_schema" || r.encoding == "protobuf"
  }

  /** A record is copied with its exact key and value, or skipped; it is skipped if and
      only if it was masked, is longer than 64 KB or was decoded by the Schema Registry. */
  lemma CopiedOrSkipped(key: Payload, value: Payload, valid: Validators, masked: bool, srKey: Option<Rendering>,
                        srValue: Option<Rendering>)
    requires srKey.Some? ==> IsRegistryForm(srKey.value)
    requires srValue.Some? ==> IsRegistryForm(srValue.value)
    ensures
      var request := CopyProduceRequest(Consume(key, value, valid, masked, srKey, srValue));
      && (request == None <==>
        masked || (value.Payload? && |value.bytes| > 65536) || srKey.Some? || srValue.Some?)
      && (request.Some? ==>
        DecodeProducePayload(request.value.key) == Produced(key)
          && DecodeProducePayload(request.value.value) == Produced(value))
  {
    PayloadRoundTrips(key, valid);
    PayloadRoundTrips(value, valid);
    hide DecodeBytes, DecodeProducePayload;
  }
}
