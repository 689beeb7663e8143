/** The input of the ad-hoc fingerprint: adhocDigest and digestEncoder of
    internal/kafka/adhoc.go. */
module ConfigDigest {
  import opened Base64
  import opened Utf8Text

  /** Every setting the fingerprint covers. */
  datatype Settings = Settings(
    brokers: seq<Bytes>, isProd: bool,
    authType: Bytes, username: Bytes, password: Bytes,
    tls: bool, tlsInsecure: bool,
    registryUrl: Bytes, registryUsername: Bytes, registryPassword: Bytes, registryInsecure: bool)

  /** binary.AppendUvarint(nil, n): seven bits per byte, the low ones first. */
  function Uvarint(n: nat): (b: Bytes)
    ensures b != []
  {
    if n < 0x80 then [n] else [n % 0x80 + 0x80] + Uvarint(n / 0x80)
  }

  /** binary.AppendVarint(nil, n): the sign in the lowest bit. */
  function Varint(n: int): (b: Bytes)
    ensures b != []
  {
    Uvarint(if n >= 0 then 2 * n else -2 * n - 1)
  }

  function StringInput(s: Bytes): Bytes {
    Varint(|s|) + s
  }

  function ListInput(list: seq<Bytes>): Bytes {
    if list == [] then [] else StringInput(list[0]) + ListInput(list[1..])
  }

  function StringsInput(list: seq<Bytes>): Bytes {
    Varint(|list|) + ListInput(list)
  }

  function BoolInput(b: bool): Bytes {
    [if b then 1 else 0]
  }

  /** The domain, then every field in turn. */
  function Input(domain: Bytes, s: Settings): Bytes {
    StringInput(domain) + (StringsInput(s.brokers) + (BoolInput(s.isProd)
    + (StringInput(s.authType) + (StringInput(s.username) + (StringInput(s.password)
    + (BoolInput(s.tls) + (BoolInput(s.tlsInsecure)
    + (StringInput(s.registryUrl) + (StringInput(s.registryUsername) + (StringInput(s.registryPassword)
    + (BoolInput(s.registryInsecure) + [])))))))))))
  }

  // --- every field ends where it says ---

  lemma {:induction false} UvarintEnds(m: nat, n: nat, r: Bytes, s: Bytes)
    requires Uvarint(m) + r == Uvarint(n) + s
    ensures m == n && r == s
  {
    hide Uvarint;
    UvarintIs(m, r);
    UvarintIs(n, s);
    if m >= 0x80 {
      UvarintEnds(m / 0x80, n / 0x80, r, s);
    }
  }

  /** The first byte, its high bit telling whether more follow, and what is behind it. */
  lemma UvarintIs(n: nat, r: Bytes)
    ensures
      var a := Uvarint(n) + r;
      && a != []
      && (n < 0x80 ==> a[0] == n && a[1..] == r)
      && (n >= 0x80 ==> a[0] == n % 0x80 + 0x80 && a[1..] == Uvarint(n / 0x80) + r && n == n / 0x80 * 0x80 + n % 0x80)
  {
  }

  lemma VarintEnds(m: int, n: int, r: Bytes, s: Bytes)
    requires Varint(m) + r == Varint(n) + s
    ensures m == n && r == s
  {
    hide Uvarint;
    UvarintEnds(if m >= 0 then 2 * m else -2 * m - 1, if n >= 0 then 2 * n else -2 * n - 1, r, s);
  }

  lemma StringEnds(x: Bytes, y: Bytes, r: Bytes, s: Bytes)
    requires StringInput(x) + r == StringInput(y) + s
    ensures x == y && r == s
  {
    hide Varint;
    assert StringInput(x) + r == Varint(|x|) + (x + r) && StringInput(y) + s == Varint(|y|) + (y + s);
    VarintEnds(|x|, |y|, x + r, y + s);
    SplitAt(x, y, r, s);
  }

  lemma {:induction false} ListEnds(x: seq<Bytes>, y: seq<Bytes>, r: Bytes, s: Bytes)
    requires |x| == |y| && ListInput(x) + r == ListInput(y) + s
    ensures x == y && r == s
  {
    hide StringInput;
    if x == [] {
      assert [] + r == r && [] + s == s;
    } else {
      assert ListInput(x) + r == StringInput(x[0]) + (ListInput(x[1..]) + r);
      assert ListInput(y) + s == StringInput(y[0]) + (ListInput(y[1..]) + s);
      StringEnds(x[0], y[0], ListInput(x[1..]) + r, ListInput(y[1..]) + s);
      ListEnds(x[1..], y[1..], r, s);
      assert x == [x[0]] + x[1..] && y == [y[0]] + y[1..];
    }
  }

  lemma StringsEnd(x: seq<Bytes>, y: seq<Bytes>, r: Bytes, s: Bytes)
    requires StringsInput(x) + r == StringsInput(y) + s
    ensures x == y && r == s
  {
    hide Varint, ListInput;
    assert StringsInput(x) + r == Varint(|x|) + (ListInput(x) + r)
      && StringsInput(y) + s == Varint(|y|) + (ListInput(y) + s);
    VarintEnds(|x|, |y|, ListInput(x) + r, ListInput(y) + s);
    ListEnds(x, y, r, s);
  }

  lemma BoolEnds(x: bool, y: bool, r: Bytes, s: Bytes)
    requires BoolInput(x) + r == BoolInput(y) + s
    ensures x == y && r == s
  {
    SplitAt(BoolInput(x), BoolInput(y), r, s);
  }

  /** The input without the domain and the brokers. */
  function Fields(s: Settings): Bytes {
    BoolInput(s.isProd) + (StringInput(s.authType) + (StringInput(s.username) + (StringInput(s.password) + Flags(s))))
  }

  function Flags(s: Settings): Bytes {
    BoolInput(s.tls) + (BoolInput(s.tlsInsecure) + Registry(s))
  }

  function Registry(s: Settings): Bytes {
    StringInput(s.registryUrl) + (StringInput(s.registryUsername)
      + (StringInput(s.registryPassword) + (BoolInput(s.registryInsecure) + [])))
  }

  /** Different settings have different inputs. */
  lemma InputIsInjective(domain: Bytes, a: Settings, b: Settings)
    requires Input(domain, a) == Input(domain, b)
    ensures a == b
  {
    hide StringInput, StringsInput, BoolInput;
    StringEnds(domain, domain, StringsInput(a.brokers) + Fields(a), StringsInput(b.brokers) + Fields(b));
    StringsEnd(a.brokers, b.brokers, Fields(a), Fields(b));
    FieldsAreEqual(a, b);
  }

  lemma FieldsAreEqual(a: Settings, b: Settings)
    requires Fields(a) == Fields(b)
    ensures a.(brokers := b.brokers) == b
  {
    hide StringInput, BoolInput, Flags, Registry;
    var pa, pb := StringInput(a.password) + Flags(a), StringInput(b.password) + Flags(b);
    var ua, ub := StringInput(a.username) + pa, StringInput(b.username) + pb;
    BoolEnds(a.isProd, b.isProd, StringInput(a.authType) + ua, StringInput(b.authType) + ub);
    StringEnds(a.authType, b.authType, ua, ub);
    StringEnds(a.username, b.username, pa, pb);
    StringEnds(a.password, b.password, Flags(a), Flags(b));
    FlagsAreEqual(a, b);
  }

  lemma FlagsAreEqual(a: Settings, b: Settings)
    requires Flags(a) == Flags(b)
    ensures a.tls == b.tls && a.tlsInsecure == b.tlsInsecure && a.registryUrl == b.registryUrl
    ensures a.registryUsername == b.registryUsername && a.registryPassword == b.registryPassword
        && a.registryInsecure == b.registryInsecure
  {
    hide StringInput, BoolInput;
    BoolEnds(a.tls, b.tls, BoolInput(a.tlsInsecure) + Registry(a), BoolInput(b.tlsInsecure) + Registry(b));
    BoolEnds(a.tlsInsecure, b.tlsInsecure, Registry(a), Registry(b));
    var ia, ib := BoolInput(a.registryInsecure) + [], BoolInput(b.registryInsecure) + [];
    var pa, pb := StringInput(a.registryPassword) + ia, StringInput(b.registryPassword) + ib;
    var ua, ub := StringInput(a.registryUsername) + pa, StringInput(b.registryUsername) + pb;
    StringEnds(a.registryUrl, b.registryUrl, ua, ub);
    StringEnds(a.registryUsername, b.registryUsername, pa, pb);
    StringEnds(a.registryPassword, b.registryPassword, ia, ib);
    BoolEnds(a.registryInsecure, b.registryInsecure, [], []);
  }

  /** Writes the input field by field to a hash, here the bytes written so far. */
  class DigestEncoder {
    var written: Bytes

    constructor ()
      ensures written == []
    {
      written := [];
    }

    method WriteLen(n: nat)
      modifies this
      ensures written == old(written) + Varint(n)
    {
      var rest: nat := 2 * n;
      ghost var start := written;
      while rest >= 0x80
        invariant written + Uvarint(rest) == start + Uvarint(2 * n)
      {
        assert written + ([rest % 0x80 + 0x80] + Uvarint(rest / 0x80)) ==
          written + [rest % 0x80 + 0x80] + Uvarint(rest / 0x80);
        written := written + [rest % 0x80 + 0x80];
        rest := rest / 0x80;
      }
      written := written + [rest];
    }

    method WriteString(s: Bytes)
      modifies this
      ensures written == old(written) + StringInput(s)
    {
      WriteLen(|s|);
      written := written + s;
    }

    method WriteStrings(list: seq<Bytes>)
      modifies this
      ensures written == old(written) + StringsInput(list)
    {
      ghost var start := written;
      WriteLen(|list|);
      assert list[0..] == list;
      for i := 0 to |list|
        invariant written + ListInput(list[i..]) == start + StringsInput(list)
      {
        assert list[i..][1..] == list[i + 1..];
        assert written + (StringInput(list[i]) + ListInput(list[i + 1..])) ==
          written + StringInput(list[i]) + ListInput(list[i + 1..]);
        WriteString(list[i]);
      }
      assert written + [] == written;
    }

    method WriteBool(b: bool)
      modifies this
      ensures written == old(written) + BoolInput(b)
    {
      written := written + [if b then 1 else 0];
    }
  }

  method DigestInput(domain: Bytes, s: Settings) returns (input: Bytes)
    ensures input == Input(domain, s)
  {
    hide StringInput, StringsInput, BoolInput, Input;
    var e := new DigestEncoder();
    e.WriteString(domain);
    e.WriteStrings(s.brokers);
    e.WriteBool(s.isProd);
    e.WriteString(s.authType);
    e.WriteString(s.username);
    e.WriteString(s.password);
    e.WriteBool(s.tls);
    e.WriteBool(s.tlsInsecure);
    e.WriteString(s.registryUrl);
    e.WriteString(s.registryUsername);
    e.WriteString(s.registryPassword);
    e.WriteBool(s.registryInsecure);
    input := e.written;
    WrittenInTurn(domain, s);
  }

  lemma WrittenInTurn(domain: Bytes, s: Settings)
    ensures
      [] + StringInput(domain) + StringsInput(s.brokers) + BoolInput(s.isProd)
      + StringInput(s.authType) + StringInput(s.username) + StringInput(s.password) + BoolInput(s.tls)
        + BoolInput(s.tlsInsecure)
      + StringInput(s.registryUrl) + StringInput(s.registryUsername) + StringInput(s.registryPassword)
        + BoolInput(s.registryInsecure)
      == Input(domain, s)
  {
    hide StringInput, StringsInput, BoolInput;
    Chain([], StringInput(domain), StringsInput(s.brokers), Fields(s));
    var head := [] + StringInput(domain) + StringsInput(s.brokers);
    assert head + Fields(s) == Input(domain, s);
    ChainFields(head, s);
  }

  lemma Chain(h: Bytes, a: Bytes, b: Bytes, c: Bytes)
    ensures h + (a + (b + c)) == h + a + b + c
  {
  }

  lemma ChainFields(h: Bytes, s: Settings)
    ensures
      h + BoolInput(s.isProd) + StringInput(s.authType) + StringInput(s.username) + StringInput(s.password)
        + BoolInput(s.tls)
      + BoolInput(s.tlsInsecure) + StringInput(s.registryUrl) + StringInput(s.registryUsername)
        + StringInput(s.registryPassword)
      + BoolInput(s.registryInsecure) == h + Fields(s)
  {
    hide StringInput, BoolInput;
    var h1 := h + BoolInput(s.isProd) + StringInput(s.authType);
    var h2 := h1 + StringInput(s.username) + StringInput(s.password);
    var h3 := h2 + BoolInput(s.tls) + BoolInput(s.tlsInsecure);
    var h4 := h3 + StringInput(s.registryUrl) + StringInput(s.registryUsername);
    Chain(h, BoolInput(s.isProd), StringInput(s.authType),
          StringInput(s.username) + (StringInput(s.password) + Flags(s)));
    Chain(h1, StringInput(s.username), StringInput(s.password), Flags(s));
    Chain(h2, BoolInput(s.tls), BoolInput(s.tlsInsecure), Registry(s));
    Chain(h3, StringInput(s.registryUrl), StringInput(s.registryUsername),
          StringInput(s.registryPassword) + (BoolInput(s.registryInsecure) + []));
    Chain(h4, StringInput(s.registryPassword), BoolInput(s.registryInsecure), []);
    assert h4 + StringInput(s.registryPassword) + BoolInput(s.registryInsecure) + [] ==
           h4 + StringInput(s.registryPassword) + BoolInput(s.registryInsecure);
  }
}
