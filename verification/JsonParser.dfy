/** The parser of frontend/src/lib/canonical-json.ts. Failure, an exception there,
    is None. */
module JsonParser {
  import opened Options
  import opened JsonText
  import opened JsonNumber
  import opened JsonScanner
  import opened JsonString
  import opened JsonSyntax
  import opened JsonGrammar

  /** What a method returns and leaves to read is what the specification says. */
  ghost predicate Follows<T>(spec: Scanned<T>, r: Option<T>, left: Text) {
    if spec.Scanned? then r == Some(spec.token) && left == spec.rest else r == None
  }

  class Parser {
    const src: Text
    var pos: nat

    constructor (src: Text)
      ensures this.src == src && pos == 0
    {
      this.src, pos := src, 0;
    }

    ghost function Left(): Text
      requires pos <= |src|
      reads this
    {
      src[pos..]
    }

    /** The node of the whole text, None unless it is one JSON value. */
    method Document() returns (r: Option<Node>)
      requires pos == 0
      modifies this`pos
      ensures r == Parse(src)
    {
      hide ReadValue, SkipSpace;
      assert src[0..] == src;
      r := Value(0);
      if r.None? {
        return;
      }
      Ws();
      if pos != |src| {
        return None;
      }
    }

    method Ws()
      requires pos <= |src|
      modifies this`pos
      ensures old(pos) <= pos <= |src| && Left() == SkipSpace(old(Left()))
    {
      ghost var start := src[pos..];
      while pos < |src|
        invariant old(pos) <= pos <= |src| && SkipSpace(src[pos..]) == SkipSpace(start)
      {
        var c := src[pos];
        assert src[pos..][1..] == src[pos + 1..];
        if c == 0x20 || c == 0x0A || c == 0x0D || c == 0x09 {
          pos := pos + 1;
        } else {
          break;
        }
      }
    }

    /** The code unit at pos is c; past the end there is none. */
    predicate At(c: CodeUnit)
      reads this
    {
      pos < |src| && src[pos] == c
    }

    method Value(depth: nat) returns (r: Option<Node>)
      requires pos <= |src|
      modifies this`pos
      ensures old(pos) <= pos <= |src| && (r.Some? ==> old(pos) < pos)
      ensures Follows(ReadValue(old(Left()), depth), r, Left())
      decreases |src| - pos, 3
    {
      hide ReadObject, ReadArray, ReadScalar, SkipSpace;
      ghost var start := Left();
      if depth > MAX_NESTING {
        return None;
      }
      Ws();
      ghost var s := Left();
      ReadValueIs(start, s, depth);
      if At(OPEN_BRACE) {
        assert s[1..] == src[pos + 1..];
        r := Object(depth);
      } else if At(OPEN_BRACKET) {
        assert s[1..] == src[pos + 1..];
        r := Array(depth);
      } else {
        r := Scalar();
      }
    }

    method Scalar() returns (r: Option<Node>)
      requires pos <= |src|
      modifies this`pos
      ensures old(pos) <= pos <= |src| && (r.Some? ==> old(pos) < pos)
      ensures Follows(ReadScalar(old(Left())), r, Left())
    {
      hide ReadNumber, LiteralText, NormalizeNumber, ReadString;
      ghost var s := Left();
      if At(QUOTE) {
        var text := StringToken();
        return if text.Some? then Some(Str(text.value)) else None;
      }
      var words := [NULL, TRUE, FALSE];
      var i := 0;
      while i < 3
        invariant 0 <= i <= 3 && pos == old(pos)
        invariant forall j :: 0 <= j < i ==> !StartsWord(s, words[j])
      {
        var w := words[i];
        StartsAt(src, pos, w);
        if pos + |w| <= |src| && src[pos..pos + |w|] == w {
          assert s[|w|..] == src[pos + |w|..];
          assert i == 1 ==> !StartsWord(s, words[0]);
          assert i == 2 ==> !StartsWord(s, words[0]) && !StartsWord(s, words[1]);
          pos := pos + |w|;
          return Some(Lit(w));
        }
        i := i + 1;
      }
      assert !StartsWord(s, words[0]) && !StartsWord(s, words[1]) && !StartsWord(s, words[2]);
      var m := ReadNumber(src[pos..], false);
      if m.Nothing? {
        return None;
      }
      ReadNumberIsLiteral(s, false);
      var text := LiteralText(m.token);
      LiteralIsNotEmpty(m.token);
      assert s == text + m.rest;
      assert src[pos + |text|..] == s[|text|..];
      pos := pos + |text|;
      r := Some(Num(NormalizeNumber(text)));
    }

    /** A string token: checked here, then resolved by JSON.parse. */
    method StringToken() returns (r: Option<Text>)
      requires pos < |src| && src[pos] == QUOTE
      modifies this`pos
      ensures old(pos) <= pos <= |src| && (r.Some? ==> old(pos) < pos)
      ensures Follows(ReadString(old(Left())), r, Left())
    {
      hide ReadBody, SameEnd;
      var start := pos;
      ghost var s := Left();
      assert s[1..] == src[pos + 1..];
      pos := pos + 1;
      ghost var body := Left();
      SameEndAs(body, body, body);
      while true
        invariant start < pos <= |src| && SameEnd(body, src[pos..])
        decreases |src| - pos
      {
        ghost var t := src[pos..];
        SameEndIs(body, t);
        ReadBodyEnds(t);
        if pos >= |src| {
          return None;
        }
        if src[pos] == QUOTE {
          break;
        }
        var step := Unit();
        if step == 0 {
          return None;
        }
        assert t[step..] == src[pos + step..];
        SameEndAs(body, t, src[pos + step..]);
        pos := pos + step;
      }
      assert src[pos..][1..] == src[pos + 1..];
      pos := pos + 1;
      TokenIsComplete(s, src[start..pos], src[pos..]);
      r := Some(ReadString(src[start..pos]).token);
    }

    /** The length of the character or escape at pos, 0 when it is not one of a string. */
    method Unit() returns (step: nat)
      requires pos < |src| && src[pos] != QUOTE
      ensures step == 0 ==> ReadBody(Left()) == Nothing
      ensures step > 0 ==> pos + step <= |src| && SameEnd(Left(), src[pos..][step..])
    {
      hide ReadBody, SameEnd, IsHex, ShortUnit;
      ghost var t := Left();
      ReadBodyStep(t);
      var c := src[pos];
      if c < 0x20 {
        return 0;
      }
      if c != BACKSLASH {
        return 1;
      }
      if pos + 1 >= |src| {
        return 0;
      }
      var e := src[pos + 1];
      if e == LETTER_U {
        assert pos + 6 <= |src| ==> t[2..6] == src[pos + 2..pos + 6];
        return if pos + 6 > |src| || !IsHex(src[pos + 2..pos + 6]) then 0 else 6;
      }
      return if ShortUnit(e) < 0 then 0 else 2;
    }

    /** The character behind white space; None at the end. */
    method Separator() returns (c: Option<CodeUnit>)
      requires pos <= |src|
      modifies this`pos
      ensures old(pos) <= pos <= |src| && (c.Some? ==> old(pos) < pos)
      ensures
        var s := SkipSpace(old(Left()));
        if s == [] then c == None else c == Some(s[0]) && Left() == s[1..]
    {
      hide SkipSpace;
      Ws();
      if pos >= |src| {
        return None;
      }
      c := Some(src[pos]);
      assert Left()[1..] == src[pos + 1..];
      pos := pos + 1;
    }

    method Array(depth: nat) returns (r: Option<Node>)
      requires pos < |src|
      modifies this`pos
      ensures old(pos) <= pos <= |src| && (r.Some? ==> old(pos) < pos)
      ensures Follows(ReadArray(old(src[pos + 1..]), depth), r, Left())
      decreases |src| - pos, 1
    {
      hide ReadArray, ReadItems, ReadValue, SkipSpace, Behind, IsSpace;
      pos := pos + 1;
      ghost var t := Left();
      ReadArrayIs(t, depth);
      var items: seq<Node> := [];
      Ws();
      if At(CLOSE_BRACKET) {
        assert Left()[1..] == src[pos + 1..];
        pos := pos + 1;
        return Some(Arr(items));
      }
      ghost var first := Left();
      NothingBefore<Node>(ReadItems(first, depth));
      while true
        invariant old(pos) < pos <= |src| && ReadItems(first, depth) == Behind(items, ReadItems(src[pos..], depth))
        decreases |src| - pos
      {
        ghost var here := src[pos..];
        ReadItemsStep(here, depth);
        BehindIs(items, ReadItems(here, depth));
        var v := Value(depth + 1);
        if v.None? {
          return None;
        }
        ghost var seen := items;
        items := items + [v.value];
        var c := Separator();
        if c == Some(CLOSE_BRACKET) {
          return Some(Arr(items));
        }
        if c != Some(COMMA) {
          return None;
        }
        BehindMore(seen, v.value, ReadItems(src[pos..], depth));
      }
    }

    method Object(depth: nat) returns (r: Option<Node>)
      requires pos < |src|
      modifies this`pos
      ensures old(pos) <= pos <= |src| && (r.Some? ==> old(pos) < pos)
      ensures Follows(ReadObject(old(src[pos + 1..]), depth), r, Left())
      decreases |src| - pos, 2
    {
      hide ReadObject, ReadMembers, ReadEntry, SkipSpace, SetAll, SetEntry, Behind, IsSpace;
      pos := pos + 1;
      ghost var t := Left();
      ReadObjectIs(t, depth);
      var entries: seq<Entry> := [];
      ghost var list: seq<Entry> := [];
      SetNone();
      Ws();
      if At(CLOSE_BRACE) {
        assert Left()[1..] == src[pos + 1..];
        pos := pos + 1;
        return Some(Obj(entries));
      }
      ghost var first := Left();
      NothingBefore<Entry>(ReadMembers(first, depth));
      while true
        invariant old(pos) < pos <= |src| && ReadMembers(first, depth) == Behind(list, ReadMembers(src[pos..], depth))
        invariant entries == SetAll([], list)
        decreases |src| - pos
      {
        ghost var here := src[pos..];
        ReadMembersStep(here, depth);
        BehindIs(list, ReadMembers(here, depth));
        var name, v := Pair(depth);
        if v.None? {
          return None;
        }
        ghost var seen, entry := list, Entry(name, v.value);
        SetOneMore([], seen, entry);
        entries := SetEntry(entries, name, v.value);
        list := list + [entry];
        var c := Separator();
        if c == Some(CLOSE_BRACE) {
          return Some(Obj(entries));
        }
        if c != Some(COMMA) {
          return None;
        }
        BehindMore(seen, entry, ReadMembers(src[pos..], depth));
      }
    }

    /** A name, its colon and its value. */
    method Pair(depth: nat) returns (name: Text, v: Option<Node>)
      requires pos <= |src|
      modifies this`pos
      ensures old(pos) <= pos <= |src| && (v.Some? ==> old(pos) < pos)
      ensures Follows(ReadEntry(old(Left()), depth), if v.Some? then Some(Entry(name, v.value)) else None, Left())
      decreases |src| - pos, 1
    {
      hide ReadName, ReadValue;
      var n := NameAndColon();
      if n.None? {
        return [], None;
      }
      name := n.value;
      v := Value(depth + 1);
    }

    method NameAndColon() returns (r: Option<Text>)
      requires pos <= |src|
      modifies this`pos
      ensures old(pos) <= pos <= |src| && (r.Some? ==> old(pos) < pos)
      ensures Follows(ReadName(old(Left())), r, Left())
    {
      hide ReadBody, SkipSpace;
      Ws();
      if !At(QUOTE) {
        return None;
      }
      var name := StringToken();
      if name.None? {
        return None;
      }
      Ws();
      if !At(COLON) {
        return None;
      }
      assert Left()[1..] == src[pos + 1..];
      pos := pos + 1;
      r := name;
    }
  }

  // --- strings ---

  /** The string of body ends where the one of t ends. */
  ghost predicate SameEnd(body: Text, t: Text) {
    var r, q := ReadBody(body), ReadBody(t);
    (r.Scanned? <==> q.Scanned?) && (r.Scanned? ==> r.rest == q.rest)
  }

  lemma SameEndAs(a: Text, b: Text, c: Text)
    ensures SameEnd(a, a)
    ensures SameEnd(a, b) && SameEnd(b, c) ==> SameEnd(a, c)
  {
    hide ReadBody;
  }

  lemma SameEndIs(body: Text, t: Text)
    requires SameEnd(body, t)
    ensures ReadBody(body).Scanned? <==> ReadBody(t).Scanned?
    ensures ReadBody(t).Scanned? ==> ReadBody(body).rest == ReadBody(t).rest
  {
    hide ReadBody;
  }

  lemma ReadBodyEnds(t: Text)
    ensures t == [] ==> ReadBody(t) == Nothing
    ensures t != [] && t[0] == QUOTE ==> ReadBody(t) == Scanned([], t[1..])
  {
  }

  /** One character or escape of a string. */
  lemma ReadBodyStep(t: Text)
    ensures t == [] ==> ReadBody(t) == Nothing
    ensures t != [] && t[0] == QUOTE ==> ReadBody(t) == Scanned([], t[1..])
    ensures t != [] && t[0] < 0x20 ==> ReadBody(t) == Nothing
    ensures t != [] && t[0] >= 0x20 && t[0] != QUOTE && t[0] != BACKSLASH ==> SameEnd(t, t[1..])
    ensures t != [] && t[0] == BACKSLASH && |t| < 2 ==> ReadBody(t) == Nothing
    ensures |t| >= 2 && t[0] == BACKSLASH && t[1] == LETTER_U ==>
              if |t| >= 6 && IsHex(t[2..6]) then SameEnd(t, t[6..]) else ReadBody(t) == Nothing
    ensures |t| >= 2 && t[0] == BACKSLASH && t[1] != LETTER_U ==>
              if ShortUnit(t[1]) >= 0 then SameEnd(t, t[2..]) else ReadBody(t) == Nothing
  {
  }

  /** The token alone resolves like the token in its text. */
  lemma TokenIsComplete(s: Text, token: Text, rest: Text)
    requires ReadString(s).Scanned? && ReadString(s).rest == rest && s == token + rest
    ensures ReadString(token).Scanned? && ReadString(token).token == ReadString(s).token
  {
    hide ReadString, TokenText, TokenUnits;
    var parts := ReadStringIsToken(s);
    assert token + rest == TokenText(parts) + rest;
    assert token == TokenText(parts) by {
      assert |token| == |TokenText(parts)|;
      assert (token + rest)[..|token|] == token && (TokenText(parts) + rest)[..|token|] == TokenText(parts);
    }
    ReadsString(parts, []);
    assert TokenText(parts) + [] == TokenText(parts);
  }

  lemma StartsAt(src: Text, pos: nat, w: Text)
    requires pos <= |src|
    ensures StartsWord(src[pos..], w) <==> pos + |w| <= |src| && src[pos..pos + |w|] == w
  {
    if pos + |w| <= |src| {
      assert src[pos..][..|w|] == src[pos..pos + |w|];
    }
  }

  lemma LiteralIsNotEmpty(l: Literal)
    requires IsLiteral(l)
    ensures LiteralText(l) != []
  {
  }

  // --- lists ---

  /** What was read before, then the rest of the list. */
  ghost function Behind<T>(seen: seq<T>, r: Scanned<seq<T>>): Scanned<seq<T>> {
    if r.Scanned? then Scanned(seen + r.token, r.rest) else Nothing
  }

  lemma NothingBefore<T>(r: Scanned<seq<T>>)
    ensures Behind([], r) == r
  {
    if r.Scanned? {
      assert [] + r.token == r.token;
    }
  }

  lemma BehindIs<T>(seen: seq<T>, r: Scanned<seq<T>>)
    ensures Behind(seen, r) == if r.Scanned? then Scanned(seen + r.token, r.rest) else Nothing
  {
  }

  lemma BehindMore<T>(seen: seq<T>, x: T, r: Scanned<seq<T>>)
    ensures Behind(seen, Behind([x], r)) == Behind(seen + [x], r)
  {
    if r.Scanned? {
      assert seen + ([x] + r.token) == seen + [x] + r.token;
    }
  }

  lemma ReadArrayIs(t: Text, depth: nat)
    ensures
      var s := SkipSpace(t);
      var r := ReadItems(s, depth);
      ReadArray(t, depth) == if Starts(s, CLOSE_BRACKET) then Scanned(Arr([]), s[1..])
                             else if r.Scanned? then Scanned(Arr(r.token), r.rest) else Nothing
  {
    hide ReadItems, SkipSpace;
  }

  lemma ReadObjectIs(t: Text, depth: nat)
    ensures
      var s := SkipSpace(t);
      var r := ReadMembers(s, depth);
      ReadObject(t, depth) == if Starts(s, CLOSE_BRACE) then Scanned(Obj([]), s[1..])
                              else if r.Scanned? then Scanned(Obj(SetAll([], r.token)), r.rest) else Nothing
  {
    hide ReadMembers, SkipSpace, SetAll;
  }

  lemma ReadItemsStep(t: Text, depth: nat)
    ensures
      var v := ReadValue(t, depth + 1);
      if v.Nothing? then ReadItems(t, depth) == Nothing
      else
        var s := SkipSpace(v.rest);
        if Starts(s, CLOSE_BRACKET) then ReadItems(t, depth) == Scanned([v.token], s[1..])
        else if Starts(s, COMMA) then ReadItems(t, depth) == Behind([v.token], ReadItems(s[1..], depth))
        else ReadItems(t, depth) == Nothing
  {
    hide ReadValue, SkipSpace;
  }

  lemma ReadMembersStep(t: Text, depth: nat)
    ensures
      var e := ReadEntry(t, depth);
      if e.Nothing? then ReadMembers(t, depth) == Nothing
      else
        var s := SkipSpace(e.rest);
        if Starts(s, CLOSE_BRACE) then ReadMembers(t, depth) == Scanned([e.token], s[1..])
        else if Starts(s, COMMA) then ReadMembers(t, depth) == Behind([e.token], ReadMembers(s[1..], depth))
        else ReadMembers(t, depth) == Nothing
  {
    hide ReadEntry, SkipSpace;
  }

  lemma {:induction false} SetOneMore(entries: seq<Entry>, list: seq<Entry>, entry: Entry)
    ensures SetAll(entries, list + [entry]) == SetEntry(SetAll(entries, list), entry.name, entry.node)
    decreases |list|
  {
    if list == [] {
      assert SetAll(entries, []) == entries && ([] + [entry])[1..] == [];
    } else {
      SetOneMore(SetEntry(entries, list[0].name, list[0].node), list[1..], entry);
      assert (list + [entry])[1..] == list[1..] + [entry];
    }
  }
}
