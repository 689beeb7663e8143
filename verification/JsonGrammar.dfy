/** The parser as a function, and that it accepts exactly the grammar:
    Parser of frontend/src/lib/canonical-json.ts. */
module JsonGrammar {
  import opened Options
  import opened JsonText
  import opened JsonNumber
  import opened JsonScanner
  import opened JsonString
  import opened JsonSyntax

  const MAX_NESTING: nat := 512

  function StartsWord(t: Text, w: Text): bool {
    w <= t
  }

  /** What a value token is, behind its white space. */
  function ReadValue(t: Text, depth: nat): (r: Scanned<Node>)
    ensures r.Scanned? ==> |r.rest| < |t|
    decreases |t|, 1
  {
    if depth > MAX_NESTING then Nothing
    else
      var s := SkipSpace(t);
      if Starts(s, OPEN_BRACE) then ReadObject(s[1..], depth)
      else if Starts(s, OPEN_BRACKET) then ReadArray(s[1..], depth)
      else ReadScalar(s)
  }

  function ReadScalar(s: Text): (r: Scanned<Node>)
    ensures r.Scanned? ==> |r.rest| < |s|
  {
    if Starts(s, QUOTE) then
      var r := ReadString(s);
      if r.Scanned? then Scanned(Str(r.token), r.rest) else Nothing
    else if StartsWord(s, NULL) then Scanned(Lit(NULL), s[4..])
    else if StartsWord(s, TRUE) then Scanned(Lit(TRUE), s[4..])
    else if StartsWord(s, FALSE) then Scanned(Lit(FALSE), s[5..])
    else
      var r := ReadNumber(s, false);
      if r.Scanned? then
        ReadNumberIsLiteral(s, false);
        Scanned(Num(NormalizeNumber(LiteralText(r.token))), r.rest)
      else Nothing
  }

  /** An array behind its opening bracket. */
  function ReadArray(t: Text, depth: nat): (r: Scanned<Node>)
    ensures r.Scanned? ==> |r.rest| < |t|
    decreases |t|, 3
  {
    var s := SkipSpace(t);
    if Starts(s, CLOSE_BRACKET) then Scanned(Arr([]), s[1..])
    else
      var r := ReadItems(s, depth);
      if r.Scanned? then Scanned(Arr(r.token), r.rest) else Nothing
  }

  function ReadItems(t: Text, depth: nat): (r: Scanned<seq<Node>>)
    ensures r.Scanned? ==> |r.rest| < |t| && r.token != []
    decreases |t|, 2
  {
    var v := ReadValue(t, depth + 1);
    if v.Nothing? then Nothing
    else
      var s := SkipSpace(v.rest);
      if Starts(s, CLOSE_BRACKET) then Scanned([v.token], s[1..])
      else if Starts(s, COMMA) then
        var more := ReadItems(s[1..], depth);
        if more.Scanned? then Scanned([v.token] + more.token, more.rest) else Nothing
      else Nothing
  }

  /** An object behind its opening brace. */
  function ReadObject(t: Text, depth: nat): (r: Scanned<Node>)
    ensures r.Scanned? ==> |r.rest| < |t|
    decreases |t|, 3
  {
    var s := SkipSpace(t);
    if Starts(s, CLOSE_BRACE) then Scanned(Obj([]), s[1..])
    else
      var r := ReadMembers(s, depth);
      if r.Scanned? then Scanned(Obj(SetAll([], r.token)), r.rest) else Nothing
  }

  /** A name and its colon. */
  function ReadName(t: Text): (r: Scanned<Text>)
    ensures r.Scanned? ==> |r.rest| < |t|
  {
    var name := ReadString(SkipSpace(t));
    if name.Nothing? then Nothing
    else
      var s := SkipSpace(name.rest);
      if Starts(s, COLON) then Scanned(name.token, s[1..]) else Nothing
  }

  function ReadEntry(t: Text, depth: nat): (r: Scanned<Entry>)
    ensures r.Scanned? ==> |r.rest| < |t|
    decreases |t|, 1
  {
    var name := ReadName(t);
    if name.Nothing? then Nothing
    else
      var v := ReadValue(name.rest, depth + 1);
      if v.Scanned? then Scanned(Entry(name.token, v.token), v.rest) else Nothing
  }

  function ReadMembers(t: Text, depth: nat): (r: Scanned<seq<Entry>>)
    ensures r.Scanned? ==> |r.rest| < |t| && r.token != []
    decreases |t|, 2
  {
    var e := ReadEntry(t, depth);
    if e.Nothing? then Nothing
    else
      var s := SkipSpace(e.rest);
      if Starts(s, CLOSE_BRACE) then Scanned([e.token], s[1..])
      else if Starts(s, COMMA) then
        var more := ReadMembers(s[1..], depth);
        if more.Scanned? then Scanned([e.token] + more.token, more.rest) else Nothing
      else Nothing
  }

  /** The node of a text that is one JSON value. */
  function Parse(t: Text): Option<Node> {
    var r := ReadValue(t, 0);
    if r.Scanned? && SkipSpace(r.rest) == [] then Some(r.token) else None
  }

  // --- every text of the grammar is accepted ---

  /** The text begins with a character no value is separated or ended by. */
  predicate BeginsValue(t: Text) {
    t != [] && !IsSpace(t[0]) && t[0] != CLOSE_BRACKET && t[0] != CLOSE_BRACE
  }

  lemma TreeBegins(t: Tree)
    requires IsTree(t)
    ensures BeginsValue(TreeText(t))
  {
    match t
    case Number(l) => assert TreeText(t)[0] == if l.neg then MINUS else l.whole[0];
                      assert IsDigit(l.whole[0]);
    case _ =>
  }

  lemma SkipsTo(blank: Text, t: Text, rest: Text)
    requires IsBlank(blank) && t != [] && !IsSpace(t[0])
    ensures SkipSpace(blank + t + rest) == t + rest && SkipSpace(t + rest) == t + rest
  {
    assert blank + t + rest == blank + (t + rest);
    SkipsBlank(blank, t + rest);
    SkipsBlank([], t + rest);
    assert [] + (t + rest) == t + rest;
  }

  /** A blank and a separator do not continue a number. */
  lemma BlankEnds(blank: Text, c: CodeUnit, rest: Text)
    requires IsBlank(blank) && (c == COMMA || c == CLOSE_BRACKET || c == CLOSE_BRACE)
    ensures !Continues(blank + ([c] + rest))
  {
    var t := blank + ([c] + rest);
    assert t[0] == if blank == [] then c else blank[0];
    assert blank != [] ==> blank[0] in blank;
  }

  lemma ReadsScalar(t: Tree, rest: Text)
    requires IsTree(t) && (t.Word? || t.Number? || t.StringOf?) && !Continues(rest)
    ensures ReadScalar(TreeText(t) + rest) == Scanned(NodeOf(t), rest)
  {
    match t
    case Word(w) => ReadsWord(w, rest);
    case StringOf(token) => ReadsString(token, rest);
    case Number(l) => ReadsNumberValue(l, rest);
  }

  lemma ReadsWord(w: Text, rest: Text)
    requires w == NULL || w == TRUE || w == FALSE
    ensures ReadScalar(w + rest) == Scanned(Lit(w), rest)
  {
    hide ReadNumber, ReadString;
    assert (w + rest)[0] == w[0] && (w + rest)[|w|..] == rest;
    assert w <= w + rest;
  }

  lemma ReadsNumberValue(l: Literal, rest: Text)
    requires IsLiteral(l) && !Continues(rest)
    ensures ReadScalar(LiteralText(l) + rest) == Scanned(Num(NormalizeNumber(LiteralText(l))), rest)
  {
    var s := LiteralText(l) + rest;
    assert s[0] == if l.neg then MINUS else l.whole[0];
    assert IsDigit(l.whole[0]);
    ReadsNumber(l, rest, false);
    hide ReadNumber, LiteralText, NormalizeNumber, IsLiteral;
    NoWord(s);
  }

  lemma NoWord(s: Text)
    requires s != [] && (s[0] == MINUS || IsDigit(s[0]))
    ensures !StartsWord(s, NULL) && !StartsWord(s, TRUE) && !StartsWord(s, FALSE) && !Starts(s, QUOTE)
  {
  }

  lemma {:induction false} ReadsTree(t: Tree, blank: Text, rest: Text, depth: nat)
    requires IsTree(t) && IsBlank(blank) && depth + Nesting(t) <= MAX_NESTING && !Continues(rest)
    ensures ReadValue(blank + TreeText(t) + rest, depth) == Scanned(NodeOf(t), rest)
    decreases t, 1
  {
    hide *;
    TreeBegins(t);
    BeginsNoSpace(TreeText(t));
    SkipsTo(blank, TreeText(t), rest);
    var s := TreeText(t) + rest;
    NestingIsNat(t, depth);
    ReadValueIs(blank + TreeText(t) + rest, s, depth);
    if t.Array? {
      ReadsArray(t, rest, depth);
      ArrayBegins(t, rest);
    } else if t.Object? {
      ReadsObject(t, rest, depth);
      ObjectBegins(t, rest);
    } else {
      ScalarBegins(t, rest);
      ReadsScalar(t, rest);
    }
  }

  lemma BeginsNoSpace(t: Text)
    requires BeginsValue(t)
    ensures t != [] && !IsSpace(t[0])
  {
  }

  lemma NestingIsNat(t: Tree, depth: nat)
    requires depth + Nesting(t) <= MAX_NESTING
    ensures depth <= MAX_NESTING
  {
    hide Nesting;
  }

  lemma ReadValueIs(t: Text, s: Text, depth: nat)
    requires SkipSpace(t) == s && depth <= MAX_NESTING
    ensures Starts(s, OPEN_BRACE) ==> s != [] && ReadValue(t, depth) == ReadObject(s[1..], depth)
    ensures Starts(s, OPEN_BRACKET) ==> s != [] && ReadValue(t, depth) == ReadArray(s[1..], depth)
    ensures !Starts(s, OPEN_BRACE) && !Starts(s, OPEN_BRACKET) ==> ReadValue(t, depth) == ReadScalar(s)
  {
    hide SkipSpace, ReadObject, ReadArray, ReadScalar;
  }

  lemma ArrayBegins(t: Tree, rest: Text)
    requires t.Array?
    ensures Starts(TreeText(t) + rest, OPEN_BRACKET) && !Starts(TreeText(t) + rest, OPEN_BRACE)
  {
    hide ItemsText;
  }

  lemma ObjectBegins(t: Tree, rest: Text)
    requires t.Object?
    ensures Starts(TreeText(t) + rest, OPEN_BRACE) && !Starts(TreeText(t) + rest, OPEN_BRACKET)
  {
    hide MembersText;
  }

  lemma {:induction false} ReadsArray(t: Tree, rest: Text, depth: nat)
    requires t.Array? && IsTree(t) && depth + Nesting(t) <= MAX_NESTING
    ensures TreeText(t) + rest != [] && ReadArray((TreeText(t) + rest)[1..], depth) == Scanned(NodeOf(t), rest)
    decreases t, 0
  {
    hide ReadItems, SkipSpace, ItemsText;
    var s := TreeText(t) + rest;
    if t.items == [] {
      assert s[1..] == t.blank + [CLOSE_BRACKET] + rest;
      SkipsTo(t.blank, [CLOSE_BRACKET], rest);
      assert ([CLOSE_BRACKET] + rest)[1..] == rest;
    } else {
      assert s[1..] == ItemsText(t.items) + rest;
      ReadsItems(t.items, rest, depth);
      ItemsBegin(t.items, rest, depth);
    }
  }

  lemma {:induction false} ReadsObject(t: Tree, rest: Text, depth: nat)
    requires t.Object? && IsTree(t) && depth + Nesting(t) <= MAX_NESTING
    ensures TreeText(t) + rest != [] && ReadObject((TreeText(t) + rest)[1..], depth) == Scanned(NodeOf(t), rest)
    decreases t, 0
  {
    hide ReadMembers, SkipSpace, MembersText;
    var s := TreeText(t) + rest;
    if t.members == [] {
      assert s[1..] == t.blank + [CLOSE_BRACE] + rest;
      SkipsTo(t.blank, [CLOSE_BRACE], rest);
      assert ([CLOSE_BRACE] + rest)[1..] == rest;
    } else {
      assert s[1..] == MembersText(t.members) + rest;
      ReadsMembers(t.members, rest, depth);
      MembersBegin(t.members, rest, depth);
    }
  }

  lemma ScalarBegins(t: Tree, rest: Text)
    requires IsTree(t) && (t.Word? || t.Number? || t.StringOf?)
    ensures !Starts(TreeText(t) + rest, OPEN_BRACE) && !Starts(TreeText(t) + rest, OPEN_BRACKET)
  {
    match t
    case Number(l) => assert TreeText(t)[0] == if l.neg then MINUS else l.whole[0];
                      assert IsDigit(l.whole[0]);
    case _ =>
  }

  lemma SkipTwice(t: Text)
    ensures SkipSpace(SkipSpace(t)) == SkipSpace(t)
  {
  }

  lemma ItemsBegin(items: seq<Padded>, rest: Text, depth: nat)
    requires items != [] && AreItems(items)
    ensures
      var s := SkipSpace(ItemsText(items) + rest);
      !Starts(s, CLOSE_BRACKET) && ReadItems(s, depth) == ReadItems(ItemsText(items) + rest, depth)
  {
    var p := items[0];
    TreeBegins(p.value);
    var tail := p.after + (if |items| == 1 then [CLOSE_BRACKET] else [COMMA] + ItemsText(items[1..])) + rest;
    assert ItemsText(items) + rest == p.before + TreeText(p.value) + tail;
    SkipsTo(p.before, TreeText(p.value), tail);
    SkipTwice(ItemsText(items) + rest);
    hide SkipSpace, TreeText, ItemsText;
  }

  lemma MembersBegin(members: seq<Member>, rest: Text, depth: nat)
    requires members != [] && AreMembers(members)
    ensures
      var s := SkipSpace(MembersText(members) + rest);
      !Starts(s, CLOSE_BRACE) && ReadMembers(s, depth) == ReadMembers(MembersText(members) + rest, depth)
  {
    var m := members[0];
    var tail := m.mid + [COLON] + PaddedText(m.value) + (if |members| == 1 then [CLOSE_BRACE]
      else [COMMA] + MembersText(members[1..])) + rest;
    assert MembersText(members) + rest == m.before + TokenText(m.name) + tail;
    SkipsTo(m.before, TokenText(m.name), tail);
    SkipTwice(MembersText(members) + rest);
    hide SkipSpace, TreeText, MembersText;
  }

  lemma {:induction false} ReadsItems(items: seq<Padded>, rest: Text, depth: nat)
    requires items != [] && AreItems(items) && depth + ItemsNesting(items) <= MAX_NESTING
    ensures ReadItems(ItemsText(items) + rest, depth) == Scanned(NodesOf(items), rest)
    decreases items
  {
    hide ReadValue, SkipSpace, NodeOf, Nesting, TreeText;
    var p := items[0];
    var sep := if |items| == 1 then CLOSE_BRACKET else COMMA;
    var behind := if |items| == 1 then rest else ItemsText(items[1..]) + rest;
    var tail := p.after + ([sep] + behind);
    assert ItemsText(items) + rest == p.before + TreeText(p.value) + tail;
    BlankEnds(p.after, sep, behind);
    ReadsTree(p.value, p.before, tail, depth + 1);
    SkipsBlank(p.after, [sep] + behind);
    assert ([sep] + behind)[1..] == behind;
    if |items| > 1 {
      ReadsItems(items[1..], rest, depth);
    } else {
      assert NodesOf(items) == [NodeOf(p.value)];
    }
  }

  lemma {:induction false} ReadsMembers(members: seq<Member>, rest: Text, depth: nat)
    requires members != [] && AreMembers(members) && depth + MembersNesting(members) <= MAX_NESTING
    ensures ReadMembers(MembersText(members) + rest, depth) == Scanned(EntriesOf(members), rest)
    decreases members
  {
    hide *;
    var m := members[0];
    var sep := if |members| == 1 then CLOSE_BRACE else COMMA;
    var behind := if |members| == 1 then rest else MembersText(members[1..]) + rest;
    var tail := m.value.after + ([sep] + behind);
    var value := m.value.before + TreeText(m.value.value) + tail;
    MembersFacts(members);
    MemberSplits(members, rest, behind, sep);
    ReadsName(m, value);
    BlankEnds(m.value.after, sep, behind);
    ReadsTree(m.value.value, m.value.before, tail, depth + 1);
    SkipsBlank(m.value.after, [sep] + behind);
    if |members| > 1 {
      ReadsMembers(members[1..], rest, depth);
    }
    ReadsMember(members, MembersText(members) + rest, depth, value, tail, sep, behind, rest);
  }

  lemma MembersFacts(members: seq<Member>)
    requires members != [] && AreMembers(members)
    ensures
      var m := members[0];
      && IsBlank(m.before) && IsToken(m.name) && IsBlank(m.mid) && IsBlank(m.value.before) && IsTree(m.value.value)
        && IsBlank(m.value.after)
      && AreMembers(members[1..]) && !IsSpace(COMMA) && !IsSpace(CLOSE_BRACE)
      && 1 + Nesting(m.value.value) <= MembersNesting(members)
        && MembersNesting(members[1..]) <= MembersNesting(members)
  {
    hide IsTree, IsToken, Nesting;
  }

  /** One member, its separator and what follows. */
  lemma ReadsMember(members: seq<Member>, t: Text, depth: nat, value: Text, tail: Text, sep: CodeUnit, behind: Text,
                    rest: Text)
    requires members != [] && AreMembers(members) && IsToken(members[0].name) && IsTree(members[0].value.value)
    requires sep == if |members| == 1 then CLOSE_BRACE else COMMA
    requires ReadName(t) == Scanned(TokenUnits(members[0].name), value)
    requires ReadValue(value, depth + 1) == Scanned(NodeOf(members[0].value.value), tail)
    requires SkipSpace(tail) == [sep] + behind
    requires if |members| == 1 then behind == rest
             else AreMembers(members[1..]) && ReadMembers(behind, depth) == Scanned(EntriesOf(members[1..]), rest)
    ensures ReadMembers(t, depth) == Scanned(EntriesOf(members), rest)
  {
    hide ReadValue, SkipSpace, NodeOf, ReadName, TokenUnits, IsToken, IsTree;
    assert ([sep] + behind)[1..] == behind;
    if |members| == 1 {
      assert EntriesOf(members) == [Entry(TokenUnits(members[0].name), NodeOf(members[0].value.value))];
    }
  }

  lemma MemberSplits(members: seq<Member>, rest: Text, behind: Text, sep: CodeUnit)
    requires members != []
    requires sep == if |members| == 1 then CLOSE_BRACE else COMMA
    requires behind == if |members| == 1 then rest else MembersText(members[1..]) + rest
    ensures
      var m := members[0];
      MembersText(members) + rest ==
        m.before + TokenText(m.name) + (m.mid + ([COLON]
          + (m.value.before + TreeText(m.value.value) + (m.value.after + ([sep] + behind)))))
  {
    hide *;
    var m := members[0];
    MembersAre(members);
    MemberIs(m);
    var end := if |members| == 1 then [CLOSE_BRACE] else [COMMA] + MembersText(members[1..]);
    EndAndRest(members, rest, behind, sep, end);
    JoinedMember(m.before + TokenText(m.name), m.mid, [COLON], m.value.before + TreeText(m.value.value), m.value.after,
                 end, rest);
  }

  lemma EndAndRest(members: seq<Member>, rest: Text, behind: Text, sep: CodeUnit, end: Text)
    requires members != []
    requires sep == if |members| == 1 then CLOSE_BRACE else COMMA
    requires behind == if |members| == 1 then rest else MembersText(members[1..]) + rest
    requires end == if |members| == 1 then [CLOSE_BRACE] else [COMMA] + MembersText(members[1..])
    ensures end + rest == [sep] + behind
  {
    hide MembersText;
  }

  lemma MembersAre(members: seq<Member>)
    requires members != []
    ensures MembersText(members) == MemberText(members[0]) + if |members| == 1 then [CLOSE_BRACE]
        else [COMMA] + MembersText(members[1..])
  {
    hide MemberText;
  }

  lemma MemberIs(m: Member)
    ensures MemberText(m) == m.before + TokenText(m.name) + m.mid + [COLON]
        + (m.value.before + TreeText(m.value.value) + m.value.after)
  {
    hide TokenText, TreeText;
  }

  lemma JoinedMember(a: Text, b: Text, c: Text, d: Text, e: Text, f: Text, g: Text)
    ensures a + b + c + (d + e) + f + g == a + (b + (c + (d + (e + (f + g)))))
  {
  }

  lemma ReadsName(m: Member, value: Text)
    requires IsBlank(m.before) && IsToken(m.name) && IsBlank(m.mid)
    ensures ReadName(m.before + TokenText(m.name) + (m.mid + ([COLON] + value))) == Scanned(TokenUnits(m.name), value)
  {
    var tail := m.mid + ([COLON] + value);
    SkipsTo(m.before, TokenText(m.name), tail);
    ReadsString(m.name, tail);
    SkipsBlank(m.mid, [COLON] + value);
    assert ([COLON] + value)[1..] == value;
    hide SkipSpace, ReadString, TokenText, TokenUnits;
  }

  // --- every accepted text is one of the grammar ---

  lemma {:induction false} ValueTree(t: Text, depth: nat) returns (blank: Text, tree: Tree)
    requires ReadValue(t, depth).Scanned?
    ensures IsBlank(blank) && IsTree(tree) && depth + Nesting(tree) <= MAX_NESTING
    ensures t == blank + TreeText(tree) + ReadValue(t, depth).rest && NodeOf(tree) == ReadValue(t, depth).token
    decreases |t|, 1
  {
    hide *;
    blank := SkippedIsBlank(t);
    var s := SkipSpace(t);
    TooDeep(t, depth);
    ReadValueIs(t, s, depth);
    if Starts(s, OPEN_BRACE) {
      StartsIs(s, OPEN_BRACE);
      tree := ObjectTree(s[1..], depth);
    } else if Starts(s, OPEN_BRACKET) {
      StartsIs(s, OPEN_BRACKET);
      tree := ArrayTree(s[1..], depth);
    } else {
      tree := ScalarTree(s);
    }
    assert s == TreeText(tree) + ReadValue(t, depth).rest;
    assert blank + (TreeText(tree) + ReadValue(t, depth).rest) == blank + TreeText(tree) + ReadValue(t, depth).rest;
  }

  lemma TooDeep(t: Text, depth: nat)
    requires ReadValue(t, depth).Scanned?
    ensures depth <= MAX_NESTING
  {
    hide ReadObject, ReadArray, ReadScalar, SkipSpace;
  }

  lemma StartsIs(s: Text, c: CodeUnit)
    requires Starts(s, c)
    ensures s != [] && s == [c] + s[1..]
  {
  }

  lemma ScalarTree(s: Text) returns (tree: Tree)
    requires ReadScalar(s).Scanned?
    ensures IsTree(tree) && Nesting(tree) == 0
    ensures s == TreeText(tree) + ReadScalar(s).rest && NodeOf(tree) == ReadScalar(s).token
  {
    hide ReadString, ReadNumber, LiteralText, NormalizeNumber, TokenText, TokenUnits, IsToken, IsLiteral;
    if Starts(s, QUOTE) {
      var token := ReadStringIsToken(s);
      tree := StringOf(token);
    } else if StartsWord(s, NULL) {
      tree := Word(NULL);
    } else if StartsWord(s, TRUE) {
      tree := Word(TRUE);
    } else if StartsWord(s, FALSE) {
      tree := Word(FALSE);
    } else {
      ReadNumberIsLiteral(s, false);
      tree := Number(ReadNumber(s, false).token);
    }
  }

  lemma {:induction false} ArrayTree(t: Text, depth: nat) returns (tree: Tree)
    requires ReadArray(t, depth).Scanned? && depth <= MAX_NESTING
    ensures IsTree(tree) && depth + Nesting(tree) <= MAX_NESTING
    ensures [OPEN_BRACKET] + t == TreeText(tree) + ReadArray(t, depth).rest && NodeOf(tree) == ReadArray(t, depth).token
    decreases |t|, 3
  {
    hide SkipSpace, ReadItems, ItemsText;
    var blank := SkippedIsBlank(t);
    var s, rest := SkipSpace(t), ReadArray(t, depth).rest;
    if Starts(s, CLOSE_BRACKET) {
      tree := Array(blank, []);
      assert s == [CLOSE_BRACKET] + rest;
      assert [OPEN_BRACKET] + (blank + ([CLOSE_BRACKET] + rest)) == [OPEN_BRACKET] + (blank + [CLOSE_BRACKET]) + rest;
    } else {
      ItemsSkip(t, depth);
      var items := ItemsTree(t, depth);
      tree := Array([], items);
      assert [OPEN_BRACKET] + (ItemsText(items) + rest) == [OPEN_BRACKET] + ItemsText(items) + rest;
    }
  }

  lemma ItemsSkip(t: Text, depth: nat)
    ensures ReadItems(SkipSpace(t), depth) == ReadItems(t, depth)
  {
    SkipTwice(t);
    hide SkipSpace;
  }

  lemma MembersSkip(t: Text, depth: nat)
    ensures ReadMembers(SkipSpace(t), depth) == ReadMembers(t, depth)
  {
    SkipTwice(t);
    hide SkipSpace;
  }

  lemma {:induction false} ItemsTree(t: Text, depth: nat) returns (items: seq<Padded>)
    requires ReadItems(t, depth).Scanned?
    ensures items != [] && AreItems(items) && depth + ItemsNesting(items) <= MAX_NESTING
    ensures t == ItemsText(items) + ReadItems(t, depth).rest && NodesOf(items) == ReadItems(t, depth).token
    decreases |t|, 2
  {
    hide SkipSpace, ReadValue, ItemsText, TreeText, IsTree, NodeOf, Nesting, ItemsNesting, AreItems, NodesOf;
    var before, value := ValueTree(t, depth + 1);
    var v, r := ReadValue(t, depth + 1), ReadItems(t, depth);
    var after := SkippedIsBlank(v.rest);
    var s, p := SkipSpace(v.rest), Padded(before, value, after);
    if Starts(s, CLOSE_BRACKET) {
      items := [p];
      LastItem(p);
      assert s == [CLOSE_BRACKET] + r.rest;
      assert before + TreeText(value) + (after + ([CLOSE_BRACKET] + r.rest)) ==
        before + TreeText(value) + after + [CLOSE_BRACKET] + r.rest;
    } else {
      var more := ItemsTree(s[1..], depth);
      items := [p] + more;
      MoreItems(p, more);
      assert s == [COMMA] + (ItemsText(more) + r.rest);
      assert before + TreeText(value) + (after + ([COMMA] + (ItemsText(more) + r.rest)))
          == before + TreeText(value) + after + ([COMMA] + ItemsText(more)) + r.rest;
    }
  }

  lemma LastItem(p: Padded)
    ensures ItemsText([p]) == p.before + TreeText(p.value) + p.after + [CLOSE_BRACKET]
    ensures AreItems([p]) <==> IsBlank(p.before) && IsTree(p.value) && IsBlank(p.after)
    ensures ItemsNesting([p]) == 1 + Nesting(p.value)
    ensures AreItems([p]) ==> NodesOf([p]) == [NodeOf(p.value)]
  {
    hide TreeText, IsTree, NodeOf, Nesting;
    assert [p][1..] == [];
  }

  lemma MoreItems(p: Padded, more: seq<Padded>)
    requires more != []
    ensures ItemsText([p] + more) == p.before + TreeText(p.value) + p.after + ([COMMA] + ItemsText(more))
    ensures AreItems([p] + more) <==> IsBlank(p.before) && IsTree(p.value) && IsBlank(p.after) && AreItems(more)
    ensures ItemsNesting([p] + more) == Max(1 + Nesting(p.value), ItemsNesting(more))
    ensures AreItems([p] + more) ==> NodesOf([p] + more) == [NodeOf(p.value)] + NodesOf(more)
  {
    hide TreeText, IsTree, NodeOf, Nesting;
    assert ([p] + more)[1..] == more;
  }

  lemma {:induction false} ObjectTree(t: Text, depth: nat) returns (tree: Tree)
    requires ReadObject(t, depth).Scanned? && depth <= MAX_NESTING
    ensures IsTree(tree) && depth + Nesting(tree) <= MAX_NESTING
    ensures [OPEN_BRACE] + t == TreeText(tree) + ReadObject(t, depth).rest && NodeOf(tree) == ReadObject(t, depth).token
    decreases |t|, 3
  {
    hide SkipSpace, ReadMembers, MembersText, SetAll;
    var blank := SkippedIsBlank(t);
    var s, rest := SkipSpace(t), ReadObject(t, depth).rest;
    if Starts(s, CLOSE_BRACE) {
      tree := Object(blank, []);
      assert s == [CLOSE_BRACE] + rest;
      assert [OPEN_BRACE] + (blank + ([CLOSE_BRACE] + rest)) == [OPEN_BRACE] + (blank + [CLOSE_BRACE]) + rest;
      SetNone();
    } else {
      MembersSkip(t, depth);
      var members := MembersTree(t, depth);
      tree := Object([], members);
      assert [OPEN_BRACE] + (MembersText(members) + rest) == [OPEN_BRACE] + MembersText(members) + rest;
    }
  }

  lemma SetNone()
    ensures SetAll([], []) == []
  {
  }

  lemma {:induction false} MembersTree(t: Text, depth: nat) returns (members: seq<Member>)
    requires ReadMembers(t, depth).Scanned?
    ensures members != [] && AreMembers(members) && depth + MembersNesting(members) <= MAX_NESTING
    ensures t == MembersText(members) + ReadMembers(t, depth).rest && EntriesOf(members) == ReadMembers(t, depth).token
    decreases |t|, 2
  {
    hide SkipSpace, ReadValue, ReadName, MembersText, MemberText, TreeText, TokenText, IsTree, IsToken, NodeOf,
      TokenUnits, Nesting,
      MembersNesting, AreMembers, EntriesOf;
    var n, r := ReadName(t), ReadMembers(t, depth);
    var before, name, mid := NameTokens(t);
    var blank, value := ValueTree(n.rest, depth + 1);
    var v := ReadValue(n.rest, depth + 1);
    var after := SkippedIsBlank(v.rest);
    var s, m := SkipSpace(v.rest), Member(before, name, mid, Padded(blank, value, after));
    MemberIs(m);
    var head, body := before + TokenText(name) + mid + [COLON], blank + TreeText(value);
    assert t == head + (body + (after + s));
    if Starts(s, CLOSE_BRACE) {
      members := [m];
      LastMember(m);
      assert s == [CLOSE_BRACE] + r.rest;
      JoinedPieces(head, body, after, [CLOSE_BRACE], r.rest);
    } else {
      var more := MembersTree(s[1..], depth);
      members := [m] + more;
      MoreMembers(m, more);
      assert s == [COMMA] + (MembersText(more) + r.rest) == [COMMA] + MembersText(more) + r.rest;
      JoinedPieces(head, body, after, [COMMA] + MembersText(more), r.rest);
    }
  }

  lemma JoinedPieces(head: Text, body: Text, after: Text, end: Text, rest: Text)
    ensures head + (body + (after + (end + rest))) == head + (body + after) + end + rest
  {
  }

  lemma NameTokens(t: Text) returns (before: Text, name: Token, mid: Text)
    requires ReadName(t).Scanned?
    ensures IsBlank(before) && IsToken(name) && IsBlank(mid) && TokenUnits(name) == ReadName(t).token
    ensures t == before + TokenText(name) + mid + [COLON] + ReadName(t).rest
  {
    hide SkipSpace, ReadString, TokenText, TokenUnits, IsToken;
    before := SkippedIsBlank(t);
    var r := ReadString(SkipSpace(t));
    name := ReadStringIsToken(SkipSpace(t));
    mid := SkippedIsBlank(r.rest);
    var s := SkipSpace(r.rest);
    assert s == [COLON] + ReadName(t).rest;
    assert before + (TokenText(name) + (mid + s)) == before + TokenText(name) + mid + [COLON] + ReadName(t).rest;
  }

  lemma LastMember(m: Member)
    ensures MembersText([m]) == MemberText(m) + [CLOSE_BRACE]
    ensures AreMembers([m]) <==> IsBlank(m.before) && IsToken(m.name) && IsBlank(m.mid)
                                 && IsBlank(m.value.before) && IsTree(m.value.value) && IsBlank(m.value.after)
    ensures MembersNesting([m]) == 1 + Nesting(m.value.value)
    ensures AreMembers([m]) ==> EntriesOf([m]) == [Entry(TokenUnits(m.name), NodeOf(m.value.value))]
  {
    hide MemberText, IsTree, IsToken, NodeOf, TokenUnits, Nesting;
    assert [m][1..] == [];
  }

  lemma MoreMembers(m: Member, more: seq<Member>)
    requires more != []
    ensures MembersText([m] + more) == MemberText(m) + ([COMMA] + MembersText(more))
    ensures AreMembers([m] + more) <==> IsBlank(m.before) && IsToken(m.name) && IsBlank(m.mid)
                                        && IsBlank(m.value.before) && IsTree(m.value.value) && IsBlank(m.value.after)
                                          && AreMembers(more)
    ensures MembersNesting([m] + more) == Max(1 + Nesting(m.value.value), MembersNesting(more))
    ensures AreMembers([m] + more) ==>
        EntriesOf([m] + more) == [Entry(TokenUnits(m.name), NodeOf(m.value.value))] + EntriesOf(more)
  {
    hide MemberText, IsTree, IsToken, NodeOf, TokenUnits, Nesting;
    assert ([m] + more)[1..] == more;
  }

  // --- documents ---

  /** tree writes the text, between two blanks. */
  ghost predicate Writes(t: Text, before: Text, tree: Tree, after: Text) {
    IsBlank(before) && IsTree(tree) && IsBlank(after) && Nesting(tree) <= 512
      && t == before + TreeText(tree) + after
  }

  /** The parser accepts exactly the texts of the grammar, nested at most 512 deep,
      and gives the node they mean. */
  lemma ParseIsExact(t: Text, node: Node)
    ensures Parse(t) == Some(node) <==>
        exists before, tree, after :: Writes(t, before, tree, after) && NodeOf(tree) == node
  {
    hide TreeText, IsTree, Nesting, NodeOf, ReadValue, SkipSpace;
    if Parse(t) == Some(node) {
      var before, tree := ValueTree(t, 0);
      var after := SkippedIsBlank(ReadValue(t, 0).rest);
      assert after + [] == after;
      assert Writes(t, before, tree, after);
    }
    forall before, tree, after | Writes(t, before, tree, after) && NodeOf(tree) == node ensures Parse(t) == Some(node) {
      ParsesTree(before, tree, after);
    }
  }

  lemma ParsesTree(before: Text, tree: Tree, after: Text)
    requires Writes(before + TreeText(tree) + after, before, tree, after)
    ensures Parse(before + TreeText(tree) + after) == Some(NodeOf(tree))
  {
    hide TreeText, IsTree, Nesting, NodeOf, ReadValue, SkipSpace;
    BlankNeverContinues(after);
    ReadsTree(tree, before, after, 0);
    SkipsBlank(after, []);
    assert after + [] == after;
  }

  lemma BlankNeverContinues(blank: Text)
    requires IsBlank(blank)
    ensures !Continues(blank)
  {
    assert blank != [] ==> blank[0] in blank;
  }
}
