/** How canonical texts are laid out: one item or member a line, indented by depth. */
module JsonLines {
  import opened Options
  import opened Sorting
  import opened JsonText
  import opened JsonNumber
  import opened JsonDouble
  import opened NumberText
  import opened JsonScanner
  import opened JsonString
  import opened JsonSyntax
  import opened JsonGrammar
  import opened JsonNormal

  // --- a reader that only accepts laid out texts ---

  /** Where the reader is: where a value or name starts, in or behind one, in a string, behind
      a backslash of it, an opening bracket, a comma or a colon, or before the spaces that
      are left of an indentation, which a closing bracket is to follow or not. */
  datatype Place = Fresh | Plain | Quoted | Escaped | Opened | Broken | Coloned | Indented(left: nat, closes: bool)

  /** `depth` counts the brackets that are open. */
  datatype Reader = Reader(depth: nat, place: Place)

  predicate IsOpening(c: CodeUnit) {
    c == '[' as int || c == '{' as int
  }

  predicate IsClosing(c: CodeUnit) {
    c == ']' as int || c == '}' as int
  }

  /** A character of a word or number. */
  predicate IsPlainChar(c: CodeUnit) {
    c > ' ' as int && c != '"' as int && c != ',' as int && c != ':' as int && !IsOpening(c) && !IsClosing(c)
  }

  /** A line break follows every opening bracket of a nonempty array or object and every
      comma, with two spaces per open bracket behind it; one comes before every
      closing bracket, with two spaces for each bracket that stays open; a colon is
      followed by one space; and there are no other spaces or line breaks but in strings. */
  function Step(s: Reader, c: CodeUnit): Option<Reader> {
    match s.place
    case Quoted =>
      if c == '"' as int then Some(Reader(s.depth, Plain))
      else if c == '\\' as int then Some(Reader(s.depth, Escaped))
      else if c < ' ' as int then None
      else Some(s)
    case Escaped => Some(Reader(s.depth, Quoted))
    case Opened =>
      if c == '\n' as int then Some(Reader(s.depth, Indented(2 * s.depth, false)))
      else if IsClosing(c) && s.depth > 0 then Some(Reader(s.depth - 1, Plain))
      else None
    case Broken => if c == '\n' as int then Some(Reader(s.depth, Indented(2 * s.depth, false))) else None
    case Coloned => if c == ' ' as int then Some(Reader(s.depth, Fresh)) else None
    case Indented(left, closes) =>
      if left > 0 then (if c == ' ' as int then Some(Reader(s.depth, Indented(left - 1, closes))) else None)
      else if closes then (if IsClosing(c) && s.depth > 0 then Some(Reader(s.depth - 1, Plain)) else None)
      else Begin(s.depth, c)
    case Fresh => Begin(s.depth, c)
    case Plain =>
      if s.depth > 0 && c == ',' as int then Some(Reader(s.depth, Broken))
      else if s.depth > 0 && c == ':' as int then Some(Reader(s.depth, Coloned))
      else if s.depth > 0 && c == '\n' as int then Some(Reader(s.depth, Indented(2 * (s.depth - 1), true)))
      else if IsPlainChar(c) then Some(s)
      else None
  }

  function Begin(depth: nat, c: CodeUnit): Option<Reader> {
    if c == '"' as int then Some(Reader(depth, Quoted))
    else if IsOpening(c) then Some(Reader(depth + 1, Opened))
    else if IsPlainChar(c) then Some(Reader(depth, Plain))
    else None
  }

  function Run(s: Reader, t: Text): Option<Reader>
    decreases |t|
  {
    if t == [] then Some(s)
    else
      var next := Step(s, t[0]);
      if next.None? then None else Run(next.value, t[1..])
  }

  /** The text of one value, laid out line by line. */
  predicate IsLaidOut(t: Text) {
    Run(Reader(0, Fresh), t) == Some(Reader(0, Plain))
  }

  // --- reading piece by piece ---

  lemma {:induction false} RunConcat(s: Reader, a: Text, b: Text)
    ensures Run(s, a + b) == if Run(s, a).None? then None else Run(Run(s, a).value, b)
    decreases |a|
  {
    hide Step;
    if a == [] {
      assert a + b == b;
    } else {
      assert (a + b)[1..] == a[1..] + b;
      if Step(s, a[0]).Some? {
        RunConcat(Step(s, a[0]).value, a[1..], b);
      }
    }
  }

  /** Reading a leads from s to u, and then reading b to v. */
  lemma RunOn(s: Reader, a: Text, u: Reader, b: Text, v: Reader)
    requires Run(s, a) == Some(u) && Run(u, b) == Some(v)
    ensures Run(s, a + b) == Some(v)
  {
    hide Run;
    RunConcat(s, a, b);
  }

  lemma RunOne(s: Reader, c: CodeUnit)
    ensures Run(s, [c]) == Step(s, c)
  {
    hide Step;
    var next := Step(s, c);
    if next.Some? {
      assert [c][1..] == [];
      assert Run(next.value, []) == Some(next.value);
    }
  }

  function Spaces(n: nat): (t: Text)
    ensures |t| == n
  {
    if n == 0 then [] else [SPACE] + Spaces(n - 1)
  }

  lemma {:induction false} RunSpaces(depth: nat, n: nat, closes: bool)
    ensures Run(Reader(depth, Indented(n, closes)), Spaces(n)) == Some(Reader(depth, Indented(0, closes)))
  {
    if n > 0 {
      RunSpaces(depth, n - 1, closes);
      assert Spaces(n)[1..] == Spaces(n - 1);
    }
  }

  lemma {:induction false} MoreSpaces(n: nat)
    ensures Spaces(n) + [SPACE, SPACE] == Spaces(n + 2)
  {
    if n > 0 {
      MoreSpaces(n - 1);
    }
  }

  /** At the end of an indentation a value may start. */
  lemma StartsFresh(depth: nat, t: Text)
    requires t != []
    ensures Run(Reader(depth, Indented(0, false)), t) == Run(Reader(depth, Fresh), t)
  {
    hide Begin;
  }

  predicate IsPlainText(t: Text) {
    t != [] && forall c :: c in t ==> IsPlainChar(c)
  }

  lemma {:induction false} RunPlain(depth: nat, t: Text)
    requires forall c :: c in t ==> IsPlainChar(c)
    ensures Run(Reader(depth, Plain), t) == Some(Reader(depth, Plain))
  {
    if t != [] {
      assert forall c :: c in t[1..] ==> c in t;
      assert t[0] in t;
      RunPlain(depth, t[1..]);
      hide IsPlainChar;
      assert Step(Reader(depth, Plain), t[0]) == Some(Reader(depth, Plain)) by {
        PlainStep(depth, t[0]);
      }
    }
  }

  lemma PlainStep(depth: nat, c: CodeUnit)
    requires IsPlainChar(c)
    ensures Step(Reader(depth, Plain), c) == Some(Reader(depth, Plain))
    ensures Begin(depth, c) == Some(Reader(depth, Plain)) == Step(Reader(depth, Fresh), c)
  {
  }

  lemma RunWord(depth: nat, t: Text)
    requires IsPlainText(t)
    ensures Run(Reader(depth, Fresh), t) == Some(Reader(depth, Plain))
  {
    hide Step, Begin, IsPlainChar;
    assert t[0] in t && forall c :: c in t[1..] ==> c in t;
    PlainStep(depth, t[0]);
    RunPlain(depth, t[1..]);
  }

  // --- strings ---

  lemma RunPart(depth: nat, p: Part)
    requires IsPart(p)
    ensures Run(Reader(depth, Quoted), PartText(p)) == Some(Reader(depth, Quoted))
  {
    match p
    case Raw(c) => RunOne(Reader(depth, Quoted), c);
    case Short(letter) =>
      RunOne(Reader(depth, Quoted), BACKSLASH);
      RunOne(Reader(depth, Escaped), letter);
      RunOn(Reader(depth, Quoted), [BACKSLASH], Reader(depth, Escaped), [letter], Reader(depth, Quoted));
    case Hex(d) =>
      RunOne(Reader(depth, Quoted), BACKSLASH);
      RunOne(Reader(depth, Escaped), LETTER_U);
      RunOn(Reader(depth, Quoted), [BACKSLASH], Reader(depth, Escaped), [LETTER_U], Reader(depth, Quoted));
      RunInside(depth, d);
      RunOn(Reader(depth, Quoted), [BACKSLASH] + [LETTER_U], Reader(depth, Quoted), d, Reader(depth, Quoted));
      assert [BACKSLASH] + [LETTER_U] + d == PartText(p);
  }

  lemma {:induction false} RunInside(depth: nat, d: Text)
    requires forall i :: 0 <= i < |d| ==> HexDigit(d[i]) >= 0
    ensures Run(Reader(depth, Quoted), d) == Some(Reader(depth, Quoted))
  {
    if d != [] {
      RunInside(depth, d[1..]);
    }
  }

  lemma {:induction false} RunBody(depth: nat, token: Token)
    requires IsToken(token)
    ensures Run(Reader(depth, Quoted), BodyText(token)) == Some(Reader(depth, Quoted))
  {
    hide Step, IsPart, PartText;
    if token != [] {
      RunPart(depth, token[0]);
      RunBody(depth, token[1..]);
      RunOn(Reader(depth, Quoted), PartText(token[0]), Reader(depth, Quoted), BodyText(token[1..]),
            Reader(depth, Quoted));
    }
  }

  lemma RunString(depth: nat, v: Text)
    ensures Run(Reader(depth, Fresh), Stringify(v)) == Some(Reader(depth, Plain)) && Stringify(v) != []
  {
    var body := BodyText(TokenOf(v));
    RunOne(Reader(depth, Fresh), QUOTE);
    RunOne(Reader(depth, Quoted), QUOTE);
    assert Step(Reader(depth, Fresh), QUOTE) == Some(Reader(depth, Quoted));
    assert Step(Reader(depth, Quoted), QUOTE) == Some(Reader(depth, Plain));
    hide Run, Step, TokenOf, BodyText;
    StringifyIsExact(v);
    RunBody(depth, TokenOf(v));
    RunOn(Reader(depth, Fresh), [QUOTE], Reader(depth, Quoted), body, Reader(depth, Quoted));
    RunOn(Reader(depth, Fresh), [QUOTE] + body, Reader(depth, Quoted), [QUOTE], Reader(depth, Plain));
  }

  // --- nodes ---

  /** Words and numbers hold no space, quote, comma, colon or bracket. */
  ghost predicate IsPlainNode(node: Node) {
    match node
    case Lit(w) => IsPlainText(w)
    case Num(t) => IsPlainText(t)
    case Str(v) => true
    case Arr(items) => forall i :: 0 <= i < |items| ==> IsPlainNode(items[i])
    case Obj(entries) => forall i :: 0 <= i < |entries| ==> IsPlainNode(entries[i].node)
  }

  /** A rendered value, from where it starts to where it ends. */
  lemma {:induction false} RunRender(node: Node, depth: nat)
    requires IsPlainNode(node)
    ensures Render(node, Spaces(2 * depth)) != []
    ensures Run(Reader(depth, Fresh), Render(node, Spaces(2 * depth))) == Some(Reader(depth, Plain))
    decreases node, 1
  {
    hide Run, Step, Stringify;
    var indent, inner := Spaces(2 * depth), Spaces(2 * (depth + 1));
    MoreSpaces(2 * depth);
    match node
    case Lit(w) => RunWord(depth, w);
    case Num(t) => RunWord(depth, t);
    case Str(v) => RunString(depth, v);
    case Arr(items) =>
      if items == [] {
        RunEmpty(depth, OPEN_BRACKET, CLOSE_BRACKET);
      } else {
        RunItems(items, depth + 1);
        RunLines(depth, OPEN_BRACKET, RenderItems(items, inner), CLOSE_BRACKET);
      }
    case Obj(entries) =>
      if entries == [] {
        RunEmpty(depth, OPEN_BRACE, CLOSE_BRACE);
      } else {
        RunEntries(entries, depth + 1);
        RunLines(depth, OPEN_BRACE, RenderEntries(entries, inner), CLOSE_BRACE);
      }
  }

  lemma RunEmpty(depth: nat, open: CodeUnit, close: CodeUnit)
    requires IsOpening(open) && IsClosing(close)
    ensures Run(Reader(depth, Fresh), [open, close]) == Some(Reader(depth, Plain))
  {
    RunOne(Reader(depth, Fresh), open);
    RunOne(Reader(depth + 1, Opened), close);
    RunOn(Reader(depth, Fresh), [open], Reader(depth + 1, Opened), [close], Reader(depth, Plain));
    assert [open] + [close] == [open, close];
  }

  /** The brackets around the lines of a nonempty array or object. */
  lemma RunLines(depth: nat, open: CodeUnit, lines: Text, close: CodeUnit)
    requires IsOpening(open) && IsClosing(close)
    requires Run(Reader(depth + 1, Indented(2 * (depth + 1), false)), lines) == Some(Reader(depth + 1, Plain))
    ensures Run(Reader(depth, Fresh), [open, NEWLINE] + lines + ([NEWLINE] + Spaces(2 * depth) + [close])) ==
            Some(Reader(depth, Plain))
  {
    var first, inside := Reader(depth, Fresh), Reader(depth + 1, Indented(2 * (depth + 1), false));
    var behind, outer := Reader(depth + 1, Plain), Reader(depth + 1, Indented(2 * depth, true));
    var closes, done := Reader(depth + 1, Indented(0, true)), Reader(depth, Plain);
    RunOne(first, open);
    RunOne(Reader(depth + 1, Opened), NEWLINE);
    RunOne(behind, NEWLINE);
    RunOne(closes, close);
    assert Step(closes, close) == Some(done) && Step(behind, NEWLINE) == Some(outer);
    hide Run, Step;
    RunOn(first, [open], Reader(depth + 1, Opened), [NEWLINE], inside);
    assert [open] + [NEWLINE] == [open, NEWLINE];
    RunOn(first, [open, NEWLINE], inside, lines, behind);
    RunSpaces(depth + 1, 2 * depth, true);
    RunOn(behind, [NEWLINE], outer, Spaces(2 * depth), closes);
    RunOn(behind, [NEWLINE] + Spaces(2 * depth), closes, [close], done);
    RunOn(first, [open, NEWLINE] + lines, behind, [NEWLINE] + Spaces(2 * depth) + [close], done);
  }

  /** A line: its indentation and what starts behind it. */
  lemma RunLine(depth: nat, t: Text)
    requires t != [] && Run(Reader(depth, Fresh), t) == Some(Reader(depth, Plain))
    ensures Run(Reader(depth, Indented(2 * depth, false)), Spaces(2 * depth) + t) == Some(Reader(depth, Plain))
  {
    hide Step;
    StartsFresh(depth, t);
    hide Run;
    RunSpaces(depth, 2 * depth, false);
    RunOn(Reader(depth, Indented(2 * depth, false)), Spaces(2 * depth), Reader(depth, Indented(0, false)), t,
          Reader(depth, Plain));
  }

  /** A line, a comma and the lines behind it. */
  lemma RunComma(depth: nat, line: Text, lines: Text)
    requires depth > 0
    requires Run(Reader(depth, Indented(2 * depth, false)), line) == Some(Reader(depth, Plain))
    requires Run(Reader(depth, Indented(2 * depth, false)), lines) == Some(Reader(depth, Plain))
    ensures Run(Reader(depth, Indented(2 * depth, false)), line + ([COMMA, NEWLINE] + lines)) ==
        Some(Reader(depth, Plain))
  {
    var start, behind := Reader(depth, Indented(2 * depth, false)), Reader(depth, Plain);
    RunOne(behind, COMMA);
    RunOne(Reader(depth, Broken), NEWLINE);
    hide Run;
    RunOn(behind, [COMMA], Reader(depth, Broken), [NEWLINE], start);
    assert [COMMA] + [NEWLINE] == [COMMA, NEWLINE];
    RunOn(behind, [COMMA, NEWLINE], start, lines, behind);
    RunOn(start, line, behind, [COMMA, NEWLINE] + lines, behind);
  }

  lemma {:induction false} RunItems(items: seq<Node>, depth: nat)
    requires items != [] && depth > 0 && forall i :: 0 <= i < |items| ==> IsPlainNode(items[i])
    ensures Run(Reader(depth, Indented(2 * depth, false)), RenderItems(items, Spaces(2 * depth))) ==
        Some(Reader(depth, Plain))
    decreases items, 0
  {
    hide Run, Step, IsPlainNode, Render;
    var inner := Spaces(2 * depth);
    RunRender(items[0], depth);
    RunLine(depth, Render(items[0], inner));
    if |items| == 1 {
      assert RenderItems(items, inner) == inner + Render(items[0], inner) + [];
      assert inner + Render(items[0], inner) + [] == inner + Render(items[0], inner);
    } else {
      RunItems(items[1..], depth);
      RunComma(depth, inner + Render(items[0], inner), RenderItems(items[1..], inner));
    }
  }

  /** "name": value */
  lemma RunMember(name: Text, value: Text, depth: nat)
    requires depth > 0 && Run(Reader(depth, Fresh), value) == Some(Reader(depth, Plain))
    ensures Stringify(name) + [COLON, SPACE] + value != []
    ensures Run(Reader(depth, Fresh), Stringify(name) + [COLON, SPACE] + value) == Some(Reader(depth, Plain))
  {
    var start, behind := Reader(depth, Fresh), Reader(depth, Plain);
    RunOne(behind, COLON);
    RunOne(Reader(depth, Coloned), SPACE);
    hide Run, Stringify;
    RunString(depth, name);
    RunOn(behind, [COLON], Reader(depth, Coloned), [SPACE], start);
    assert [COLON] + [SPACE] == [COLON, SPACE];
    RunOn(start, Stringify(name), behind, [COLON, SPACE], start);
    RunOn(start, Stringify(name) + [COLON, SPACE], start, value, behind);
  }

  lemma {:induction false} RunEntries(entries: seq<Entry>, depth: nat)
    requires entries != [] && depth > 0 && forall i :: 0 <= i < |entries| ==> IsPlainNode(entries[i].node)
    ensures Run(Reader(depth, Indented(2 * depth, false)), RenderEntries(entries, Spaces(2 * depth))) ==
            Some(Reader(depth, Plain))
    decreases entries, 0
  {
    hide Run, Step, IsPlainNode, Render, Stringify;
    var inner := Spaces(2 * depth);
    var value := Render(entries[0].node, inner);
    RunRender(entries[0].node, depth);
    RunMember(entries[0].name, value, depth);
    var member := Stringify(entries[0].name) + [COLON, SPACE] + value;
    RunLine(depth, member);
    assert inner + Stringify(entries[0].name) + [COLON, SPACE] + value == inner + member;
    if |entries| == 1 {
      assert inner + member + [] == inner + member;
    } else {
      RunEntries(entries[1..], depth);
      RunComma(depth, inner + member, RenderEntries(entries[1..], inner));
    }
  }

  // --- parsed and normalized nodes are plain ---

  lemma DigitsArePlain(t: Text)
    requires IsDigits(t)
    ensures forall c :: c in t ==> IsPlainChar(c)
  {
  }

  lemma ShowIsPlain(d: Double)
    ensures forall c :: c in Show(d) ==> IsPlainChar(c)
  {
    match d
    case Finite(n) =>
      hide IsPlainChar, ShowNat;
      SignsArePlain();
      ShowNatIsPlain(if n < 0 then -n else n);
    case Infinite(neg) =>
      hide IsPlainChar;
      InfinityIsPlain();
      SignsArePlain();
  }

  lemma InfinityIsPlain()
    ensures forall c :: c in INFINITY ==> IsPlainChar(c)
  {
  }

  lemma SignsArePlain()
    ensures IsPlainChar(MINUS) && IsPlainChar(PLUS) && IsPlainChar(POINT) && IsPlainChar(SMALL_E) && IsPlainChar(ZERO)
  {
  }

  lemma ShowNatIsPlain(n: nat)
    ensures forall c :: c in ShowNat(n) ==> IsPlainChar(c)
  {
    SignsArePlain();
    hide IsPlainChar, IsDigits, Decimal, StripTrailing, Shortest, Pow10;
    DigitsArePlain(Decimal(n));
    if n > TWO_53 {
      var digits := Decimal(Shortest(n, |Decimal(n)|));
      DigitsArePlain(digits);
      DigitsArePlain(Decimal(|digits| - 1));
      assert forall c :: c in StripTrailing(digits) ==> c in digits;
    }
  }

  lemma NumberIsPlain(l: Literal)
    requires IsLoose(l)
    ensures IsPlainText(NormalText(l))
  {
    hide StripLeading, StripTrailing, Show, Round, ExpValue;
    var digits := StripLeading(l.whole + l.frac);
    if digits != [] {
      var trimmed := StripTrailing(digits);
      var exp := Plus(Plus(Round(ExpValue(l.exp)), -|l.frac|), |digits| - |trimmed|);
      hide Plus;
      assert IsDigits(trimmed);
      LaidOutIsPlain(trimmed, exp);
    }
  }

  lemma LaidOutIsPlain(digits: Text, exp: Double)
    requires digits != [] && IsDigits(digits)
    ensures IsPlainText(LaidOut(digits, exp))
  {
    hide Zeros, Round, Plus, Show;
    DigitsArePlain(digits);
    ShowIsPlain(Plus(Plus(exp, |digits|), -1));
    assert forall n: nat :: IsDigits(Zeros(n));
  }

  lemma {:induction false} TreeIsPlain(t: Tree)
    requires IsTree(t)
    ensures IsPlainNode(NodeOf(t))
    decreases t, 1
  {
    hide NormalizeNumber, LiteralText, NormalText, TokenUnits, SetAll, IsLiteral, IsToken;
    match t
    case Word(w) =>
    case Number(l) =>
      LiteralIsLoose(l);
      NormalizesLiteral(l);
      NumberIsPlain(l);
    case StringOf(token) =>
    case Array(blank, items) => ItemsArePlain(items);
    case Object(blank, members) =>
      MembersArePlain(members);
      SetAllPlain([], EntriesOf(members));
  }

  lemma LiteralIsLoose(l: Literal)
    requires IsLiteral(l)
    ensures IsLoose(l)
  {
  }

  lemma {:induction false} ItemsArePlain(items: seq<Padded>)
    requires AreItems(items)
    ensures forall i :: 0 <= i < |items| ==> IsPlainNode(NodesOf(items)[i])
    decreases items, 0
  {
    hide IsTree, NodeOf, IsPlainNode;
    if items != [] {
      TreeIsPlain(items[0].value);
      ItemsArePlain(items[1..]);
    }
  }

  lemma {:induction false} MembersArePlain(members: seq<Member>)
    requires AreMembers(members)
    ensures forall i :: 0 <= i < |members| ==> IsPlainNode(EntriesOf(members)[i].node)
    decreases members, 0
  {
    hide IsTree, NodeOf, IsPlainNode, TokenUnits, IsToken;
    if members != [] {
      TreeIsPlain(members[0].value.value);
      MembersArePlain(members[1..]);
    }
  }

  lemma {:induction false} SetEntryPlain(entries: seq<Entry>, name: Text, node: Node)
    requires IsPlainNode(node) && forall i :: 0 <= i < |entries| ==> IsPlainNode(entries[i].node)
    ensures forall i :: 0 <= i < |SetEntry(entries, name, node)| ==> IsPlainNode(SetEntry(entries, name, node)[i].node)
  {
    hide IsPlainNode;
    if entries != [] && entries[0].name != name {
      SetEntryPlain(entries[1..], name, node);
    }
  }

  lemma {:induction false} SetAllPlain(entries: seq<Entry>, more: seq<Entry>)
    requires forall i :: 0 <= i < |entries| ==> IsPlainNode(entries[i].node)
    requires forall i :: 0 <= i < |more| ==> IsPlainNode(more[i].node)
    ensures forall i :: 0 <= i < |SetAll(entries, more)| ==> IsPlainNode(SetAll(entries, more)[i].node)
    decreases |more|
  {
    hide IsPlainNode, SetEntry;
    if more != [] {
      SetEntryPlain(entries, more[0].name, more[0].node);
      SetAllPlain(SetEntry(entries, more[0].name, more[0].node), more[1..]);
    }
  }

  lemma {:induction false} NormalizedIsPlain(node: Node, ignoreOrder: bool)
    requires IsPlainNode(node)
    ensures IsPlainNode(Normalize(node, ignoreOrder).node)
    decreases node
  {
    hide IsPlainText, JoinKeys, JoinParts, Stringify, Sort;
    match node
    case Arr(items) =>
      var all := NormalizeItems(items, ignoreOrder);
      forall i | 0 <= i < |items| ensures IsPlainNode(all[i].node) {
        NormalizedIsPlain(items[i], ignoreOrder);
      }
      SameElements(all, if ignoreOrder then Sort(all, ByKey()) else all);
      hide IsPlainNode;
      SortedArePlain(all, if ignoreOrder then Sort(all, ByKey()) else all);
    case Obj(entries) =>
      var all := NormalizeEntries(entries, ignoreOrder);
      forall i | 0 <= i < |entries| ensures IsPlainNode(all[i].child.node) {
        NormalizedIsPlain(entries[i].node, ignoreOrder);
      }
      hide IsPlainNode;
      SortedMembersArePlain(all, Sort(all, ByName()));
    case _ =>
  }

  lemma SortedArePlain(all: seq<Normalized>, sorted: seq<Normalized>)
    requires multiset(sorted) == multiset(all) && forall i :: 0 <= i < |all| ==> IsPlainNode(all[i].node)
    ensures IsPlainNode(Arr(Nodes(sorted)))
  {
    SameElements(all, sorted);
    forall i | 0 <= i < |sorted| ensures IsPlainNode(Nodes(sorted)[i]) {
      var j :| 0 <= j < |all| && all[j] == sorted[i];
    }
  }

  lemma SortedMembersArePlain(all: seq<Named>, sorted: seq<Named>)
    requires multiset(sorted) == multiset(all) && forall i :: 0 <= i < |all| ==> IsPlainNode(all[i].child.node)
    ensures IsPlainNode(Obj(Entries(sorted)))
  {
    SameElements(all, sorted);
    forall i | 0 <= i < |sorted| ensures IsPlainNode(Entries(sorted)[i].node) {
      var j :| 0 <= j < |all| && all[j] == sorted[i];
    }
  }

  /** What is rendered of a parsed and normalized text is laid out. */
  lemma RenderedIsLaidOut(t: Text, ignoreOrder: bool)
    requires Parse(t).Some?
    ensures IsLaidOut(Render(Normalize(Parse(t).value, ignoreOrder).node, []))
  {
    hide Parse, Normalize, Render, IsPlainNode;
    var node := Parse(t).value;
    ParsedIsPlain(t, node);
    NormalizedIsPlain(node, ignoreOrder);
    RunRender(Normalize(node, ignoreOrder).node, 0);
    assert Spaces(0) == [];
  }

  lemma ParsedIsPlain(t: Text, node: Node)
    requires Parse(t) == Some(node)
    ensures IsPlainNode(node)
  {
    hide Parse, NodeOf, IsTree, IsPlainNode, TreeText, Nesting;
    ParseIsExact(t, node);
    var before, tree, after :| Writes(t, before, tree, after) && NodeOf(tree) == node;
    TreeIsPlain(tree);
  }

  // --- names and items in order ---

  /** At every depth no name comes sooner than one before it, nor, if their order is
      ignored, the text of an item. */
  ghost predicate IsInOrder(node: Node, ignoreOrder: bool) {
    match node
    case Arr(items) =>
      && (forall i :: 0 <= i < |items| ==> IsInOrder(items[i], ignoreOrder))
      && (ignoreOrder ==> forall i, j :: 0 <= i < j < |items| ==> !Sooner(Compact(items[j]), Compact(items[i])))
    case Obj(entries) =>
      && (forall i :: 0 <= i < |entries| ==> IsInOrder(entries[i].node, ignoreOrder))
      && (forall i, j :: 0 <= i < j < |entries| ==> !Sooner(entries[j].name, entries[i].name))
    case _ => true
  }

  lemma {:induction false} NormalIsInOrder(node: Node, ignoreOrder: bool)
    requires IsNormal(node, ignoreOrder)
    ensures IsInOrder(node, ignoreOrder)
    decreases node
  {
    hide Compact, Precedes, Sooner;
    match node
    case Arr(items) =>
      forall i | 0 <= i < |items| ensures IsInOrder(items[i], ignoreOrder) {
        NormalIsInOrder(items[i], ignoreOrder);
      }
      forall i, j | 0 <= i < j < |items| && ignoreOrder ensures !Sooner(Compact(items[j]), Compact(items[i])) {
        PrecedesIs(Compact(items[j]), Compact(items[i]));
      }
    case Obj(entries) =>
      forall i | 0 <= i < |entries| ensures IsInOrder(entries[i].node, ignoreOrder) {
        NormalIsInOrder(entries[i].node, ignoreOrder);
      }
      forall i, j | 0 <= i < j < |entries| ensures !Sooner(entries[j].name, entries[i].name) {
        PrecedesIs(entries[j].name, entries[i].name);
      }
    case _ =>
  }

  lemma NormalizedIsInOrder(node: Node, ignoreOrder: bool)
    ensures IsInOrder(Normalize(node, ignoreOrder).node, ignoreOrder)
  {
    hide *;
    NormalizedIsNormal(node, ignoreOrder);
    NormalIsInOrder(Normalize(node, ignoreOrder).node, ignoreOrder);
  }
}
