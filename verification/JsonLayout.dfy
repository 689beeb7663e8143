/** What is printed is read back: the printed texts of a node are texts of the
    grammar that mean it. */
module JsonLayout {
  import opened Options
  import opened JsonText
  import opened JsonNumber
  import opened NumberText
  import opened JsonScanner
  import opened JsonString
  import opened JsonSyntax
  import opened JsonGrammar
  import opened JsonNormal

  // --- the trees of the printed texts ---

  /** A line break and the indentation, nothing in compact texts. */
  function Break(pretty: bool, indent: Text): Text {
    if pretty then [NEWLINE] + indent else []
  }

  function Inner(pretty: bool, indent: Text): Text {
    if pretty then indent + [SPACE, SPACE] else []
  }

  function Laid(node: Node, pretty: bool, indent: Text): Tree {
    match node
    case Lit(w) => Word(w)
    case Num(t) => Number(NumberOf(t))
    case Str(v) => StringOf(TokenOf(v))
    case Arr(items) => Array([], LaidItems(items, pretty, Inner(pretty, indent), Break(pretty, indent)))
    case Obj(entries) => Object([], LaidEntries(entries, pretty, Inner(pretty, indent), Break(pretty, indent)))
  }

  function LaidItems(items: seq<Node>, pretty: bool, inner: Text, end: Text): (r: seq<Padded>)
    ensures |r| == |items|
  {
    if items == [] then []
    else [Padded(Break(pretty, inner), Laid(items[0], pretty, inner), if |items| == 1 then end else [])]
         + LaidItems(items[1..], pretty, inner, end)
  }

  function LaidMember(name: Text, value: Tree, pretty: bool, inner: Text, after: Text): Member {
    Member(Break(pretty, inner), TokenOf(name), [], Padded(if pretty then [SPACE] else [], value, after))
  }

  function LaidEntries(entries: seq<Entry>, pretty: bool, inner: Text, end: Text): (r: seq<Member>)
    ensures |r| == |entries|
  {
    if entries == [] then []
    else [LaidMember(entries[0].name, Laid(entries[0].node, pretty, inner), pretty, inner, if |entries| == 1 then end
      else [])]
         + LaidEntries(entries[1..], pretty, inner, end)
  }

  // --- they mean the node ---

  /** The tree is one of the grammar, means the node and is nested as deep. */
  ghost predicate Means(tree: Tree, node: Node, depth: nat) {
    IsTree(tree) && NodeOf(tree) == node && Nesting(tree) <= depth
  }

  ghost predicate MeanItems(trees: seq<Padded>, items: seq<Node>, depth: nat) {
    AreItems(trees) && NodesOf(trees) == items && ItemsNesting(trees) <= depth
  }

  ghost predicate MeanEntries(trees: seq<Member>, entries: seq<Entry>, depth: nat) {
    AreMembers(trees) && EntriesOf(trees) == entries && MembersNesting(trees) <= depth
  }

  ghost predicate AreProperItems(items: seq<Node>, depth: nat) {
    items != [] ==> depth > 0 && forall i :: 0 <= i < |items| ==> IsProper(items[i], depth - 1)
  }

  ghost predicate AreProperEntries(entries: seq<Entry>, depth: nat) {
    entries != [] ==> depth > 0 && forall i :: 0 <= i < |entries| ==> IsProper(entries[i].node, depth - 1)
  }

  lemma {:induction false} LaidMeans(node: Node, pretty: bool, indent: Text, depth: nat)
    requires IsProper(node, depth) && IsBlank(indent)
    ensures Means(Laid(node, pretty, indent), node, depth)
    decreases node, 1
  {
    hide NumberOf, NormalizeNumber, LiteralText, NormalForm, IsLiteral, LaidItems, LaidEntries, AreItems, AreMembers,
      NodesOf, EntriesOf,
      ItemsNesting, MembersNesting, SetAll, TokenOf, IsToken, TokenUnits;
    InnerIsBlank(pretty, indent);
    match node
    case Lit(w) =>
    case Num(t) =>
      NumberMeans(t);
    case Str(v) => StringifyIsExact(v);
    case Arr(items) => LaidItemsMean(items, pretty, Inner(pretty, indent), Break(pretty, indent), depth);
    case Obj(entries) =>
      LaidEntriesMean(entries, pretty, Inner(pretty, indent), Break(pretty, indent), depth);
      SetAllDistinct([], entries);
  }

  lemma InnerIsBlank(pretty: bool, indent: Text)
    requires IsBlank(indent)
    ensures IsBlank(Inner(pretty, indent)) && IsBlank(Break(pretty, indent)) && IsBlank([]) && IsBlank([SPACE])
  {
  }

  lemma NumberMeans(t: Text)
    requires IsNumberText(t)
    ensures IsLiteral(NumberOf(t)) && NormalizeNumber(LiteralText(NumberOf(t))) == t
  {
    hide NormalizeNumber, NumberOf, NormalForm, NormalText, LiteralText;
    NormalizesLiteral(NumberOf(t));
  }

  lemma {:induction false} LaidItemsMean(items: seq<Node>, pretty: bool, inner: Text, end: Text, depth: nat)
    requires AreProperItems(items, depth) && IsBlank(inner) && IsBlank(end)
    ensures MeanItems(LaidItems(items, pretty, inner, end), items, depth)
    decreases items, 0
  {
    hide Laid, IsTree, NodeOf, Nesting, IsProper, Break, AreItems, NodesOf, ItemsNesting;
    InnerIsBlank(pretty, inner);
    if items == [] {
      NoItems();
    } else {
      LaidMeans(items[0], pretty, inner, depth - 1);
      LaidItemsMean(items[1..], pretty, inner, end, depth);
      var p := Padded(Break(pretty, inner), Laid(items[0], pretty, inner), if |items| == 1 then end else []);
      var more := LaidItems(items[1..], pretty, inner, end);
      MeansIs(p.value, items[0], depth - 1);
      if more == [] {
        LastItem(p);
        assert [p] + more == [p];
      } else {
        MoreItems(p, more);
      }
    }
  }

  lemma NoItems()
    ensures AreItems([]) && NodesOf([]) == [] && ItemsNesting([]) == 0
  {
  }

  lemma MeansIs(tree: Tree, node: Node, depth: nat)
    requires Means(tree, node, depth)
    ensures IsTree(tree) && NodeOf(tree) == node && Nesting(tree) <= depth
  {
    hide IsTree, NodeOf, Nesting;
  }

  lemma {:induction false} LaidEntriesMean(entries: seq<Entry>, pretty: bool, inner: Text, end: Text, depth: nat)
    requires AreProperEntries(entries, depth) && IsBlank(inner) && IsBlank(end)
    ensures MeanEntries(LaidEntries(entries, pretty, inner, end), entries, depth)
    decreases entries, 0
  {
    hide Laid, IsTree, NodeOf, Nesting, IsProper, TokenOf, IsToken, TokenUnits, Break, AreMembers, EntriesOf,
      MembersNesting;
    InnerIsBlank(pretty, inner);
    if entries == [] {
      NoMembers();
    } else {
      LaidMeans(entries[0].node, pretty, inner, depth - 1);
      LaidEntriesMean(entries[1..], pretty, inner, end, depth);
      StringifyIsExact(entries[0].name);
      var m := LaidMember(entries[0].name, Laid(entries[0].node, pretty, inner), pretty, inner, if |entries| == 1
        then end else []);
      var more := LaidEntries(entries[1..], pretty, inner, end);
      MeansIs(m.value.value, entries[0].node, depth - 1);
      if more == [] {
        LastMember(m);
        assert [m] + more == [m];
      } else {
        MoreMembers(m, more);
      }
    }
  }

  lemma NoMembers()
    ensures AreMembers([]) && EntriesOf([]) == [] && MembersNesting([]) == 0
  {
  }

  /** Setting distinct names one after the other keeps them as they are. */
  lemma {:induction false} SetAllDistinct(entries: seq<Entry>, more: seq<Entry>)
    requires AreDistinct(entries + more)
    ensures SetAll(entries, more) == entries + more
    decreases |more|
  {
    if more == [] {
      assert entries + more == entries;
    } else {
      var e := more[0];
      assert forall i :: 0 <= i < |entries| ==> (entries + more)[i] == entries[i] && (entries + more)[|entries|] == e;
      SetEntryNew(entries, e.name, e.node);
      assert e == Entry(e.name, e.node);
      assert entries + [e] + more[1..] == entries + more;
      SetAllDistinct(entries + [e], more[1..]);
    }
  }

  lemma {:induction false} SetEntryNew(entries: seq<Entry>, name: Text, node: Node)
    requires forall i :: 0 <= i < |entries| ==> entries[i].name != name
    ensures SetEntry(entries, name, node) == entries + [Entry(name, node)]
  {
    if entries != [] {
      SetEntryNew(entries[1..], name, node);
      assert entries == [entries[0]] + entries[1..];
    }
  }

  // --- they write the printed texts ---

  lemma {:induction false} CompactIsLaid(node: Node, depth: nat)
    requires IsProper(node, depth)
    ensures TreeText(Laid(node, false, [])) == Compact(node)
    decreases node, 1
  {
    hide NumberOf, LiteralText, NormalForm, TokenText, TokenOf, ItemsText, MembersText, LaidItems, LaidEntries,
      CompactItems, CompactEntries;
    match node
    case Arr(items) =>
      CompactItemsAreLaid(items, depth);
      if items == [] {
        EmptyTexts();
      }
    case Obj(entries) =>
      CompactEntriesAreLaid(entries, depth);
      if entries == [] {
        EmptyTexts();
      }
    case _ =>
  }

  lemma EmptyTexts()
    ensures CompactItems([]) == [] && CompactEntries([]) == []
    ensures forall pretty, inner, end ::
        LaidItems([], pretty, inner, end) == [] && LaidEntries([], pretty, inner, end) == []
  {
  }

  lemma {:induction false} CompactItemsAreLaid(items: seq<Node>, depth: nat)
    requires AreProperItems(items, depth)
    ensures items != [] ==> ItemsText(LaidItems(items, false, [], [])) == CompactItems(items) + [CLOSE_BRACKET]
    decreases items, 0
  {
    hide Laid, Compact, TreeText, IsProper, IsTree;
    if items != [] {
      CompactIsLaid(items[0], depth - 1);
      var p := Padded([], Laid(items[0], false, []), []);
      var more := LaidItems(items[1..], false, [], []);
      assert LaidItems(items, false, [], []) == [p] + more;
      assert [] + TreeText(p.value) + [] == Compact(items[0]);
      if more == [] {
        LastItem(p);
        assert [p] + more == [p];
        assert CompactItems(items) == Compact(items[0]);
      } else {
        CompactItemsAreLaid(items[1..], depth);
        MoreItems(p, more);
        assert Compact(items[0]) + ([COMMA] + (CompactItems(items[1..]) + [CLOSE_BRACKET]))
            == Compact(items[0]) + ([COMMA] + CompactItems(items[1..])) + [CLOSE_BRACKET];
      }
    }
  }

  lemma {:induction false} CompactEntriesAreLaid(entries: seq<Entry>, depth: nat)
    requires AreProperEntries(entries, depth)
    ensures entries != [] ==>
        MembersText(LaidEntries(entries, false, [], [])) == CompactEntries(entries) + [CLOSE_BRACE]
    decreases entries, 0
  {
    hide Laid, Compact, TreeText, IsProper, IsTree, TokenOf, TokenText, IsToken;
    if entries != [] {
      CompactIsLaid(entries[0].node, depth - 1);
      var m := LaidMember(entries[0].name, Laid(entries[0].node, false, []), false, [], []);
      var more := LaidEntries(entries[1..], false, [], []);
      var name, value := Stringify(entries[0].name), Compact(entries[0].node);
      assert LaidEntries(entries, false, [], []) == [m] + more;
      MemberIs(m);
      assert [] + name + [] + [COLON] + ([] + value + []) == name + [COLON] + value;
      if more == [] {
        LastMember(m);
        assert [m] + more == [m];
        assert CompactEntries(entries) == name + [COLON] + value;
      } else {
        CompactEntriesAreLaid(entries[1..], depth);
        MoreMembers(m, more);
        assert name + [COLON] + value + ([COMMA] + (CompactEntries(entries[1..]) + [CLOSE_BRACE]))
            == name + [COLON] + value + ([COMMA] + CompactEntries(entries[1..])) + [CLOSE_BRACE];
      }
    }
  }

  lemma {:induction false} RenderIsLaid(node: Node, indent: Text, depth: nat)
    requires IsProper(node, depth)
    ensures TreeText(Laid(node, true, indent)) == Render(node, indent)
    decreases node, 1
  {
    hide NumberOf, LiteralText, NormalForm, TokenText, TokenOf, ItemsText, MembersText, LaidItems, LaidEntries,
      RenderItems, RenderEntries;
    var inner, end := indent + [SPACE, SPACE], [NEWLINE] + indent;
    match node
    case Arr(items) =>
      if items == [] {
        EmptyTexts();
        assert [OPEN_BRACKET] + ([] + [CLOSE_BRACKET]) == [OPEN_BRACKET, CLOSE_BRACKET];
      } else {
        RenderItemsAreLaid(items, inner, end, depth);
        assert [OPEN_BRACKET] + ([NEWLINE] + (RenderItems(items, inner) + (end + [CLOSE_BRACKET])))
            == [OPEN_BRACKET, NEWLINE] + RenderItems(items, inner) + (end + [CLOSE_BRACKET]);
      }
    case Obj(entries) =>
      if entries == [] {
        EmptyTexts();
        assert [OPEN_BRACE] + ([] + [CLOSE_BRACE]) == [OPEN_BRACE, CLOSE_BRACE];
      } else {
        RenderEntriesAreLaid(entries, inner, end, depth);
        assert [OPEN_BRACE] + ([NEWLINE] + (RenderEntries(entries, inner) + (end + [CLOSE_BRACE])))
            == [OPEN_BRACE, NEWLINE] + RenderEntries(entries, inner) + (end + [CLOSE_BRACE]);
      }
    case _ =>
  }

  lemma {:induction false} RenderItemsAreLaid(items: seq<Node>, inner: Text, end: Text, depth: nat)
    requires AreProperItems(items, depth)
    ensures items != [] ==>
        ItemsText(LaidItems(items, true, inner, end)) ==
          [NEWLINE] + (RenderItems(items, inner) + (end + [CLOSE_BRACKET]))
    decreases items, 0
  {
    hide Laid, Render, TreeText, IsProper, IsTree;
    if items != [] {
      RenderIsLaid(items[0], inner, depth - 1);
      var text := Render(items[0], inner);
      var p := Padded([NEWLINE] + inner, Laid(items[0], true, inner), if |items| == 1 then end else []);
      var more := LaidItems(items[1..], true, inner, end);
      assert LaidItems(items, true, inner, end) == [p] + more;
      if more == [] {
        LastItem(p);
        assert [p] + more == [p];
        assert RenderItems(items, inner) == inner + text;
        LastLine(inner + text, end, [CLOSE_BRACKET]);
        assert [NEWLINE] + inner + text == [NEWLINE] + (inner + text);
      } else {
        RenderItemsAreLaid(items[1..], inner, end, depth);
        MoreItems(p, more);
        var rest := RenderItems(items[1..], inner);
        assert RenderItems(items, inner) == inner + text + ([COMMA, NEWLINE] + rest);
        MoreLines(inner + text, rest, end + [CLOSE_BRACKET]);
        assert [NEWLINE] + inner + text + [] == [NEWLINE] + (inner + text);
      }
    }
  }

  lemma {:induction false} RenderEntriesAreLaid(entries: seq<Entry>, inner: Text, end: Text, depth: nat)
    requires AreProperEntries(entries, depth)
    ensures entries != [] ==>
        MembersText(LaidEntries(entries, true, inner, end)) ==
          [NEWLINE] + (RenderEntries(entries, inner) + (end + [CLOSE_BRACE]))
    decreases entries, 0
  {
    hide Laid, Render, TreeText, IsProper, IsTree, TokenOf, TokenText, IsToken;
    if entries != [] {
      RenderIsLaid(entries[0].node, inner, depth - 1);
      var name, text := Stringify(entries[0].name), Render(entries[0].node, inner);
      var m := LaidMember(entries[0].name, Laid(entries[0].node, true, inner), true, inner, if |entries| == 1 then end
        else []);
      var more := LaidEntries(entries[1..], true, inner, end);
      assert LaidEntries(entries, true, inner, end) == [m] + more;
      MemberIs(m);
      var line := inner + name + [COLON, SPACE] + text;
      NamedLine(inner, name, text, m.value.after);
      if more == [] {
        LastMember(m);
        assert [m] + more == [m];
        assert RenderEntries(entries, inner) == line;
        LastLine(line, end, [CLOSE_BRACE]);
      } else {
        RenderEntriesAreLaid(entries[1..], inner, end, depth);
        MoreMembers(m, more);
        var rest := RenderEntries(entries[1..], inner);
        assert RenderEntries(entries, inner) == line + ([COMMA, NEWLINE] + rest);
        MoreLines(line, rest, end + [CLOSE_BRACE]);
        assert [NEWLINE] + line + [] == [NEWLINE] + line;
      }
    }
  }

  lemma LastLine(line: Text, end: Text, close: Text)
    ensures [NEWLINE] + line + end + close == [NEWLINE] + (line + (end + close))
  {
  }

  lemma MoreLines(line: Text, rest: Text, close: Text)
    ensures [NEWLINE] + line + ([COMMA] + ([NEWLINE] + (rest + close))) ==
        [NEWLINE] + (line + ([COMMA, NEWLINE] + rest) + close)
  {
    assert [COMMA] + ([NEWLINE] + (rest + close)) == [COMMA, NEWLINE] + rest + close;
  }

  lemma NamedLine(inner: Text, name: Text, text: Text, after: Text)
    ensures [NEWLINE] + inner + name + [] + [COLON] + ([SPACE] + text + after) ==
        [NEWLINE] + (inner + name + [COLON, SPACE] + text) + after
  {
    assert [COLON] + ([SPACE] + text + after) == [COLON, SPACE] + text + after;
  }

  // --- round trips ---

  /** Both printed texts of a proper node are parsed back to it. */
  lemma PrintedIsParsed(node: Node)
    requires IsProper(node, MAX_NESTING)
    ensures Parse(Render(node, [])) == Some(node) && Parse(Compact(node)) == Some(node)
  {
    hide *;
    NoBlank();
    LaidMeans(node, true, [], MAX_NESTING);
    RenderIsLaid(node, [], MAX_NESTING);
    LaidIsParsed(Laid(node, true, []), node);
    LaidMeans(node, false, [], MAX_NESTING);
    CompactIsLaid(node, MAX_NESTING);
    LaidIsParsed(Laid(node, false, []), node);
  }

  lemma NoBlank()
    ensures IsBlank([])
  {
  }

  lemma LaidIsParsed(tree: Tree, node: Node)
    requires Means(tree, node, MAX_NESTING)
    ensures Parse(TreeText(tree)) == Some(node)
  {
    hide TreeText, IsTree, NodeOf, Nesting, Parse;
    assert [] + TreeText(tree) + [] == TreeText(tree);
    ParsesTree([], tree, []);
  }

  /** So different nodes print differently. */
  lemma PrintIsInjective(a: Node, b: Node)
    requires IsProper(a, MAX_NESTING) && IsProper(b, MAX_NESTING)
    ensures Render(a, []) == Render(b, []) ==> a == b
    ensures Compact(a) == Compact(b) ==> a == b
  {
    hide Render, Compact, Parse, IsProper;
    PrintedIsParsed(a);
    PrintedIsParsed(b);
  }
}
