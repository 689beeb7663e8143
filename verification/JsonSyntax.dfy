/** The grammar of JSON texts (RFC 8259, sections 2 to 5) as syntax trees, and the
    nodes they mean. */
module JsonSyntax {
  import opened JsonText
  import opened JsonNumber
  import opened JsonScanner
  import opened JsonString

  /** A parsed value; `Num` holds the normal form of its literal. */
  datatype Node =
    | Lit(word: Text)
    | Num(text: Text)
    | Str(value: Text)
    | Arr(items: seq<Node>)
    | Obj(entries: seq<Entry>)

  datatype Entry = Entry(name: Text, node: Node)

  /** Everything a text writes, white space included. `blank` is the white space of
      an empty array or object. */
  datatype Tree =
    | Word(word: Text)
    | Number(literal: Literal)
    | StringOf(token: Token)
    | Array(blank: Text, items: seq<Padded>)
    | Object(blank: Text, members: seq<Member>)

  datatype Padded = Padded(before: Text, value: Tree, after: Text)

  /** before "name" mid : value */
  datatype Member = Member(before: Text, name: Token, mid: Text, value: Padded)

  predicate IsTree(t: Tree) {
    match t
    case Word(w) => w == NULL || w == TRUE || w == FALSE
    case Number(l) => IsLiteral(l)
    case StringOf(token) => IsToken(token)
    case Array(blank, items) => IsBlank(blank) && AreItems(items)
    case Object(blank, members) => IsBlank(blank) && AreMembers(members)
  }

  predicate AreItems(items: seq<Padded>) {
    items != [] ==>
      IsBlank(items[0].before) && IsTree(items[0].value) && IsBlank(items[0].after) && AreItems(items[1..])
  }

  predicate AreMembers(members: seq<Member>) {
    members != [] ==>
      && IsBlank(members[0].before) && IsToken(members[0].name) && IsBlank(members[0].mid)
      && IsBlank(members[0].value.before) && IsTree(members[0].value.value) && IsBlank(members[0].value.after)
      && AreMembers(members[1..])
  }

  // --- the text of a tree ---

  function TreeText(t: Tree): Text {
    match t
    case Word(w) => w
    case Number(l) => LiteralText(l)
    case StringOf(token) => TokenText(token)
    case Array(blank, items) => [OPEN_BRACKET] + if items == [] then blank + [CLOSE_BRACKET] else ItemsText(items)
    case Object(blank, members) => [OPEN_BRACE] + if members == [] then blank + [CLOSE_BRACE] else MembersText(members)
  }

  function PaddedText(p: Padded): Text {
    p.before + TreeText(p.value) + p.after
  }

  /** The items with their separators and the closing bracket. */
  function ItemsText(items: seq<Padded>): Text {
    if items == [] then []
    else PaddedText(items[0]) + if |items| == 1 then [CLOSE_BRACKET] else [COMMA] + ItemsText(items[1..])
  }

  function MemberText(m: Member): Text {
    m.before + TokenText(m.name) + m.mid + [COLON] + PaddedText(m.value)
  }

  function MembersText(members: seq<Member>): Text {
    if members == [] then []
    else MemberText(members[0]) + if |members| == 1 then [CLOSE_BRACE] else [COMMA] + MembersText(members[1..])
  }

  // --- the node of a tree ---

  /** Sets the value of a name; a new name goes last (Map.set). */
  function SetEntry(entries: seq<Entry>, name: Text, node: Node): seq<Entry> {
    if entries == [] then [Entry(name, node)]
    else if entries[0].name == name then [Entry(name, node)] + entries[1..]
    else [entries[0]] + SetEntry(entries[1..], name, node)
  }

  /** Later duplicates win. */
  function SetAll(entries: seq<Entry>, more: seq<Entry>): seq<Entry>
    decreases |more|
  {
    if more == [] then entries else SetAll(SetEntry(entries, more[0].name, more[0].node), more[1..])
  }

  function NodeOf(t: Tree): Node
    requires IsTree(t)
  {
    match t
    case Word(w) => Lit(w)
    case Number(l) => Num(NormalizeNumber(LiteralText(l)))
    case StringOf(token) => Str(TokenUnits(token))
    case Array(blank, items) => Arr(NodesOf(items))
    case Object(blank, members) => Obj(SetAll([], EntriesOf(members)))
  }

  function NodesOf(items: seq<Padded>): (nodes: seq<Node>)
    requires AreItems(items)
    ensures |nodes| == |items|
  {
    if items == [] then [] else [NodeOf(items[0].value)] + NodesOf(items[1..])
  }

  function EntriesOf(members: seq<Member>): (entries: seq<Entry>)
    requires AreMembers(members)
    ensures |entries| == |members|
  {
    if members == [] then []
    else [Entry(TokenUnits(members[0].name), NodeOf(members[0].value.value))] + EntriesOf(members[1..])
  }

  // --- nesting ---

  function Max(a: nat, b: nat): nat {
    if a < b then b else a
  }

  /** How deep the values inside a value are nested. */
  function Nesting(t: Tree): nat {
    match t
    case Array(blank, items) => ItemsNesting(items)
    case Object(blank, members) => MembersNesting(members)
    case _ => 0
  }

  function ItemsNesting(items: seq<Padded>): nat {
    if items == [] then 0 else Max(1 + Nesting(items[0].value), ItemsNesting(items[1..]))
  }

  function MembersNesting(members: seq<Member>): nat {
    if members == [] then 0 else Max(1 + Nesting(members[0].value.value), MembersNesting(members[1..]))
  }
}
