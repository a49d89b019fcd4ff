/**
 * The document tree (`StructTextParserNode`, `StructTextParserNodeRoot`) and
 * its serializer.  A node's value is absent (a bare key), text, or a block
 * of child nodes; the root is the list of top-level nodes.
 */
module Tree {
  import opened Wrappers
  import opened Strings

  datatype Value = Empty | Text(s: string) | Block(children: seq<Node>)

  datatype Node = Node(key: Option<string>, value: Value)

  /**
   * The trees `serialize` can render: the source concatenates the key to the
   * indentation when the value is absent, so a node with neither key nor
   * value makes it fail.
   */
  predicate Renderable(n: Node)
    decreases n
  {
    (n.key.Some? || !n.value.Empty?) && RenderableValue(n.value)
  }

  predicate RenderableValue(v: Value)
    decreases v
  {
    match v
    case Block(cs) => AllRenderable(cs)
    case _ => true
  }

  predicate AllRenderable(cs: seq<Node>)
    decreases cs, 0
  {
    forall i | 0 <= i < |cs| :: Renderable(cs[i])
  }

  /** `_serialize_value`: the value alone; a block brings its braces at `level`. */
  function SerializeValue(v: Value, indent: string, level: nat, eol: string): (r: string)
    requires RenderableValue(v)
    decreases v
  {
    match v
    case Empty => ""
    case Text(s) => s
    case Block(cs) =>
      var indentStr := Repeat(indent, level);
      Join([indentStr + "{"] + SerializeAll(cs, indent, level + 1, eol) + [indentStr + "}"], eol) + eol
  }

  /** `serialize` of each node, at the same level, in order. */
  function SerializeAll(cs: seq<Node>, indent: string, level: nat, eol: string): (r: seq<string>)
    requires AllRenderable(cs)
    ensures |r| == |cs|
    decreases cs, 1
  {
    seq(|cs|, i requires 0 <= i < |cs| => Serialize(cs[i], indent, level, eol))
  }

  /** `serialize`: key and value; an anonymous node renders its value alone. */
  function Serialize(n: Node, indent: string, level: nat, eol: string): (r: string)
    requires Renderable(n)
    decreases n
  {
    var indentStr := Repeat(indent, level);
    var valueStr := SerializeValue(n.value, indent, level, eol);
    if n.key.Some? && !n.value.Empty? then indentStr + n.key.value + " " + valueStr
    else if n.value.Empty? then indentStr + n.key.value
    else valueStr
  }

  /** The root's `serialize`: its children's, joined; no braces, no key. */
  function SerializeRoot(cs: seq<Node>, indent: string, level: nat, eol: string): (r: string)
    requires AllRenderable(cs)
  {
    Join(SerializeAll(cs, indent, level, eol), eol)
  }

  /** A block's text opens with its `{` line and closes with its `}` line and a line end. */
  lemma SerializeBlockBraces(cs: seq<Node>, indent: string, level: nat, eol: string)
    requires AllRenderable(cs)
    ensures var open, close := Repeat(indent, level) + "{", Repeat(indent, level) + "}" + eol;
      var r := SerializeValue(Block(cs), indent, level, eol);
      |open| + |close| <= |r| && r[..|open|] == open && r[|r| - |close|..] == close
  {
    var indentStr := Repeat(indent, level);
    var open, last := indentStr + "{", indentStr + "}";
    var parts := [open] + SerializeAll(cs, indent, level + 1, eol) + [last];
    var j := Join(parts, eol);
    assert SerializeValue(Block(cs), indent, level, eol) == j + eol;
    JoinFirst(parts, eol);
    var rest := parts[1..];
    assert rest[|rest| - 1] == last;
    JoinLast(rest, eol);
    assert j == open + eol + Join(rest, eol);
  }

  /** A keyed node's text starts with its indentation and its key. */
  lemma SerializeKeyFirst(n: Node, indent: string, level: nat, eol: string)
    requires Renderable(n) && n.key.Some?
    ensures var p := Repeat(indent, level) + n.key.value; var r := Serialize(n, indent, level, eol);
      |p| <= |r| && r[..|p|] == p
  {
    var p := Repeat(indent, level) + n.key.value;
    if !n.value.Empty? {
      assert Serialize(n, indent, level, eol) == p + (" " + SerializeValue(n.value, indent, level, eol));
    }
  }

  /**
   * The serializer's output as a list of lines: a block contributes its
   * opening line, its children's lines one level deeper, its closing line
   * and the empty line that its trailing `eol` leaves before the next
   * sibling's separator.
   */
  function Lines(n: Node, indent: string, level: nat): (r: seq<string>)
    requires Renderable(n)
    ensures r != []
    decreases n
  {
    var indentStr := Repeat(indent, level);
    var lead := if n.key.Some? then indentStr + n.key.value + " " else "";
    match n.value
    case Empty => [indentStr + n.key.value]
    case Text(s) => [lead + s]
    case Block(cs) =>
      assert RenderableValue(n.value);
      [lead + indentStr + "{"] + ChildLines(cs, indent, level + 1) + [indentStr + "}", ""]
  }

  function ChildLines(cs: seq<Node>, indent: string, level: nat): (r: seq<string>)
    requires AllRenderable(cs)
    ensures r == [] <==> cs == []
    decreases cs
  {
    if cs == [] then [] else Lines(cs[0], indent, level) + ChildLines(cs[1..], indent, level)
  }

  /** How a block's braces and children are joined, as plain strings. */
  lemma JoinBlock(lead: string, open: string, close: string, middle: seq<string>, kids: seq<string>, eol: string)
    requires Join(middle, eol) == Join(kids, eol) && (middle == [] <==> kids == [])
    ensures lead + (Join([open] + middle + [close], eol) + eol) == Join([lead + open] + kids + [close, ""], eol)
  {
    JoinAppend([close], [""], eol);
    if middle == [] {
      assert [open] + middle + [close] == [open] + [close];
      JoinAppend([open], [close], eol);
      assert [lead + open] + kids + [close, ""] == [lead + open] + [close, ""];
      JoinAppend([lead + open], [close, ""], eol);
    } else {
      assert [open] + middle + [close] == [open] + (middle + [close]);
      JoinAppend([open], middle + [close], eol);
      JoinAppend(middle, [close], eol);
      assert [lead + open] + kids + [close, ""] == [lead + open] + (kids + [close, ""]);
      JoinAppend([lead + open], kids + [close, ""], eol);
      JoinAppend(kids, [close, ""], eol);
    }
  }

  /** A node serializes to its lines joined by `eol`. */
  lemma {:induction false} SerializeLines(n: Node, indent: string, level: nat, eol: string)
    requires Renderable(n)
    ensures Serialize(n, indent, level, eol) == Join(Lines(n, indent, level), eol)
    decreases n
  {
    match n.value
    case Empty =>
    case Text(s) =>
    case Block(cs) =>
      var indentStr := Repeat(indent, level);
      var open := indentStr + "{";
      var close := indentStr + "}";
      var middle := SerializeAll(cs, indent, level + 1, eol);
      var kids := ChildLines(cs, indent, level + 1);
      SerializeAllLines(cs, indent, level + 1, eol);
      var lead := if n.key.Some? then indentStr + n.key.value + " " else "";
      assert lead + indentStr + "{" == lead + open;
      assert Lines(n, indent, level) == [lead + open] + kids + [close, ""];
      assert Serialize(n, indent, level, eol) == lead + (Join([open] + middle + [close], eol) + eol);
      JoinBlock(lead, open, close, middle, kids, eol);
  }

  /** The children's serializations, joined, are their lines joined. */
  lemma {:induction false} SerializeAllLines(cs: seq<Node>, indent: string, level: nat, eol: string)
    requires AllRenderable(cs)
    ensures Join(SerializeAll(cs, indent, level, eol), eol) == Join(ChildLines(cs, indent, level), eol)
    decreases cs
  {
    if cs != [] {
      var all := SerializeAll(cs, indent, level, eol);
      var rest := SerializeAll(cs[1..], indent, level, eol);
      SerializeLines(cs[0], indent, level, eol);
      SerializeAllLines(cs[1..], indent, level, eol);
      assert all == [all[0]] + rest;
      var first := Lines(cs[0], indent, level);
      var later := ChildLines(cs[1..], indent, level);
      if cs[1..] != [] {
        JoinAppend([all[0]], rest, eol);
        JoinAppend(first, later, eol);
      } else {
        assert all == [all[0]];
        assert first + later == first;
      }
    }
  }

  /** `dumps` renders the root as the lines of its children, joined. */
  lemma SerializeRootLines(cs: seq<Node>, indent: string, eol: string)
    requires AllRenderable(cs)
    ensures SerializeRoot(cs, indent, 0, eol) == Join(ChildLines(cs, indent, 0), eol)
  {
    SerializeAllLines(cs, indent, 0, eol);
  }
}
