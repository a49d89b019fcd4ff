/** Concrete inputs, and what `loads` and `dumps` make of them. */
module Examples {
  import opened Wrappers
  import opened Strings
  import opened Tree
  import opened Grammar
  import opened RoundTrip

  /** The lines of a text whose every line ends with '\n'. */
  lemma LinesOf(text: string, lines: seq<string>)
    requires forall i | 0 <= i < |lines| :: NoNewline(lines[i])
    requires text == Join(lines + [""], "\n")
    ensures SplitLines(text) == lines
  {
    var ls := lines + [""];
    forall i | 0 <= i < |ls| ensures NoNewline(ls[i]) {
      if i < |lines| {
        assert ls[i] == lines[i];
      }
    }
    SplitLinesJoin(ls);
    assert ls[|ls| - 1] == [];
    assert ls[..|ls| - 1] == lines;
  }

  /** A single line and its line end. */
  lemma OneLine(line: string)
    requires NoNewline(line)
    ensures SplitLines(line + "\n") == [line]
  {
    assert Join([line, ""], "\n") == line + "\n";
    LinesOf(line + "\n", [line]);
  }

  /** The one line of a text reads as that line does. */
  lemma ReadOneLine(line: string)
    requires NoNewline(line)
    ensures var ks := ReadAll(SplitLines(line + "\n")); |SplitLines(line + "\n")| == 1 && |ks| == 1 && ks[0] == Read(line)
  {
    OneLine(line);
  }

  /** Feeding a single line from the empty root. */
  lemma FeedFirst(ks: seq<LineKind>)
    requires |ks| == 1
    ensures Feed([[]], ks, 0) == Advance(Ok([[]]), ks[0], 1)
  {
    assert ks[..0] == [];
  }

  /** `loads` once the lines are fed. */
  lemma LoadsFed(text: string, r: Result<Frames, ParsingError>)
    requires Feed([[]], ReadAll(SplitLines(text)), 0) == r && |SplitLines(text)| == 1
    ensures Loads(text) == match r
      case Err(e) => Err(e)
      case Ok(f) => if |f| == 1 then Ok(f[0]) else Err(ParsingError(UnexpectedEof, 1))
  {
  }

  /** `loads` of a single line gives what reading that line from the empty root does. */
  lemma LoadsOne(line: string, k: LineKind)
    requires NoNewline(line) && Read(line) == k
    ensures Loads(line + "\n") == match Advance(Ok([[]]), k, 1)
      case Err(e) => Err(e)
      case Ok(f) => if |f| == 1 then Ok(f[0]) else Err(ParsingError(UnexpectedEof, 1))
  {
    ReadOneLine(line);
    FeedFirst(ReadAll(SplitLines(line + "\n")));
    LoadsFed(line + "\n", Advance(Ok([[]]), k, 1));
  }

  /** A node added at the empty root is its only child. */
  lemma PushRoot(n: Node)
    ensures Push([[]], n) == [[n]]
  {
    var f: Frames := [[]];
    assert f[..0] == [];
    assert f[0] + [n] == [n];
  }

  /** `loads` of a single key line: a document of that one node. */
  lemma LoadsOneEntry(line: string, key: string, v: Value)
    requires NoNewline(line) && Read(line) == Entry(key, v)
    ensures Loads(line + "\n") == Ok([Node(Some(key), v)])
  {
    ReadOneLine(line);
    FeedFirst(ReadAll(SplitLines(line + "\n")));
    PushRoot(Node(Some(key), v));
    LoadsFed(line + "\n", Ok([[Node(Some(key), v)]]));
  }

  /** A line without a space is a bare key. */
  lemma BareKeyLoads(k: string)
    requires BareKey(k)
    ensures Loads(k + "\n") == Ok([Node(Some(k), Empty)])
  {
    assert "" + k == k;
    ReadBareKeyLine("", k);
    LoadsOneEntry(k, k, Empty);
  }

  /** The value is everything after the first space, spaces included. */
  lemma KeyValueLoads(k: string, v: string)
    requires KeyToken(k) && TextValue(v)
    ensures Loads(k + " " + v + "\n") == Ok([Node(Some(k), Text(v))])
  {
    var line := k + " " + v;
    assert NoNewline(" ");
    NoNewlineConcat(k, " ");
    NoNewlineConcat(k + " ", v);
    assert "" + k + " " + v == line;
    ReadKeyValueLine("", k, v);
    LoadsOneEntry(line, k, Text(v));
  }

  lemma BareKeyExample()
    ensures Loads("foo\n") == Ok([Node(Some("foo"), Empty)])
  {
    assert "foo" + "\n" == "foo\n";
    BareKeyLoads("foo");
  }

  lemma KeyValueExample()
    ensures Loads("foo bar baz\n") == Ok([Node(Some("foo"), Text("bar baz"))])
  {
    assert "foo" + " " + "bar baz" + "\n" == "foo bar baz\n";
    KeyValueLoads("foo", "bar baz");
  }

  /** An empty text is an empty document. */
  lemma EmptyExample()
    ensures Loads("") == Ok([])
  {
  }

  /** A block left open is reported at the last line. */
  lemma UnclosedExample()
    ensures Loads("{\n") == Err(ParsingError(UnexpectedEof, 1))
  {
    assert "{" + "\n" == "{\n";
    ReadOpen();
    LoadsOne("{", Open);
  }

  /** A `}` with no open block is reported at its own line. */
  lemma StrayCloseExample()
    ensures Loads("}\n") == Err(ParsingError(InvalidClose, 1))
  {
    assert "}" + "\n" == "}\n";
    ReadStrayClose();
    LoadsOne("}", Close);
  }

  /** A bare key at the root is written with no line end after it. */
  lemma BareKeyDumps(k: string, indent: string, eol: string)
    ensures Dumps([Node(Some(k), Empty)], indent, eol) == k
  {
    var n := Node(Some(k), Empty);
    assert Repeat(indent, 0) == "";
    assert [n][0] == n;
    assert Serialize(n, indent, 0, eol) == k;
    assert SerializeAll([n], indent, 0, eol) == [k];
  }

  /** An empty document is written as the empty text. */
  lemma EmptyDumps(indent: string, eol: string)
    ensures Dumps([], indent, eol) == ""
  {
    assert SerializeAll([], indent, 0, eol) == [];
  }

  /** `dumps` of a bare key and a block after it. */
  lemma RootDumps(first: Node, block: Node, indent: string)
    requires first.key.Some? && first.value.Empty? && Renderable(block)
    ensures Dumps([first, block], indent, "\n") == first.key.value + "\n" + Dumps([block], indent, "\n")
  {
    var k := first.key.value;
    var t := [first, block];
    var sb := Serialize(block, indent, 0, "\n");
    assert Repeat(indent, 0) == "";
    assert Serialize(first, indent, 0, "\n") == k;
    assert SerializeAll([block], indent, 0, "\n") == [sb];
    assert SerializeAll(t, indent, 0, "\n") == [k] + [sb];
    JoinAppend([k], [sb], "\n");
  }

  /**
   * A key line followed by a block: `loads` makes the block an anonymous
   * sibling of the key, not its value.
   */
  lemma KeyThenBlock(k: string, cs: seq<Node>, indent: string)
    requires BareKey(k) && AllParsed(cs) && IndentOk(indent)
    ensures var block := Node(None, Block(cs));
      Loads(k + "\n" + Dumps([block], indent, "\n")) == Ok([Node(Some(k), Empty), block])
  {
    var block := Node(None, Block(cs));
    var t := [Node(Some(k), Empty), block];
    assert AllParsed(t) by {
      assert Parsed(t[0]) && Parsed(t[1]);
    }
    RootDumps(t[0], block, indent);
    RoundTrip.RoundTrip(t, indent);
  }

  /** A block holding one key/value leaf, at the root. */
  lemma LeafBlockParsed(k: string, v: string)
    requires KeyToken(k) && TextValue(v)
    ensures AllParsed([Node(None, Block([Node(Some(k), Text(v))]))])
  {
    var leaf := Node(Some(k), Text(v));
    assert Parsed(leaf);
    assert AllParsed([leaf]);
    assert Parsed(Node(None, Block([leaf])));
  }

  /** How `dumps` writes a block holding one key/value leaf. */
  lemma LeafBlockDumps(k: string, v: string, indent: string)
    requires AllParsed([Node(None, Block([Node(Some(k), Text(v))]))])
    ensures Dumps([Node(None, Block([Node(Some(k), Text(v))]))], indent, "\n") == "{\n" + indent + k + " " + v + "\n}\n"
  {
    var leaf := Node(Some(k), Text(v));
    var block := Node(None, Block([leaf]));
    assert [block][0] == block;
    assert AllParsed([leaf]);
    var line := indent + k + " " + v;
    assert Repeat(indent, 1) == indent;
    assert Repeat(indent, 0) == "";
    assert Serialize(leaf, indent, 1, "\n") == line;
    assert SerializeAll([leaf], indent, 1, "\n") == [line];
    var ls := ["" + "{"] + [line] + ["" + "}"];
    assert "" + "{" == "{" && "" + "}" == "}";
    assert ls == ["{", line, "}"];
    assert ls[1..] == [line, "}"] && ls[1..][1..] == ["}"];
    assert Join([line, "}"], "\n") == line + "\n" + "}";
    assert Join(ls, "\n") == "{" + "\n" + (line + "\n" + "}");
    assert Serialize(block, indent, 0, "\n") == "{" + "\n" + (line + "\n" + "}") + "\n";
    assert SerializeAll([block], indent, 0, "\n") == [Serialize(block, indent, 0, "\n")];
    assert "{" + "\n" + (line + "\n" + "}") + "\n" == "{\n" + indent + k + " " + v + "\n}\n";
  }

  /** `foo`, then a block: two siblings, not a keyed block. */
  lemma NestedExample()
    ensures Loads("foo\n{\na b\n}\n") ==
      Ok([Node(Some("foo"), Empty), Node(None, Block([Node(Some("a"), Text("b"))]))])
  {
    var leaf := Node(Some("a"), Text("b"));
    LeafBlockParsed("a", "b");
    LeafBlockDumps("a", "b", "");
    assert "foo" + "\n" + ("{\n" + "" + "a" + " " + "b" + "\n}\n") == "foo\n{\na b\n}\n";
    KeyThenBlock("foo", [leaf], "");
  }

  /** That document is written back as it was read, the block's content indented by a tab. */
  lemma NestedDumps()
    ensures var t := [Node(Some("foo"), Empty), Node(None, Block([Node(Some("a"), Text("b"))]))];
      AllParsed(t) && Dumps(t, "\t", "\n") == "foo\n{\n\ta b\n}\n"
  {
    var block := Node(None, Block([Node(Some("a"), Text("b"))]));
    var t := [Node(Some("foo"), Empty), block];
    LeafBlockParsed("a", "b");
    assert AllParsed(t) by {
      assert [block][0] == block;
      assert Parsed(t[0]) && Parsed(t[1]);
    }
    LeafBlockDumps("a", "b", "\t");
    RootDumps(t[0], block, "\t");
    assert "foo" + "\n" + ("{\n" + "\t" + "a" + " " + "b" + "\n}\n") == "foo\n{\n\ta b\n}\n";
  }

  /**
   * At depth `level`, a keyed block's first line carries the indentation
   * twice: once before the key and once more before the `{`.
   */
  lemma KeyedBlockOpenLine(k: string, cs: seq<Node>, indent: string, level: nat)
    requires AllRenderable(cs)
    ensures var indentStr := Repeat(indent, level);
      Renderable(Node(Some(k), Block(cs))) &&
      Lines(Node(Some(k), Block(cs)), indent, level)[0] == indentStr + k + " " + indentStr + "{"
  {
    assert RenderableValue(Block(cs));
  }

  /** A keyed block is written as `key {` and its closing `}`. */
  lemma KeyedBlockDumps(k: string, indent: string)
    requires BareKey(k)
    ensures Dumps([Node(Some(k), Block([]))], indent, "\n") == k + " {\n}\n"
  {
    var n := Node(Some(k), Block([]));
    var open, close := Repeat(indent, 0) + "{", Repeat(indent, 0) + "}";
    assert open == "{" && close == "}";
    var kids := SerializeAll([], indent, 1, "\n");
    assert [open] + kids + [close] == ["{", "}"];
    assert Join(["{", "}"], "\n") == "{\n}";
    assert SerializeValue(n.value, indent, 0, "\n") == "{\n}\n";
    assert Serialize(n, indent, 0, "\n") == "" + k + " " + "{\n}\n";
    assert "" + k + " " + "{\n}\n" == k + " {\n}\n";
    assert SerializeAll([n], indent, 0, "\n") == [k + " {\n}\n"];
  }

  /** The two lines `dumps` writes for an empty keyed block. */
  lemma KeyedBlockLines(k: string)
    requires BareKey(k)
    ensures SplitLines(k + " {\n}\n") == [k + " {", "}"]
  {
    var first := k + " {";
    var text := k + " {\n}\n";
    var ls := [first, "}", ""];
    assert Join(ls, "\n") == text by {
      assert ls[1..] == ["}", ""] && ls[1..][1..] == [""];
      assert Join(["}", ""], "\n") == "}\n";
      assert first + "\n" + "}\n" == text;
    }
    assert NoNewline(first) by {
      NoNewlineConcat(k, " {");
    }
    assert [first, "}"] + [""] == ls;
    LinesOf(text, [first, "}"]);
  }

  /** The kinds of two lines, in order. */
  lemma ReadTwo(a: string, b: string)
    ensures var ks := ReadAll([a, b]); |ks| == 2 && ks[0] == Read(a) && ks[1] == Read(b)
  {
  }

  /** `key {` is a key with the text value "{". */
  lemma ReadKeyBrace(k: string)
    requires BareKey(k)
    ensures Read(k + " {") == Entry(k, Text("{"))
  {
    assert "" + k + " " + "{" == k + " {";
    ReadKeyValueLine("", k, "{");
  }

  lemma ReadOpen()
    ensures Read("{") == Open
  {
    assert "" + "{" == "{";
    ReadBraceLine("", "{");
  }

  lemma ReadStrayClose()
    ensures Read("}") == Close
  {
    assert "" + "}" == "}";
    ReadBraceLine("", "}");
  }

  /** How the two lines of an empty keyed block read. */
  lemma KeyedBlockKinds(k: string)
    requires BareKey(k)
    ensures var ks := ReadAll(SplitLines(k + " {\n}\n"));
      |ks| == 2 && ks[0] == Entry(k, Text("{")) && ks[1] == Close
  {
    KeyedBlockLines(k);
    ReadTwo(k + " {", "}");
    ReadKeyBrace(k);
    ReadStrayClose();
  }

  /** A key line, then a `}`: the `}` closes nothing. */
  lemma EntryThenClose(ks: seq<LineKind>)
    requires |ks| == 2 && ks[0].Entry? && ks[1].Close?
    ensures Feed([[]], ks, 0) == Err(ParsingError(InvalidClose, 2))
  {
    FeedPrefix([[]], ks, 0, 0);
    StrayCloseDetected([[]], ks, 0, 1);
  }

  /**
   * What `dumps` writes for a keyed block reads back as the key with the
   * text value "{", followed by a stray `}`.
   */
  lemma KeyedBlockRejected(k: string)
    requires BareKey(k)
    ensures Loads(k + " {\n}\n") == Err(ParsingError(InvalidClose, 2))
  {
    KeyedBlockKinds(k);
    EntryThenClose(ReadAll(SplitLines(k + " {\n}\n")));
  }

  /** For instance, `foo` with an empty block does not survive the round trip. */
  lemma KeyedBlockExample()
    ensures Loads(Dumps([Node(Some("foo"), Block([]))], "\t", "\n")) == Err(ParsingError(InvalidClose, 2))
  {
    KeyedBlockDumps("foo", "\t");
    KeyedBlockRejected("foo");
  }
}
