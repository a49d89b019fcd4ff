/**
 * What the parser produces, and the round trip: the trees `loads` returns
 * are exactly the ones it reads back from their `dumps` text.
 */
module RoundTrip {
  import opened Wrappers
  import opened Strings
  import opened Tree
  import opened Grammar

  /** A key as the parser cuts it from a stripped line that has a value after it. */
  predicate KeyToken(k: string) {
    k != [] && ' ' !in k && NoNewline(k) && !IsSpace(k[0])
  }

  /** A key that is a whole stripped line. */
  predicate BareKey(k: string) {
    KeyToken(k) && !IsSpace(k[|k| - 1]) && k != "{" && k != "}"
  }

  /** A value as the parser cuts it: the rest of a stripped line after the first space. */
  predicate TextValue(v: string) {
    v != [] && NoNewline(v) && !IsSpace(v[|v| - 1])
  }

  /**
   * The nodes the parser builds: keyed leaves with the shapes above, and
   * anonymous blocks of such nodes.
   */
  predicate Parsed(n: Node)
    ensures Parsed(n) ==> Renderable(n)
    decreases n
  {
    match n
    case Node(Some(k), Empty) => BareKey(k)
    case Node(Some(k), Text(v)) => KeyToken(k) && TextValue(v)
    case Node(None, Block(cs)) => AllParsed(cs)
    case _ => false
  }

  predicate AllParsed(cs: seq<Node>)
    ensures AllParsed(cs) ==> AllRenderable(cs)
    decreases cs, 0
  {
    forall i | 0 <= i < |cs| :: Parsed(cs[i])
  }

  predicate FramesParsed(f: Frames) {
    forall j | 0 <= j < |f| :: AllParsed(f[j])
  }

  /** The node a key/value line adds. */
  predicate EntryParsed(k: LineKind)
    requires k.Entry?
  {
    Parsed(Node(Some(k.key), k.value))
  }

  predicate AllEntriesParsed(ks: seq<LineKind>) {
    forall i | 0 <= i < |ks| :: ks[i].Entry? ==> EntryParsed(ks[i])
  }

  predicate IndentOk(indent: string) {
    AllSpace(indent) && NoNewline(indent)
  }

  lemma NoNewlineConcat(a: string, b: string)
    requires NoNewline(a) && NoNewline(b)
    ensures NoNewline(a + b)
  {
    forall i | 0 <= i < |a + b| ensures (a + b)[i] != '\n' {
      if i >= |a| {
        assert (a + b)[i] == b[i - |a|];
      }
    }
  }

  /** A stripped line without a space is a bare key of the parsed shape. */
  lemma BareKeyLine(s: string)
    requires s != [] && !IsSpace(s[0]) && !IsSpace(s[|s| - 1]) && NoNewline(s)
    requires s != "{" && s != "}" && ' ' !in s
    ensures BareKey(s)
  {
  }

  /** A stripped line `key + " " + v` has a key and a value of the parsed shape. */
  lemma KeyValueLine(s: string, key: string, v: string)
    requires s != [] && !IsSpace(s[0]) && !IsSpace(s[|s| - 1]) && NoNewline(s)
    requires s == key + " " + v && ' ' !in key
    ensures KeyToken(key) && TextValue(v)
  {
    assert s[|s| - 1] == v[|v| - 1];
    forall i | 0 <= i < |key| ensures key[i] != '\n' {
      assert key[i] == s[i];
    }
    forall i | 0 <= i < |v| ensures v[i] != '\n' {
      assert v[i] == s[|key| + 1 + i];
    }
    assert s[0] == key[0];
  }

  /** A stripped key line adds a node of the parsed shape. */
  lemma ClassifyParsed(s: string)
    requires s != [] && !IsSpace(s[0]) && !IsSpace(s[|s| - 1]) && NoNewline(s)
    requires Classify(s).Entry?
    ensures EntryParsed(Classify(s))
  {
    var k := Classify(s);
    if k.value.Empty? {
      BareKeyLine(s);
    } else {
      KeyValueLine(s, k.key, k.value.s);
    }
  }

  /** Every key/value line of the input adds a node of the parsed shape. */
  lemma ReadParsed(line: string)
    requires NoNewline(line) && Read(line).Entry?
    ensures EntryParsed(Read(line))
  {
    ClassifyParsed(Strip(line));
  }

  lemma ReadAllParsed(lines: seq<string>)
    requires forall i | 0 <= i < |lines| :: NoNewline(lines[i])
    ensures AllEntriesParsed(ReadAll(lines))
  {
    forall i | 0 <= i < |lines| && ReadAll(lines)[i].Entry? ensures EntryParsed(ReadAll(lines)[i]) {
      ReadParsed(lines[i]);
    }
  }

  lemma StepParsed(f: Frames, k: LineKind)
    requires |f| > 0 && FramesParsed(f)
    requires k.Entry? ==> EntryParsed(k)
    requires Step(f, k).Some?
    ensures FramesParsed(Step(f, k).value)
  {
    var g := Step(f, k).value;
    match k
    case Blank =>
    case Open =>
      assert forall j | 0 <= j < |f| :: g[j] == f[j];
    case Close =>
      var top := f[|f| - 1];
      var below := f[..|f| - 1];
      assert Parsed(Node(None, Block(top)));
      assert forall j | 0 <= j < |below| - 1 :: g[j] == f[j];
      var last := below[|below| - 1] + [Node(None, Block(top))];
      assert g[|g| - 1] == last;
      assert AllParsed(last) by {
        forall i | 0 <= i < |last| ensures Parsed(last[i]) {
          if i < |last| - 1 {
            assert last[i] == f[|f| - 2][i];
          }
        }
      }
    case Entry(key, v) =>
      var last := f[|f| - 1] + [Node(Some(key), v)];
      assert forall j | 0 <= j < |f| - 1 :: g[j] == f[j];
      assert g[|g| - 1] == last;
      assert AllParsed(last) by {
        forall i | 0 <= i < |last| ensures Parsed(last[i]) {
          if i < |last| - 1 {
            assert last[i] == f[|f| - 1][i];
          }
        }
      }
  }

  lemma {:induction false} FeedParsed(f: Frames, ks: seq<LineKind>, base: nat)
    requires |f| > 0 && FramesParsed(f) && AllEntriesParsed(ks)
    requires Feed(f, ks, base).Ok?
    ensures FramesParsed(Feed(f, ks, base).value)
    decreases |ks|
  {
    if ks != [] {
      var init := ks[..|ks| - 1];
      assert AllEntriesParsed(init) by {
        forall i | 0 <= i < |init| ensures init[i] == ks[i] {}
      }
      FeedParsed(f, init, base);
      StepParsed(Feed(f, init, base).value, ks[|ks| - 1]);
    }
  }

  /** `loads` only ever builds trees of the parsed shape. */
  lemma LoadsParsed(text: string)
    requires Loads(text).Ok?
    ensures AllParsed(Loads(text).value)
  {
    var lines := SplitLines(text);
    ReadAllParsed(lines);
    FeedParsed([[]], ReadAll(lines), 0);
  }

  /** The tree of a parser state, open blocks included, is of the parsed shape. */
  lemma {:induction false} CloseFromParsed(f: Frames, j: nat)
    requires FramesParsed(f) && j < |f|
    ensures AllParsed(CloseFrom(f, j))
    decreases |f| - j
  {
    if j < |f| - 1 {
      CloseFromParsed(f, j + 1);
      assert AllParsed(f[j]);
    }
  }

  lemma ReadAllAppend(a: seq<string>, b: seq<string>)
    ensures ReadAll(a + b) == ReadAll(a) + ReadAll(b)
  {
    var l, r := ReadAll(a + b), ReadAll(a) + ReadAll(b);
    assert |l| == |r|;
    forall i | 0 <= i < |a + b| ensures l[i] == r[i] {
      if i < |a| {
        assert (a + b)[i] == a[i];
      } else {
        assert (a + b)[i] == b[i - |a|];
      }
    }
  }

  /** If `s == k + " " + v` with no space in `k`, splitting at the first space gives `k` and `v`. */
  lemma FirstSpace(s: string, k: string, v: string)
    requires s == k + " " + v && ' ' !in k
    ensures SplitOnce(s, ' ') == [k, v]
  {
    assert s[|k|] == ' ';
    var parts := SplitOnce(s, ' ');
    var p := parts[0];
    assert |p| == |k|;
    assert p == s[..|k|] == k;
    assert parts[1] == s[|k| + 1..] == v;
  }

  /** How a bare key line the serializer writes is read back. */
  lemma ReadBareKeyLine(indentStr: string, k: string)
    requires AllSpace(indentStr) && BareKey(k)
    ensures Read(indentStr + k) == Entry(k, Empty)
  {
    StripExact(indentStr, k, "");
    assert indentStr + k + "" == indentStr + k;
  }

  /** How a key/value line the serializer writes is read back. */
  lemma ReadKeyValueLine(indentStr: string, k: string, v: string)
    requires AllSpace(indentStr) && KeyToken(k) && TextValue(v)
    ensures Read(indentStr + k + " " + v) == Entry(k, Text(v))
  {
    var s := k + " " + v;
    assert s[0] == k[0] && s[|s| - 1] == v[|v| - 1];
    StripExact(indentStr, s, "");
    assert indentStr + s + "" == indentStr + k + " " + v;
    FirstSpace(s, k, v);
    assert s != "{" && s != "}";
  }

  /** How a brace line the serializer writes is read back. */
  lemma ReadBraceLine(indentStr: string, brace: string)
    requires AllSpace(indentStr) && (brace == "{" || brace == "}")
    ensures Read(indentStr + brace) == if brace == "{" then Open else Close
  {
    StripExact(indentStr, brace, "");
    assert indentStr + brace + "" == indentStr + brace;
  }

  /**
   * How the lines of a parsed node read, whatever the indentation: one key
   * line per leaf, and brace lines (with an empty line after the closing
   * one) around a block's children.
   */
  function Kinds(n: Node): (ks: seq<LineKind>)
    requires Parsed(n)
    decreases n
  {
    match n.value
    case Block(cs) => [Open] + ChildKinds(cs) + [Close, Blank]
    case _ => [Entry(n.key.value, n.value)]
  }

  function ChildKinds(cs: seq<Node>): (ks: seq<LineKind>)
    requires AllParsed(cs)
    decreases cs
  {
    if cs == [] then [] else Kinds(cs[0]) + ChildKinds(cs[1..])
  }

  lemma AllParsedTail(cs: seq<Node>)
    requires cs != [] && AllParsed(cs)
    ensures Parsed(cs[0]) && AllParsed(cs[1..])
  {
    forall i | 0 <= i < |cs[1..]| ensures Parsed(cs[1..][i]) {
      assert cs[1..][i] == cs[i + 1];
    }
  }

  lemma ReadEmptyLine()
    ensures Read("") == Blank
  {
    StripExact("", "", "");
    assert "" + "" + "" == "";
  }

  /** How the lines the serializer writes for an anonymous block are read back. */
  lemma ReadBlockLines(cs: seq<Node>, indent: string, level: nat)
    requires AllRenderable(cs) && IndentOk(indent)
    ensures ReadAll(Lines(Node(None, Block(cs)), indent, level)) ==
      [Open] + ReadAll(ChildLines(cs, indent, level + 1)) + [Close, Blank]
  {
    var indentStr := Repeat(indent, level);
    RepeatSpace(indent, level);
    var openLine, closeLine := indentStr + "{", indentStr + "}";
    var kids := ChildLines(cs, indent, level + 1);
    assert Lines(Node(None, Block(cs)), indent, level) == [openLine] + kids + [closeLine, ""] by {
      assert "" + indentStr + "{" == openLine;
    }
    ReadBraceLine(indentStr, "{");
    ReadBraceLine(indentStr, "}");
    ReadEmptyLine();
    ReadAllAppend([openLine] + kids, [closeLine, ""]);
    ReadAllAppend([openLine], kids);
    assert ReadAll([openLine]) == [Open];
    assert ReadAll([closeLine, ""]) == [Close, Blank];
  }

  /** The lines the serializer writes for a parsed node are read as `Kinds`. */
  lemma {:induction false} ReadLines(n: Node, indent: string, level: nat)
    requires Parsed(n) && IndentOk(indent)
    ensures ReadAll(Lines(n, indent, level)) == Kinds(n)
    decreases n
  {
    var indentStr := Repeat(indent, level);
    RepeatSpace(indent, level);
    match n.value
    case Empty =>
      ReadBareKeyLine(indentStr, n.key.value);
    case Text(v) =>
      ReadKeyValueLine(indentStr, n.key.value, v);
    case Block(cs) =>
      ReadBlockLines(cs, indent, level);
      ReadChildLines(cs, indent, level + 1);
  }

  lemma {:induction false} ReadChildLines(cs: seq<Node>, indent: string, level: nat)
    requires AllParsed(cs) && IndentOk(indent)
    ensures ReadAll(ChildLines(cs, indent, level)) == ChildKinds(cs)
    decreases cs
  {
    if cs != [] {
      AllParsedTail(cs);
      var first := Lines(cs[0], indent, level);
      var rest := ChildLines(cs[1..], indent, level);
      assert ChildLines(cs, indent, level) == first + rest;
      ReadAllAppend(first, rest);
      ReadLines(cs[0], indent, level);
      ReadChildLines(cs[1..], indent, level);
    }
  }

  /** Feeding a single line. */
  lemma FeedOne(f: Frames, k: LineKind, base: nat)
    requires |f| > 0
    ensures Feed(f, [k], base) == Advance(Ok(f), k, base + 1)
  {
    assert [k][..0] == [];
  }

  /** The effect of a block's brace lines around its children's lines. */
  lemma FeedBraces(f: Frames, ks: seq<LineKind>, cs: seq<Node>, base: nat)
    requires |f| > 0 && Feed(f + [[]], ks, base + 1) == Ok(f + [cs])
    ensures Feed(f, [Open] + ks + [Close, Blank], base) == Ok(Push(f, Node(None, Block(cs))))
  {
    var openKinds: seq<LineKind> := [Open];
    var closeKinds: seq<LineKind> := [Close, Blank];
    FeedAppend(f, openKinds + ks, closeKinds, base);
    FeedAppend(f, openKinds, ks, base);
    FeedOne(f, Open, base);
    var h := f + [cs];
    assert h[..|h| - 1] == f;
    assert closeKinds[..1] == [Close];
    FeedOne(h, Close, base + 1 + |ks|);
  }

  /** Feeding the kinds of a parsed node adds exactly that node at the cursor. */
  lemma {:induction false} FeedKinds(f: Frames, n: Node, base: nat)
    requires |f| > 0 && Parsed(n)
    ensures Feed(f, Kinds(n), base) == Ok(Push(f, n))
    decreases n
  {
    match n.value
    case Block(cs) =>
      var g := f + [[]];
      FeedChildKinds(g, cs, base + 1);
      assert g[..|g| - 1] == f && g[|g| - 1] + cs == cs;
      FeedBraces(f, ChildKinds(cs), cs, base);
    case _ =>
      FeedOne(f, Entry(n.key.value, n.value), base);
  }

  /** Adding `c` at the cursor, then `rest`, is adding `[c] + rest`. */
  lemma PushThenAdd(f: Frames, c: Node, rest: seq<Node>)
    requires |f| > 0
    ensures var g := Push(f, c);
      g[..|g| - 1] + [g[|g| - 1] + rest] == f[..|f| - 1] + [f[|f| - 1] + ([c] + rest)]
  {
    var g := Push(f, c);
    assert g[..|g| - 1] == f[..|f| - 1];
    assert g[|g| - 1] + rest == f[|f| - 1] + ([c] + rest);
  }

  /** Feeding the kinds of parsed nodes adds them, in order, at the cursor. */
  lemma {:induction false} FeedChildKinds(f: Frames, cs: seq<Node>, base: nat)
    requires |f| > 0 && AllParsed(cs)
    ensures Feed(f, ChildKinds(cs), base) == Ok(f[..|f| - 1] + [f[|f| - 1] + cs])
    decreases cs
  {
    if cs == [] {
      assert f[|f| - 1] + cs == f[|f| - 1];
      assert f[..|f| - 1] + [f[|f| - 1] + cs] == f;
    } else {
      AllParsedTail(cs);
      var first, rest := Kinds(cs[0]), ChildKinds(cs[1..]);
      assert ChildKinds(cs) == first + rest;
      FeedAppend(f, first, rest, base);
      FeedKinds(f, cs[0], base);
      FeedChildKinds(Push(f, cs[0]), cs[1..], base + |first|);
      PushThenAdd(f, cs[0], cs[1..]);
      assert [cs[0]] + cs[1..] == cs;
    }
  }

  /** The serializer never writes a newline inside a line of a parsed tree. */
  lemma {:induction false} LinesNoNewline(n: Node, indent: string, level: nat)
    requires Parsed(n) && IndentOk(indent)
    ensures forall i | 0 <= i < |Lines(n, indent, level)| :: NoNewline(Lines(n, indent, level)[i])
    decreases n
  {
    var indentStr := Repeat(indent, level);
    RepeatSpace(indent, level);
    match n.value
    case Empty =>
      NoNewlineConcat(indentStr, n.key.value);
    case Text(v) =>
      NoNewlineConcat(indentStr, n.key.value);
      NoNewlineConcat(indentStr + n.key.value, " ");
      NoNewlineConcat(indentStr + n.key.value + " ", v);
    case Block(cs) =>
      ChildLinesNoNewline(cs, indent, level + 1);
      NoNewlineConcat(indentStr, "{");
      NoNewlineConcat(indentStr, "}");
      assert "" + indentStr + "{" == indentStr + "{";
  }

  lemma {:induction false} ChildLinesNoNewline(cs: seq<Node>, indent: string, level: nat)
    requires AllParsed(cs) && IndentOk(indent)
    ensures forall i | 0 <= i < |ChildLines(cs, indent, level)| :: NoNewline(ChildLines(cs, indent, level)[i])
    decreases cs
  {
    if cs != [] {
      LinesNoNewline(cs[0], indent, level);
      assert AllParsed(cs[1..]) by {
        forall i | 0 <= i < |cs[1..]| ensures Parsed(cs[1..][i]) {
          assert cs[1..][i] == cs[i + 1];
        }
      }
      ChildLinesNoNewline(cs[1..], indent, level);
    }
  }

  /** An empty last line changes nothing. */
  lemma FeedTrailingBlank(f: Frames, ks: seq<LineKind>, base: nat)
    requires |f| > 0 && ks != [] && ks[|ks| - 1] == Blank
    ensures Feed(f, ks[..|ks| - 1], base) == Feed(f, ks, base)
  {
  }

  /** The lines of a dumped tree that reach the line reader. */
  lemma DumpedKinds(t: seq<Node>, indent: string)
    requires AllParsed(t) && IndentOk(indent)
    ensures Feed([[]], ReadAll(SplitLines(Dumps(t, indent, "\n"))), 0) == Feed([[]], ChildKinds(t), 0)
  {
    var lines := ChildLines(t, indent, 0);
    SerializeRootLines(t, indent, "\n");
    ChildLinesNoNewline(t, indent, 0);
    SplitLinesJoin(lines);
    ReadChildLines(t, indent, 0);
    var ks := ReadAll(lines);
    var read := SplitLines(Join(lines, "\n"));
    if read != lines {
      assert read == lines[..|lines| - 1];
      assert ReadAll(read) == ks[..|ks| - 1];
      StripExact("", "", "");
      assert ks[|ks| - 1] == Read("");
      FeedTrailingBlank([[]], ks, 0);
    }
  }

  /**
   * Round trip: a tree of the parsed shape, dumped with '\n' line ends and
   * any whitespace indentation, loads back as the same tree.
   */
  lemma RoundTrip(t: seq<Node>, indent: string)
    requires AllParsed(t) && IndentOk(indent)
    ensures Loads(Dumps(t, indent, "\n")) == Ok(t)
  {
    var text := Dumps(t, indent, "\n");
    DumpedKinds(t, indent);
    var root: Frames := [[]];
    FeedChildKinds(root, t, 0);
    assert root[0] + t == t;
    assert root[..0] + [root[0] + t] == [t];
    assert Feed(root, ReadAll(SplitLines(text)), 0) == Ok([t]);
  }

  /**
   * Whatever `loads` returns, `dumps` with the default indentation and line
   * end writes a text that `loads` reads back as the same tree.
   */
  lemma LoadsDumpsLoads(text: string)
    requires Loads(text).Ok?
    ensures AllParsed(Loads(text).value)
    ensures Loads(Dumps(Loads(text).value, "\t", "\n")) == Loads(text)
  {
    LoadsParsed(text);
    RoundTrip(Loads(text).value, "\t");
  }
}
