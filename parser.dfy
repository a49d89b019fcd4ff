/**
 * `StructTextParser`: the parser object of the source.  Its node objects
 * live in the arena `nodes` (see `Arena`), `cur` is the node the cursor
 * `_cur_node` points at, and the ghost fields keep the reference parser's
 * state (`Grammar`) the objects stand for.
 */
module Parser {
  import opened Wrappers
  import opened Strings
  import opened Tree
  import opened Grammar
  import opened RoundTrip
  import opened Arena

  /** The parser's invariant, on values: the objects stand for the reference parser's state. */
  ghost predicate Inv(a: seq<Cell>, spine: seq<nat>, frames: Frames) {
    Shape(a, spine, frames) && FramesParsed(frames)
  }

  /** A stripped line that is neither blank nor a brace: a key, and maybe a value. */
  predicate KeyLine(s: string) {
    s != [] && !IsSpace(s[0]) && !IsSpace(s[|s| - 1]) && NoNewline(s) && s != "{" && s != "}"
  }

  /** A `{` line: a new empty block under the cursor becomes the cursor. */
  lemma OpenEffect(a: seq<Cell>, spine: seq<nat>, frames: Frames)
    requires Inv(a, spine, frames)
    ensures var c := spine[|spine| - 1];
      Inv(Insert(a, c, Cell(None, Kids([]), Some(c))), spine + [|a|], frames + [[]])
  {
    ShapeOpen(a, spine, frames);
    StepParsed(frames, Open);
  }

  /** A `}` line: an error at the root, else the cursor moves to its parent. */
  lemma CloseEffect(a: seq<Cell>, spine: seq<nat>, frames: Frames)
    requires Inv(a, spine, frames)
    ensures var c := spine[|spine| - 1]; c < |a| && (a[c].parent.None? <==> |spine| == 1)
    ensures |spine| > 1 ==>
      var l := |spine| - 1;
      a[spine[l]].parent == Some(spine[l - 1]) &&
      Inv(a, spine[..l], Push(frames[..l], Node(None, Block(frames[l]))))
  {
    ShapeCursor(a, spine, frames);
    if |spine| > 1 {
      ShapeClose(a, spine, frames);
      StepParsed(frames, Close);
    }
  }

  /** A key line: a new leaf under the cursor. */
  lemma EntryEffect(a: seq<Cell>, spine: seq<nat>, frames: Frames, s: string, n: Node, slot: Slot)
    requires Inv(a, spine, frames) && KeyLine(s)
    requires n.key.Some? && Classify(s) == Entry(n.key.value, n.value)
    requires slot == (if n.value.Text? then Str(n.value.s) else NoValue)
    ensures var c := spine[|spine| - 1];
      Inv(Insert(a, c, Cell(n.key, slot, Some(c))), spine, Push(frames, n))
  {
    var c := spine[|spine| - 1];
    ShapeLeaf(a, spine, frames, Cell(n.key, slot, Some(c)), n);
    ClassifyParsed(s);
    StepParsed(frames, Classify(s));
  }

  class StructTextParser {
    var nodes: seq<Cell>
    var cur: nat
    /** The open blocks, from the root to the cursor. */
    ghost var spine: seq<nat>
    /** The reference parser's state after the lines read so far. */
    ghost var frames: Frames

    ghost predicate Valid()
      reads this
    {
      Inv(nodes, spine, frames) && cur == spine[|spine| - 1]
    }

    /** A parser with an empty root and the cursor on it. */
    constructor ()
      ensures Valid() && frames == [[]] && Document() == []
    {
      nodes := [Cell(None, Kids([]), None)];
      cur := 0;
      spine := [0];
      frames := [[]];
    }

    /** `_insert_node`: a new node with parent `cur`, appended to the children of `cur`. */
    method InsertNode(key: Option<string>, slot: Slot) returns (node: nat)
      requires cur < |nodes| && nodes[cur].slot.Kids?
      modifies this
      ensures cur == old(cur) && spine == old(spine) && frames == old(frames)
      ensures node == |old(nodes)|
      ensures nodes == Insert(old(nodes), cur, Cell(key, slot, Some(cur)))
    {
      var c := nodes[cur];
      node := |nodes|;
      nodes := nodes[cur := c.(slot := Kids(c.slot.ids + [node]))] + [Cell(key, slot, Some(cur))];
    }

    /** The `{` branch of `_parse_line`: a new empty block under the cursor becomes the cursor. */
    method OpenBlock()
      requires Valid()
      modifies this
      ensures Valid() && frames == old(frames) + [[]]
    {
      OpenEffect(nodes, spine, frames);
      var node := InsertNode(None, Kids([]));
      cur := node;
      spine := spine + [node];
      frames := frames + [[]];
    }

    /**
     * The `}` branch of `_parse_line`: the cursor moves to its parent, and
     * the error, reported at line `il + 1`, when it has none.
     */
    method CloseBlock(il: nat) returns (err: Option<ParsingError>)
      requires Valid()
      modifies this
      ensures Valid()
      ensures |old(frames)| == 1 ==> err == Some(ParsingError(InvalidClose, il + 1)) && frames == old(frames)
      ensures |old(frames)| > 1 ==>
        err.None? && frames == Push(old(frames)[..|old(frames)| - 1], Node(None, Block(old(frames)[|old(frames)| - 1])))
    {
      CloseEffect(nodes, spine, frames);
      var parent := nodes[cur].parent;
      if parent.None? {
        return Some(ParsingError(InvalidClose, il + 1));
      }
      cur := parent.value;
      spine := spine[..|spine| - 1];
      frames := Push(frames[..|frames| - 1], Node(None, Block(frames[|frames| - 1])));
      return None;
    }

    /**
     * The last branch of `_parse_line`: the stripped line is cut at its first
     * space into a key and a value, and a leaf is added under the cursor.
     */
    method AddEntry(s: string)
      requires Valid() && KeyLine(s)
      modifies this
      ensures Valid()
      ensures Classify(s).Entry? && frames == Push(old(frames), Node(Some(Classify(s).key), Classify(s).value))
    {
      var kv := SplitOnce(s, ' ');
      if |kv| == 1 {
        EntryEffect(nodes, spine, frames, s, Node(Some(kv[0]), Empty), NoValue);
        var _ := InsertNode(Some(kv[0]), NoValue);
        frames := Push(frames, Node(Some(kv[0]), Empty));
      } else {
        EntryEffect(nodes, spine, frames, s, Node(Some(kv[0]), Text(kv[1])), Str(kv[1]));
        var _ := InsertNode(Some(kv[0]), Str(kv[1]));
        frames := Push(frames, Node(Some(kv[0]), Text(kv[1])));
      }
    }

    /**
     * `_parse_line`: the line numbered `il` (from 0) has the effect the
     * reference parser gives it; a `}` at the root is the error.
     */
    method ParseLine(il: nat, line: string) returns (err: Option<ParsingError>)
      requires Valid() && NoNewline(line)
      modifies this
      ensures Valid()
      ensures Step(old(frames), Read(line)).None? ==>
        err == Some(ParsingError(InvalidClose, il + 1)) && frames == old(frames)
      ensures Step(old(frames), Read(line)).Some? ==>
        err.None? && frames == Step(old(frames), Read(line)).value
    {
      err := None;
      var s := Strip(line);
      if s == "" {
      } else if s == "{" {
        OpenBlock();
      } else if s == "}" {
        err := CloseBlock(il);
      } else {
        AddEntry(s);
      }
    }

    /** `root.value` as a tree: the reference parser's tree, open blocks included. */
    function Document(): (t: seq<Node>)
      reads this
      requires Valid()
      ensures t == CloseFrom(frames, 0)
      ensures AllParsed(t)
    {
      ForestCloseFrom(nodes, spine, frames, 0);
      CloseFromParsed(frames, 0);
      Forest(nodes, nodes[0].slot.ids)
    }

    /** `dumps`: with '\n' line ends and whitespace indentation, `loads` reads it back. */
    function Dumps(indent: string, eol: string): (r: string)
      reads this
      requires Valid()
      ensures eol == "\n" && IndentOk(indent) ==> Grammar.Loads(r) == Ok(Document())
    {
      var t := Document();
      var r := SerializeRoot(t, indent, 0, eol);
      if eol == "\n" && IndentOk(indent) then
        RoundTrip.RoundTrip(t, indent);
        r
      else
        r
    }

    /**
     * `loads`: every line in turn, then the check that the cursor is back
     * at the root; the result is what the reference parser gives.
     */
    static method Loads(s: string) returns (r: Result<StructTextParser, ParsingError>)
      ensures r.Ok? <==> Grammar.Loads(s).Ok?
      ensures r.Ok? ==> r.value.Valid() && r.value.Document() == Grammar.Loads(s).value
      ensures r.Err? ==> r.error == Grammar.Loads(s).error
    {
      var p := new StructTextParser();
      var lines := SplitLines(s);
      ghost var ks := ReadAll(lines);
      var il := 0;
      while il < |lines|
        invariant 0 <= il <= |lines|
        invariant p.Valid()
        invariant Feed([[]], ks[..il], 0) == Ok(p.frames)
      {
        FeedPrefix([[]], ks, il, 0);
        var e := p.ParseLine(il, lines[il]);
        if e.Some? {
          FeedStopsAtError([[]], ks, il + 1, 0);
          return Err(e.value);
        }
        il := il + 1;
      }
      assert ks[..il] == ks;
      ShapeCursor(p.nodes, p.spine, p.frames);
      if p.cur != 0 {
        return Err(ParsingError(UnexpectedEof, |lines|));
      }
      return Ok(p);
    }
  }
}
