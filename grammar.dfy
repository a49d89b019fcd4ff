/**
 * The parser as a pure state machine over lines (`_parse_line`, `loads`).
 *
 * The state is the stack of open blocks: `f[0]` holds the root's children
 * read so far, and each later frame the children of a block whose `}` has
 * not been read yet, innermost last, so `|f| - 1` is the depth of the cursor.
 * A frame does not list the open block nested in it; `CloseFrom` puts those
 * back in, which gives the tree as the source's parent-linked objects hold it
 * at that moment (there an open block is appended to its parent when its `{`
 * is read).
 */
module Grammar {
  import opened Wrappers
  import opened Strings
  import opened Tree

  datatype ErrorKind = InvalidClose | UnexpectedEof

  /** `ParsingError`, with the 1-based number of the line it reports. */
  datatype ParsingError = ParsingError(kind: ErrorKind, line: nat)

  datatype LineKind = Blank | Open | Close | Entry(key: string, value: Value)

  /** How `_parse_line` reads a line once it is stripped. */
  function Classify(s: string): (k: LineKind)
    ensures k.Blank? <==> s == ""
    ensures k.Open? <==> s == "{"
    ensures k.Close? <==> s == "}"
    ensures k.Entry? ==> ' ' !in k.key && (k.value.Empty? <==> ' ' !in s)
    ensures k.Entry? && k.value.Empty? ==> s == k.key
    ensures k.Entry? && !k.value.Empty? ==> k.value.Text? && s == k.key + " " + k.value.s
  {
    if s == "" then Blank
    else if s == "{" then Open
    else if s == "}" then Close
    else
      var kv := SplitOnce(s, ' ');
      if |kv| == 1 then Entry(kv[0], Empty) else Entry(kv[0], Text(kv[1]))
  }

  type Frames = seq<seq<Node>>

  /** Appends `n` to the innermost open block (or to the root). */
  function Push(f: Frames, n: Node): (r: Frames)
    requires |f| > 0
    ensures |r| == |f|
  {
    f[..|f| - 1] + [f[|f| - 1] + [n]]
  }

  /** The children of the open block at depth `j`, its open descendants included. */
  function CloseFrom(f: Frames, j: nat): (r: seq<Node>)
    requires j < |f|
    decreases |f| - j
  {
    if j == |f| - 1 then f[j] else f[j] + [Node(None, Block(CloseFrom(f, j + 1)))]
  }

  /** How `_parse_line` reads a line: stripped, then classified. */
  function Read(line: string): (k: LineKind)
  {
    Classify(Strip(line))
  }

  function ReadAll(lines: seq<string>): (ks: seq<LineKind>)
    ensures |ks| == |lines|
  {
    seq(|lines|, i requires 0 <= i < |lines| => Read(lines[i]))
  }

  /** The effect of one line; `None` is the error for a `}` that closes nothing. */
  function Step(f: Frames, k: LineKind): (r: Option<Frames>)
    requires |f| > 0
    ensures r.None? <==> k.Close? && |f| == 1
    ensures r.Some? && k.Open? ==> |r.value| == |f| + 1
    ensures r.Some? && k.Close? ==> |r.value| == |f| - 1
    ensures r.Some? && !k.Open? && !k.Close? ==> |r.value| == |f|
  {
    match k
    case Blank => Some(f)
    case Open => Some(f + [[]])
    case Close =>
      if |f| == 1 then None
      else Some(Push(f[..|f| - 1], Node(None, Block(f[|f| - 1]))))
    case Entry(key, v) => Some(Push(f, Node(Some(key), v)))
  }

  /** Reads the line numbered `number`, unless an earlier line failed. */
  function Advance(r: Result<Frames, ParsingError>, k: LineKind, number: nat): (r': Result<Frames, ParsingError>)
    requires r.Ok? ==> |r.value| > 0
    ensures r'.Ok? ==> |r'.value| > 0
    ensures r.Err? ==> r' == r
    ensures r.Ok? && r'.Err? ==> r'.error == ParsingError(InvalidClose, number)
  {
    match r
    case Err(e) => Err(e)
    case Ok(g) =>
      match Step(g, k)
      case None => Err(ParsingError(InvalidClose, number))
      case Some(h) => Ok(h)
  }

  /**
   * Feeds the lines, as read, in order; `base` is the number of lines fed
   * before them, so that an error names its line within the whole input.
   */
  function Feed(f: Frames, ks: seq<LineKind>, base: nat): (r: Result<Frames, ParsingError>)
    requires |f| > 0
    ensures r.Ok? ==> |r.value| > 0
    ensures r.Err? ==> r.error.kind == InvalidClose && base < r.error.line <= base + |ks|
    decreases |ks|
  {
    if ks == [] then Ok(f)
    else Advance(Feed(f, ks[..|ks| - 1], base), ks[|ks| - 1], base + |ks|)
  }

  /** `loads`: every line, then the check that every block was closed. */
  function Loads(text: string): (r: Result<seq<Node>, ParsingError>)
    ensures r.Err? && r.error.kind == UnexpectedEof ==> r.error.line == |SplitLines(text)| > 0
    ensures r.Err? && r.error.kind == InvalidClose ==> 0 < r.error.line <= |SplitLines(text)|
  {
    var lines := SplitLines(text);
    match Feed([[]], ReadAll(lines), 0)
    case Err(e) => Err(e)
    case Ok(f) => if |f| == 1 then Ok(f[0]) else Err(ParsingError(UnexpectedEof, |lines|))
  }

  /** `dumps` with the tree as `loads` gives it. */
  function Dumps(t: seq<Node>, indent: string, eol: string): (r: string)
    requires AllRenderable(t)
  {
    SerializeRoot(t, indent, 0, eol)
  }

  /** Feeding two runs of lines is feeding the first, then the second. */
  lemma {:induction false} FeedAppend(f: Frames, a: seq<LineKind>, b: seq<LineKind>, base: nat)
    requires |f| > 0
    ensures Feed(f, a, base).Err? ==> Feed(f, a + b, base) == Feed(f, a, base)
    ensures Feed(f, a, base).Ok? ==> Feed(f, a + b, base) == Feed(Feed(f, a, base).value, b, base + |a|)
    decreases |b|
  {
    if b == [] {
      assert a + b == a;
    } else {
      var ab := a + b;
      assert ab[..|ab| - 1] == a + b[..|b| - 1];
      assert ab[|ab| - 1] == b[|b| - 1];
      FeedAppend(f, a, b[..|b| - 1], base);
    }
  }

  /** Feeding one more line of a list. */
  lemma FeedPrefix(f: Frames, ks: seq<LineKind>, i: nat, base: nat)
    requires |f| > 0 && i < |ks|
    ensures Feed(f, ks[..i + 1], base) == Advance(Feed(f, ks[..i], base), ks[i], base + i + 1)
  {
    assert ks[..i + 1][..i] == ks[..i];
  }

  /** An error on a first run of lines is the error of the whole. */
  lemma FeedStopsAtError(f: Frames, ks: seq<LineKind>, i: nat, base: nat)
    requires |f| > 0 && i <= |ks| && Feed(f, ks[..i], base).Err?
    ensures Feed(f, ks, base) == Feed(f, ks[..i], base)
  {
    FeedAppend(f, ks[..i], ks[i..], base);
    assert ks[..i] + ks[i..] == ks;
  }

  /** An error names a `}` line read while the cursor was at the root. */
  lemma {:induction false} StrayCloseReported(f: Frames, ks: seq<LineKind>, base: nat)
    requires |f| > 0 && Feed(f, ks, base).Err?
    ensures var k := Feed(f, ks, base).error.line - base - 1;
      0 <= k < |ks| && Feed(f, ks[..k], base).Ok? &&
      |Feed(f, ks[..k], base).value| == 1 && ks[k].Close?
    decreases |ks|
  {
    var init := ks[..|ks| - 1];
    if Feed(f, init, base).Err? {
      StrayCloseReported(f, init, base);
      var k := Feed(f, init, base).error.line - base - 1;
      assert init[..k] == ks[..k];
    }
  }

  /** Conversely, a `}` read at the root is reported at its own line. */
  lemma StrayCloseDetected(f: Frames, ks: seq<LineKind>, base: nat, k: nat)
    requires |f| > 0 && k < |ks|
    requires Feed(f, ks[..k], base).Ok? && |Feed(f, ks[..k], base).value| == 1
    requires ks[k].Close?
    ensures Feed(f, ks, base) == Err(ParsingError(InvalidClose, base + k + 1))
  {
    var upto := ks[..k + 1];
    assert upto[..k] == ks[..k];
    assert Feed(f, upto, base) == Err(ParsingError(InvalidClose, base + k + 1));
    FeedAppend(f, upto, ks[k + 1..], base);
    assert upto + ks[k + 1..] == ks;
  }

  /** A line is read as blank, and so changes nothing, exactly when it is whitespace only. */
  lemma BlankLineIgnored(line: string)
    ensures Read(line) == Blank <==> AllSpace(line)
  {
    StripEmpty(line);
  }

  /** Indentation, and whitespace after a line, never change how it is read. */
  lemma IndentIgnored(p: string, line: string, q: string)
    requires AllSpace(p) && AllSpace(q)
    ensures Read(p + line + q) == Read(line)
  {
    StripIgnoresPadding(p, line, q);
  }
}
