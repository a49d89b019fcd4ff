# StructText parser and serializer, modelled in Dafny

StructText is a line-oriented text format of nested key/value entries. After
stripping the whitespace around it, each line is one of these:

- blank, which is ignored;
- `{`, which opens an anonymous block;
- `}`, which closes the innermost open block;
- a key, or a key, a space and a value (everything after the first space, kept verbatim).

`parser.py` reads such a text into a tree of node objects. `StructTextParser`
has a cursor, `_cur_node`. `_parse_line` handles one line.
`loads` feeds it every line and then checks that every block was closed.
`dumps` writes the tree back with a configurable indentation and line end.

The Dafny model is made of these modules:

- `Strings` (`strings.dfy`): the Python built-ins the code relies on. These are
  `str.strip`, `str.split(" ", maxsplit=1)`, `str.splitlines`, `sep.join` and `s * n`.
  Each is a function, and the lemmas beside it prove its properties: for
  example that `splitlines` undoes the join of its lines, and that `s * n`
  is `n * len(s)` long and is `n` copies of `s`.
- `Tree` (`tree.dfy`): the document tree as values, with
  `Value = Empty | Text | Block`.
  - `_serialize_value`, `serialize` and the root's `serialize` are pure functions.
  - They are related to a line-by-line view of the output, `Lines`.
- `Grammar` (`grammar.dfy`): the parser as a pure state machine, the reference
  parser. Its state is the stack of open blocks (`Frames`).
  - `Step` is the effect of one line and `Feed` feeds a list of lines.
  - `Loads` is `loads`, including its two errors: a stray `}` and an unclosed block.
- `RoundTrip` (`roundtrip.dfy`): the trees `loads` builds (`Parsed`), and the
  round trip `Loads(Dumps(t)) == Ok(t)` for every such tree.
- `Arena` (`arena.dfy`): the source's parent-linked node objects, as an arena
  of cells. A cell's value names its children by index, and a cell names its
  parent.
  - `Materialize` turns a cell into the tree it stands for.
  - `Shape` says that the cells, the cursor and the chain of open blocks
    stand for a state of the reference parser.
- `Parser` (`parser.dfy`): the class `StructTextParser`, imperative as in the
  source. Its fields are the arena `nodes` and the cursor `cur`.
  - Each branch of `_parse_line` is a method that updates them.
  - `Loads` is a loop over the lines.
  - Each method is proved to do to the ghost reference state what `Grammar.Step`
    does. So the tree the objects hold is always the reference parser's tree.
- `Examples` (`examples.dfy`): the concrete behaviours the format is known
  for, proved on the model.

The data types and where they come from:

- `Tree.Value` and `Tree.Node` (parser.py:6-13): a node's `key`, which is absent
  for an anonymous block, and its `value`. The value is `None` (`Empty`), a
  string (`Text`) or a list of child nodes (`Block`).
- `Grammar.ParsingError` (parser.py:61-62, raised at 79 and 102-104): the kind of
  error, a stray `}` or an unexpected end of file, and the 1-based line number
  that the message reports.
- `Arena.Cell` and `Arena.Slot` (parser.py:7-13, 64-66): a node object with its
  `parent` as the index of another cell, and its list value as the indices of
  its children.

### A key line followed by a block

One might expect a key line followed by a `{` line to be read as a keyed
block, so that `"foo\n{\na b\n}\n"` would dump as `"foo {\n\ta b\n}\n"`.
The code does something else:

- `_parse_line` makes every `{` a new anonymous node under the cursor. The key
  line before it stays a separate sibling with no value.
- That document is therefore written back unchanged, as `"foo\n{\n\ta b\n}\n"`.
  See `Examples.NestedExample` and `Examples.NestedDumps`.
- A keyed block is a node with both a key and a list value. `loads` never
  builds one, but `serialize` can write one (parser.py:34-35 with 21-22).
  At the root its first line is `key {`. At depth `d` the indentation
  comes twice, as `indent*d + key + " " + indent*d + "{"`
  (`Examples.KeyedBlockOpenLine`).
- `loads` reads that `key {` line back as the key `key` with the text value
  `{`. The closing `}` then is a stray close, so the text fails to load
  (`Examples.KeyedBlockRejected`).

The model follows the code.

## Model

| member | source | states |
|---|---|---|
| Strings.TrimStart | parser.py:71 | the result is a suffix of the input that does not start with whitespace, and everything it drops is whitespace |
| Strings.TrimEnd | parser.py:71 | the result is a prefix of the input that does not end with whitespace, and everything it drops is whitespace |
| Strings.Strip | parser.py:71 | a stripped line is empty or neither starts nor ends with whitespace; stripping adds no newline |
| Strings.StripSplits | parser.py:71 | every line is whitespace, then its stripped form, then whitespace |
| Strings.StripExact | parser.py:71 | stripping a text padded with whitespace on both sides gives back exactly that text, if it has no whitespace at either end |
| Strings.StripIgnoresPadding | parser.py:71 | whitespace added around a line never changes what it strips to |
| Strings.StripEmpty | parser.py:71-73 | a line strips to the empty string exactly when it is whitespace only |
| Strings.Find | parser.py:81 | no index exactly when the character is absent; otherwise the index of its first occurrence |
| Strings.SplitOnce | parser.py:81 | with no space, the line is the single part; otherwise two parts, the first without a space, that rejoin with the space to the line |
| Strings.Join | parser.py:26 | `sep.join(parts)`: the parts in order with `sep` between each two; its properties are the lemmas below |
| Strings.JoinFirst | parser.py:26 | a joined text starts with its first part |
| Strings.JoinLast | parser.py:26 | a joined text ends with its last part |
| Strings.JoinAppend | parser.py:26 | joining two non-empty lists of pieces is joining each and putting the separator between |
| Strings.SplitAll | parser.py:98 | at least one piece; no piece holds the separator; the pieces rejoined are the text |
| Strings.SplitAllJoin | parser.py:98 | splitting pieces that were joined gives them back |
| Strings.SplitLines | parser.py:98 | no line holds a newline; the lines rejoined are the text, with or without a final newline |
| Strings.SplitLinesJoin | parser.py:98 | splitting lines that were joined gives them back, except for a final empty line |
| Strings.Repeat | parser.py:21 | the indentation string is made only of characters of `indent` |
| Strings.RepeatLength | parser.py:21 | `indent * n` is `n * len(indent)` characters long |
| Strings.RepeatAdd | parser.py:21 | `indent * (m + n)` is `indent * m` followed by `indent * n`, and `indent * 1` is `indent`, so `indent * n` is `n` copies of `indent` |
| Strings.RepeatSpace | parser.py:21 | a whitespace indent without newlines, repeated, is still whitespace without newlines |
| Tree.SerializeValue | parser.py:15-26 | `_serialize_value`: the empty string for no value, the text itself, or a block's `{` line, its children's serializations one level deeper and its `}` line, joined by `eol`, followed by one more `eol` |
| Tree.SerializeAll | parser.py:23-24 | one serialization per child, at the given level, in order |
| Tree.Serialize | parser.py:28-39 | a node with a key and a value is its indentation, key, a space and its value's text; a bare key is its indentation and key; an anonymous node is its value's text alone |
| Tree.SerializeRoot | parser.py:47-50 | the root's `serialize`: its children's serializations, at the root's level, joined by `eol`, with no braces, no key and no final `eol` |
| Tree.SerializeBlockBraces | parser.py:21-26 | a block's text starts with its indented `{` line and ends with its indented `}` line and a line end |
| Tree.SerializeKeyFirst | parser.py:34-37 | a keyed node's text starts with its indentation and its key |
| Tree.JoinBlock | parser.py:21-26 | a block's text (its opening brace line, children and closing line, joined, then one more line end) is the join of its lines with an empty last line |
| Tree.SerializeLines | parser.py:28-39 | `serialize` of a node is its lines joined by `eol`: a key line, or a block opening line, its children one level deeper, a closing line and an empty line |
| Tree.SerializeAllLines | parser.py:22-24 | the children's serializations, joined, are their lines joined |
| Tree.SerializeRootLines | parser.py:47-50 | the root writes only its children's lines, joined, with no braces and no key |
| Grammar.Classify | parser.py:72-85 | blank, `{` and `}` exactly for those lines; otherwise a key without a space, with no value exactly when the line has no space, else the line is key, space, value |
| Grammar.Read | parser.py:70-71 | how `_parse_line` reads a line: it strips the line and then classifies it |
| Grammar.Push | parser.py:64-68 | adding a node to the innermost open block leaves the depth unchanged |
| Grammar.Step | parser.py:70-86 | a line fails exactly when it is a `}` at the root; `{` goes one level deeper, `}` one level up, and any other line stays at the same depth |
| Grammar.Advance | parser.py:98-99 | an earlier error is kept; a new error is a stray `}` reported at this line's number |
| Grammar.Feed | parser.py:98-99 | an error is a stray `}` whose 1-based line number lies within the lines fed |
| Grammar.Loads | parser.py:94-106 | an unclosed block is reported at the last line; a stray `}` lies within the text's lines |
| Grammar.Dumps | parser.py:108-109 | `dumps`: the root's `serialize` at depth 0 |
| Grammar.FeedAppend | parser.py:98-99 | feeding two runs of lines is feeding the first and then, unless it failed, the second |
| Grammar.FeedPrefix | parser.py:98-99 | feeding one more line of a list is one more `Advance` |
| Grammar.FeedStopsAtError | parser.py:98-99 | an error on the first lines is the error of the whole input; later lines are not read |
| Grammar.StrayCloseReported | parser.py:76-79 | every error names a `}` line that was read while the cursor was at the root |
| Grammar.StrayCloseDetected | parser.py:76-79 | conversely, a `}` read at the root is reported at its own line number |
| Grammar.BlankLineIgnored | parser.py:71-73 | a line reads as blank, and so is ignored, exactly when it is whitespace only |
| Grammar.IndentIgnored | parser.py:71 | whitespace before or after a line never changes how the line reads |
| RoundTrip.Parsed | parser.py:80-85 | every node of the shape the parser builds can be serialized |
| RoundTrip.AllParsed | parser.py:80-85 | every list of such nodes can be serialized |
| RoundTrip.BareKeyLine | parser.py:82-83 | a stripped line without a space, other than a brace, is a well-formed bare key |
| RoundTrip.KeyValueLine | parser.py:84-85 | a stripped line cut at its first space gives a well-formed key and value |
| RoundTrip.ClassifyParsed | parser.py:80-85 | a stripped key line adds a node of the parsed shape |
| RoundTrip.ReadParsed | parser.py:70-85 | every key line of an input, whatever its padding, adds a node of the parsed shape |
| RoundTrip.ReadAllParsed | parser.py:98-99 | every key line among a text's lines adds a node of the parsed shape |
| RoundTrip.StepParsed | parser.py:70-86 | a line keeps every open block of the parsed shape |
| RoundTrip.FeedParsed | parser.py:98-99 | feeding lines keeps every open block of the parsed shape |
| RoundTrip.LoadsParsed | parser.py:94-106 | `loads` only ever builds trees of the parsed shape |
| RoundTrip.CloseFromParsed | parser.py:74-75 | the tree of a parser state, open blocks included, is of the parsed shape |
| RoundTrip.FirstSpace | parser.py:81 | cutting `k + " " + v`, with no space in `k`, at its first space gives `k` and `v` |
| RoundTrip.ReadBareKeyLine | parser.py:36-37 | an indented bare key line as `serialize` writes it reads back as that key with no value |
| RoundTrip.ReadKeyValueLine | parser.py:34-35 | an indented key/value line as `serialize` writes it reads back as that key and value |
| RoundTrip.ReadBraceLine | parser.py:22-25 | an indented brace line reads back as that brace |
| RoundTrip.ReadBlockLines | parser.py:21-26 | an anonymous block's lines read as an open brace, its children's lines, a close brace and a blank line |
| RoundTrip.ReadLines | parser.py:28-39 | whatever the indentation, the lines written for a parsed node are read as its kinds of line |
| RoundTrip.ReadChildLines | parser.py:22-24 | the lines written for a list of parsed nodes are read as their kinds of line, in order |
| RoundTrip.FeedBraces | parser.py:74-79 | a `{`, lines that fill the new block, a `}` and a blank line add that block at the cursor |
| RoundTrip.FeedKinds | parser.py:70-86 | feeding the lines of a parsed node adds exactly that node at the cursor |
| RoundTrip.FeedChildKinds | parser.py:98-99 | feeding the lines of parsed nodes adds them, in order, at the cursor |
| RoundTrip.LinesNoNewline | parser.py:28-39 | with a whitespace indent, no written line of a parsed node holds a newline |
| RoundTrip.FeedTrailingBlank | parser.py:72-73 | a final empty line changes nothing |
| RoundTrip.DumpedKinds | parser.py:98 | the lines that `splitlines` cuts from a dumped tree are fed as that tree's kinds of line |
| RoundTrip.RoundTrip | parser.py:108-109 | a tree of the parsed shape, dumped with '\n' line ends and any whitespace indent, loads back as the same tree |
| RoundTrip.LoadsDumpsLoads | parser.py:94-109 | whatever `loads` returns, dumped with the default indent and line end, loads back the same |
| Arena.Materialize | parser.py:7-13 | the tree an object stands for has the object's key; its value (none, the text, or a block of its children's trees, in order) is stated by `MaterializeLeaf` and `MaterializeKids` |
| Arena.MaterializeLeaf | parser.py:7-13 | an object without children stands for its key with no value or with its text |
| Arena.MaterializeKids | parser.py:7-13 | a block object stands for its key and the trees of its children, in order |
| Arena.AboveLe | parser.py:64-66 | an object's ancestors were created before it |
| Arena.AboveRoot | parser.py:64-66 | following parent links from any object reaches the root |
| Arena.OrphanRejected | parser.py:64-66 | a non-root object without a parent is not a tree the parser can build |
| Arena.AboveParent | parser.py:64-66 | the parent of an ancestor is an ancestor |
| Arena.MaterializeFrame | parser.py:66 | changing one object changes the tree of no object other than that object and its ancestors |
| Arena.ForestFrame | parser.py:66 | changing one object leaves the trees of objects outside its ancestry as they were |
| Arena.Insert | parser.py:64-68 | `_insert_node` on the arena: exactly one object more, the new one last, the cursor's children extended by it and every other object unchanged |
| Arena.InsertRooted | parser.py:64-66 | `_insert_node` never makes an object the root cannot reach |
| Arena.InsertLinked | parser.py:64-68 | appending a fresh child to a block keeps the parent links consistent and changes no other existing object |
| Arena.SpineOrder | parser.py:74-79 | no block is open twice |
| Arena.ShapeCursor | parser.py:101 | the cursor is a block object, and it has no parent exactly when no block is open |
| Arena.InsertKeepsOpen | parser.py:66 | inserting under the cursor leaves every open block above it as it was |
| Arena.InsertKeepsKids | parser.py:66 | inserting under the cursor leaves its earlier children as they were |
| Arena.ShapeLeaf | parser.py:80-85 | a key line's new leaf is the reference parser's new node at the cursor |
| Arena.ShapeOpen | parser.py:74-75 | a `{` line's new empty block, now the cursor, is the reference parser's new open block |
| Arena.ShapeClose | parser.py:76-77 | a `}` line below the root moves the cursor to its parent and closes the reference parser's innermost block |
| Arena.ForestCloseFrom | parser.py:70-86 | the tree under each open block is the reference parser's tree, open blocks included |
| Parser.OpenEffect | parser.py:74-75 | after a `{`, the objects with the new block as cursor stand for the reference state one level deeper |
| Parser.CloseEffect | parser.py:76-79 | the cursor has no parent exactly at the root; otherwise moving to its parent stands for the reference state after `}` |
| Parser.EntryEffect | parser.py:80-85 | after a key line, the objects with the new leaf stand for the reference state with that node added |
| Parser.StructTextParser.constructor | parser.py:54-59 | a new parser has an empty root as its cursor and an empty document |
| Parser.StructTextParser.InsertNode | parser.py:64-68 | a new object with parent `cur` is appended to the objects and to the children of `cur`; the cursor stays |
| Parser.StructTextParser.OpenBlock | parser.py:74-75 | the `{` branch: the invariant holds and a new empty block is open |
| Parser.StructTextParser.CloseBlock | parser.py:76-79 | the `}` branch: at the root, the error at line `il + 1` and no change; otherwise the innermost block is closed into its parent |
| Parser.StructTextParser.AddEntry | parser.py:80-85 | the key-line branch: the key and value the line classifies to are added at the cursor |
| Parser.StructTextParser.ParseLine | parser.py:70-86 | one line has exactly the reference parser's effect, and fails exactly where it fails |
| Parser.StructTextParser.Document | parser.py:57-58 | the tree under the root is the reference parser's tree, of the parsed shape |
| Parser.StructTextParser.Dumps | parser.py:108-109 | with '\n' line ends and whitespace indent, the dumped text loads back as the document |
| Parser.StructTextParser.Loads | parser.py:94-106 | succeeds exactly when the reference `loads` does, with the same tree, and otherwise fails with the same error |
| Examples.LinesOf | parser.py:98 | lines each followed by a newline split back into those lines |
| Examples.OneLine | parser.py:98 | a single line ended by a newline is one line |
| Examples.LoadsOneEntry | parser.py:94-106 | a one-line text whose line reads as an entry loads as that one node |
| Examples.BareKeyLoads | parser.py:82-83 | `key + "\n"` loads as one node with that key and no value |
| Examples.KeyValueLoads | parser.py:84-85 | `key + " " + value + "\n"` loads as one node with that key and text value |
| Examples.BareKeyExample | parser.py:82-83 | `"foo\n"` loads as the key `foo` with no value |
| Examples.KeyValueExample | parser.py:81-85 | `"foo bar baz\n"` loads as the key `foo` with the value `bar baz` |
| Examples.EmptyExample | parser.py:94-106 | the empty text loads as an empty document |
| Examples.UnclosedExample | parser.py:101-104 | `"{\n"` fails as an unclosed block at line 1 |
| Examples.StrayCloseExample | parser.py:76-79 | `"}\n"` fails as a stray `}` at line 1 |
| Examples.BareKeyDumps | parser.py:47-50 | a document of one bare key dumps as the key with no line end |
| Examples.EmptyDumps | parser.py:47-50 | an empty document dumps as the empty text |
| Examples.RootDumps | parser.py:47-50 | a bare key and a block after it dump as the key, a line end, then the block |
| Examples.KeyThenBlock | parser.py:74-75 | a key line followed by a block loads as two siblings, not as a keyed block |
| Examples.LeafBlockDumps | parser.py:21-26 | a block holding one key/value leaf dumps as `{`, the indented leaf line and `}`, each ended by a newline |
| Examples.NestedExample | parser.py:70-86 | `"foo\n{\na b\n}\n"` loads as the key `foo` and an anonymous block holding `a b` |
| Examples.NestedDumps | parser.py:108-109 | that document dumps as `"foo\n{\n\ta b\n}\n"` |
| Examples.KeyedBlockOpenLine | parser.py:34-35 | at depth `d` a keyed block's first line is `indent*d + key + " " + indent*d + "{"` |
| Examples.KeyedBlockDumps | parser.py:34-35 | a keyed empty block dumps as `key {`, a newline, `}` and a newline |
| Examples.KeyedBlockRejected | parser.py:80-85 | that text fails to load: `key {` reads as a key with the value `{`, and the `}` is then a stray close at line 2 |
| Examples.KeyedBlockExample | parser.py:108-109 | the dump of a keyed block does not load back |

## Left out

- `load` and `dump` (parser.py:88-92, 111-114) only read or write a file around `loads` and `dumps`. File I/O is outside the model.
- Whitespace is a fixed ASCII set: space, tab, `\n`, `\r`, `\v` and `\f`. Python's `str.strip` also removes Unicode spaces and the separators `\x1c` to `\x1f`.
- Lines end only at '\n'. Python's `splitlines` also breaks at '\r', '\r\n', '\v', '\f', '\x1c' to '\x1e', '\x85', U+2028 and U+2029.
- Python's exceptions become values. `ParsingError` is a datatype with its kind and its 1-based line number, and its message text is not modelled.
- Serializing a node with neither a key nor a value raises `TypeError` in Python. The model's serializer requires `Renderable` instead. `loads` never builds such a node (`RoundTrip.Parsed`).
- `_cur_key` is only ever assigned `None` and is never read, so it is not modelled.
- The root node's key `"root"` is never written by the root's own `serialize`. The model's root cell has no key.
- The `__main__` block does nothing. `**kw` and `*ka` only pass arguments on to `object`.
- Parser.StructTextParser.CloseBlock: on a stray `}` the source first sets `_cur_node` to `None` and then raises. The model returns the error and leaves the cursor where it was. `loads` discards the parser when it raises, so the result is unaffected.
- RoundTrip.RoundTrip: proved only for '\n' line ends and for an indent made of whitespace other than '\n'. With other choices the text may split differently, or a line's indentation may not be stripped.
- RoundTrip.RoundTrip: proved only for trees of the shape `loads` builds. A keyed block, a key with whitespace in it, or text with whitespace at either end does not reload as written (`Examples.KeyedBlockRejected`).
- Parser.StructTextParser.Dumps: states only the round trip. The text itself is `Tree.SerializeRoot` of `Document()`, about which `Tree.SerializeRootLines` states the rest.
- Node objects are cells of an arena, and the cursor is an index into it. Object identity, and Python's `is` test at parser.py:101, become a comparison of indices. The root is cell 0.
