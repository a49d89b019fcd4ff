/**
 * The parser's node objects as an arena: `a[i]` is the object numbered `i`
 * in order of creation (0 is the root), its `value` list holds the numbers
 * of its children and its `parent` the number of its parent.  `Materialize`
 * reads the tree of values the objects stand for.
 *
 * `Shape(a, spine, frames)` ties an arena to the state of the reference
 * parser in `Grammar`: `spine` lists the open blocks from the root to the
 * cursor, the closed children of each open block read as its frame, and its
 * last child is the next open block.
 */
module Arena {
  import opened Wrappers
  import opened Tree
  import opened Grammar

  /** A node object's `value`: `None`, a string, or its list of children. */
  datatype Slot = NoValue | Str(s: string) | Kids(ids: seq<nat>)

  /** A node object: its `key`, its `value` and its `parent`. */
  datatype Cell = Cell(key: Option<string>, slot: Slot, parent: Option<nat>)

  predicate Increasing(ids: seq<nat>) {
    forall k1, k2 | 0 <= k1 < k2 < |ids| :: ids[k1] < ids[k2]
  }

  /** The children of `a[i]` were created after it, in order, and point back to it. */
  predicate KidsOk(a: seq<Cell>, i: nat)
    requires i < |a| && a[i].slot.Kids?
  {
    var ids := a[i].slot.ids;
    Increasing(ids) && forall k | 0 <= k < |ids| :: i < ids[k] < |a| && a[ids[k]].parent == Some(i)
  }

  predicate Linked(a: seq<Cell>) {
    (forall i | 0 <= i < |a| && a[i].parent.Some? :: a[i].parent.value < i) &&
    (forall i {:trigger KidsOk(a, i)} | 0 <= i < |a| && a[i].slot.Kids? :: KidsOk(a, i))
  }

  /** The object `a[i]` has a parent block that lists it among its children. */
  predicate Listed(a: seq<Cell>, i: nat)
    requires i < |a|
  {
    a[i].parent.Some? && a[i].parent.value < |a| &&
    a[a[i].parent.value].slot.Kids? && i in a[a[i].parent.value].slot.ids
  }

  /** No object is cut off from the root: the root has no parent, every other object is listed by its parent. */
  predicate Rooted(a: seq<Cell>) {
    |a| > 0 && a[0].parent.None? &&
    forall i {:trigger Listed(a, i)} | 0 < i < |a| :: Listed(a, i)
  }

  /** The tree of values the object `a[i]` stands for. */
  function Materialize(a: seq<Cell>, i: nat): (r: Node)
    requires Linked(a) && i < |a|
    ensures r.key == a[i].key
    decreases |a| - i
  {
    Node(a[i].key,
      match a[i].slot
      case NoValue => Empty
      case Str(s) => Text(s)
      case Kids(ids) =>
        assert KidsOk(a, i);
        Block(seq(|ids|, k requires 0 <= k < |ids| => Materialize(a, ids[k]))))
  }

  /** A childless object stands for its key with no value or with its text. */
  lemma MaterializeLeaf(a: seq<Cell>, i: nat)
    requires Linked(a) && i < |a| && !a[i].slot.Kids?
    ensures Materialize(a, i).value == if a[i].slot.Str? then Text(a[i].slot.s) else Empty
  {
  }

  /** The trees of the objects numbered `ids`, in order. */
  function Forest(a: seq<Cell>, ids: seq<nat>): (r: seq<Node>)
    requires Linked(a) && forall k | 0 <= k < |ids| :: ids[k] < |a|
    ensures |r| == |ids|
  {
    seq(|ids|, k requires 0 <= k < |ids| => Materialize(a, ids[k]))
  }

  lemma MaterializeKids(a: seq<Cell>, i: nat)
    requires Linked(a) && i < |a| && a[i].slot.Kids?
    ensures KidsOk(a, i) && Materialize(a, i) == Node(a[i].key, Block(Forest(a, a[i].slot.ids)))
  {
    assert KidsOk(a, i);
  }

  lemma SnocOf<T>(l: seq<T>, init: seq<T>, x: T)
    requires |l| == |init| + 1 && l[|init|] == x
    requires forall k: nat | k < |init| :: l[k] == init[k]
    ensures l == init + [x]
  {
  }

  lemma ForestSnoc(a: seq<Cell>, ids: seq<nat>)
    requires Linked(a) && ids != [] && forall k | 0 <= k < |ids| :: ids[k] < |a|
    ensures Forest(a, ids) == Forest(a, ids[..|ids| - 1]) + [Materialize(a, ids[|ids| - 1])]
  {
    var init := ids[..|ids| - 1];
    var l := Forest(a, ids);
    var f := Forest(a, init);
    assert |l| == |f| + 1;
    assert forall k: nat | k < |f| :: l[k] == f[k];
    assert l[|f|] == Materialize(a, ids[|ids| - 1]);
    SnocOf(l, f, Materialize(a, ids[|ids| - 1]));
  }

  /** `x` is `y` or one of its ancestors. */
  predicate Above(a: seq<Cell>, x: nat, y: nat)
    requires Linked(a) && y < |a|
    decreases y
  {
    x == y || (a[y].parent.Some? && Above(a, x, a[y].parent.value))
  }

  lemma {:induction false} AboveLe(a: seq<Cell>, x: nat, y: nat)
    requires Linked(a) && y < |a|
    ensures Above(a, x, y) ==> x <= y
    decreases y
  {
    if a[y].parent.Some? {
      AboveLe(a, x, a[y].parent.value);
    }
  }

  /** Following parent links from any object reaches the root. */
  lemma {:induction false} AboveRoot(a: seq<Cell>, i: nat)
    requires Linked(a) && Rooted(a) && i < |a|
    ensures Above(a, 0, i)
    decreases i
  {
    if i > 0 {
      assert Listed(a, i);
      AboveRoot(a, a[i].parent.value);
    }
  }

  /** An object with no parent besides the root breaks the tree. */
  lemma OrphanRejected()
    ensures !Rooted([Cell(None, Kids([]), None), Cell(Some("x"), NoValue, None)])
  {
    var a := [Cell(None, Kids([]), None), Cell(Some("x"), NoValue, None)];
    assert !Listed(a, 1);
  }

  /** The parent of an ancestor is an ancestor. */
  lemma {:induction false} AboveParent(a: seq<Cell>, x: nat, y: nat)
    requires Linked(a) && x < |a| && y < |a| && a[x].parent.Some?
    ensures Above(a, x, y) ==> Above(a, a[x].parent.value, y)
    decreases y
  {
    if x != y && a[y].parent.Some? {
      AboveParent(a, x, a[y].parent.value);
    }
  }

  /** `b` is `a`, possibly grown, with at most the object `m` changed. */
  predicate AgreeExcept(a: seq<Cell>, b: seq<Cell>, m: nat) {
    |a| <= |b| && forall j | 0 <= j < |a| && j != m :: b[j] == a[j]
  }

  /** Changing an object changes the tree of no object but its ancestors. */
  lemma {:induction false} MaterializeFrame(a: seq<Cell>, b: seq<Cell>, m: nat, i: nat)
    requires Linked(a) && Linked(b) && AgreeExcept(a, b, m) && m < |a|
    requires i < |a| && !Above(a, i, m)
    ensures Materialize(b, i) == Materialize(a, i)
    decreases |a| - i
  {
    assert b[i] == a[i];
    if a[i].slot.Kids? {
      var ids := a[i].slot.ids;
      assert KidsOk(a, i);
      forall k | 0 <= k < |ids| ensures Materialize(b, ids[k]) == Materialize(a, ids[k]) {
        AboveParent(a, ids[k], m);
        MaterializeFrame(a, b, m, ids[k]);
      }
      MaterializeKids(a, i);
      MaterializeKids(b, i);
      assert Forest(b, ids) == Forest(a, ids);
    } else {
      assert Materialize(b, i).value == Materialize(a, i).value;
    }
  }

  lemma ForestFrame(a: seq<Cell>, b: seq<Cell>, m: nat, ids: seq<nat>)
    requires Linked(a) && Linked(b) && AgreeExcept(a, b, m) && m < |a|
    requires forall k | 0 <= k < |ids| :: ids[k] < |a| && !Above(a, ids[k], m)
    ensures Forest(b, ids) == Forest(a, ids)
  {
    forall k | 0 <= k < |ids| ensures Materialize(b, ids[k]) == Materialize(a, ids[k]) {
      MaterializeFrame(a, b, m, ids[k]);
    }
  }

  /** `_insert_node`: a new object `cell`, appended to the children of `c`. */
  function Insert(a: seq<Cell>, c: nat, cell: Cell): (b: seq<Cell>)
    requires c < |a| && a[c].slot.Kids?
    ensures |b| == |a| + 1 && b[|a|] == cell && AgreeExcept(a, b, c)
    ensures b[c].key == a[c].key && b[c].parent == a[c].parent && b[c].slot == Kids(a[c].slot.ids + [|a|])
  {
    a[c := a[c].(slot := Kids(a[c].slot.ids + [|a|]))] + [cell]
  }

  /** A new object whose parent is `c` and that has no children yet. */
  predicate Fresh(cell: Cell, c: nat) {
    cell.parent == Some(c) && (cell.slot.Kids? ==> cell.slot.ids == [])
  }

  lemma InsertLinked(a: seq<Cell>, c: nat, cell: Cell)
    requires Linked(a) && c < |a| && a[c].slot.Kids? && Fresh(cell, c)
    ensures Linked(Insert(a, c, cell)) && AgreeExcept(a, Insert(a, c, cell), c)
  {
    var b := Insert(a, c, cell);
    forall i | 0 <= i < |b| && b[i].slot.Kids? ensures KidsOk(b, i) {
      if i < |a| {
        assert KidsOk(a, i);
      }
    }
  }

  /** `_insert_node` never makes an object the root cannot reach. */
  lemma InsertRooted(a: seq<Cell>, c: nat, cell: Cell)
    requires Rooted(a) && c < |a| && a[c].slot.Kids? && cell.parent == Some(c)
    ensures Rooted(Insert(a, c, cell))
  {
    var b := Insert(a, c, cell);
    forall i | 0 < i < |b| ensures Listed(b, i) {
      if i < |a| {
        assert Listed(a, i);
        var p := a[i].parent.value;
        assert b[i] == (if i == c then a[i].(slot := b[c].slot) else a[i]);
        assert a[p].slot.ids <= b[p].slot.ids;
      } else {
        assert b[c].slot.ids[|b[c].slot.ids| - 1] == i;
      }
    }
  }

  /** The open block at depth `j < |spine| - 1`. */
  ghost predicate OpenAt(a: seq<Cell>, spine: seq<nat>, frames: Frames, j: nat)
    requires Linked(a) && j + 1 < |spine| == |frames| && spine[j] < |a| && a[spine[j]].slot.Kids?
  {
    var ids := a[spine[j]].slot.ids;
    assert KidsOk(a, spine[j]);
    |ids| > 0 && ids[|ids| - 1] == spine[j + 1] && Forest(a, ids[..|ids| - 1]) == frames[j]
  }

  /** The children of `a[i]` read as `f`. */
  ghost predicate ChildrenAre(a: seq<Cell>, i: nat, f: seq<Node>)
    requires Linked(a) && i < |a| && a[i].slot.Kids?
  {
    assert KidsOk(a, i);
    Forest(a, a[i].slot.ids) == f
  }

  /** `spine` is a chain of blocks from the root down, each the parent of the next. */
  ghost predicate Spine(a: seq<Cell>, spine: seq<nat>) {
    && Linked(a) && Rooted(a)
    && |spine| > 0 && spine[0] == 0
    && (forall j | 0 <= j < |spine| :: spine[j] < |a| && a[spine[j]].slot.Kids?)
    && (forall j {:trigger a[spine[j]].parent} | 0 < j < |spine| ::
          a[spine[j]].parent == Some(spine[j - 1]) && a[spine[j]].key.None?)
  }

  ghost predicate Shape(a: seq<Cell>, spine: seq<nat>, frames: Frames) {
    && Spine(a, spine) && |spine| == |frames|
    && (forall j {:trigger OpenAt(a, spine, frames, j)} | 0 <= j < |spine| - 1 :: OpenAt(a, spine, frames, j))
    && ChildrenAre(a, spine[|spine| - 1], frames[|frames| - 1])
  }

  lemma {:induction false} SpineLess(a: seq<Cell>, spine: seq<nat>, i: nat, j: nat)
    requires Spine(a, spine) && i < j < |spine|
    ensures spine[i] < spine[j]
    decreases j - i
  {
    assert a[spine[j]].parent == Some(spine[j - 1]);
    if i + 1 < j {
      SpineLess(a, spine, i, j - 1);
    }
  }

  /** Every ancestor of an open block is an open block: `spine[i]`. */
  lemma {:induction false} SpineAbove(a: seq<Cell>, spine: seq<nat>, x: nat, l: nat)
    returns (i: nat)
    requires Spine(a, spine) && l < |spine|
    ensures Above(a, x, spine[l]) ==> i <= l && spine[i] == x
    decreases l
  {
    i := l;
    if l > 0 && x != spine[l] {
      assert a[spine[l]].parent == Some(spine[l - 1]);
      i := SpineAbove(a, spine, x, l - 1);
    }
  }

  /** No block is open twice. */
  lemma SpineOrder(a: seq<Cell>, spine: seq<nat>, i: nat, j: nat)
    requires Spine(a, spine) && i < |spine| && j < |spine|
    ensures spine[i] == spine[j] ==> i == j
  {
    if i < j {
      SpineLess(a, spine, i, j);
    } else if j < i {
      SpineLess(a, spine, j, i);
    }
  }

  /** The only child of the open block at depth `j` that is an ancestor of the cursor is the next open block. */
  lemma ChildOnSpine(a: seq<Cell>, spine: seq<nat>, j: nat, x: nat)
    requires Spine(a, spine) && j + 1 < |spine| && x < |a| && a[x].parent == Some(spine[j])
    ensures Above(a, x, spine[|spine| - 1]) ==> x == spine[j + 1]
  {
    var i := SpineAbove(a, spine, x, |spine| - 1);
    if Above(a, x, spine[|spine| - 1]) {
      assert i > 0;
      assert a[spine[i]].parent == Some(spine[i - 1]);
      SpineOrder(a, spine, i - 1, j);
    }
  }

  /** Where the cursor is: at the root exactly when no block is open. */
  lemma ShapeCursor(a: seq<Cell>, spine: seq<nat>, frames: Frames)
    requires Shape(a, spine, frames)
    ensures var c := spine[|spine| - 1];
      (c == 0 <==> |spine| == 1) && (a[c].parent.None? <==> |spine| == 1)
  {
    if |spine| > 1 {
      SpineLess(a, spine, 0, |spine| - 1);
      assert a[spine[|spine| - 1]].parent == Some(spine[|spine| - 2]);
    }
  }

  /** Inserting below the cursor leaves every open block above it as it was. */
  lemma InsertKeepsOpen(a: seq<Cell>, spine: seq<nat>, frames: Frames, cell: Cell, j: nat)
    requires Shape(a, spine, frames) && j + 1 < |spine|
    requires Fresh(cell, spine[|spine| - 1])
    ensures var b := Insert(a, spine[|spine| - 1], cell);
      Linked(b) && b[spine[j]] == a[spine[j]] && OpenAt(b, spine, frames, j)
  {
    var c := spine[|spine| - 1];
    var b := Insert(a, c, cell);
    InsertLinked(a, c, cell);
    SpineLess(a, spine, j, |spine| - 1);
    assert b[spine[j]] == a[spine[j]] by {
      assert AgreeExcept(a, b, c) && spine[j] != c && spine[j] < |a|;
    }
    assert OpenAt(a, spine, frames, j);
    var ids := a[spine[j]].slot.ids;
    assert KidsOk(a, spine[j]);
    var closed := ids[..|ids| - 1];
    forall k | 0 <= k < |closed| ensures closed[k] < |a| && !Above(a, closed[k], c) {
      ChildOnSpine(a, spine, j, closed[k]);
      assert ids[k] < ids[|ids| - 1];
    }
    ForestFrame(a, b, c, closed);
  }

  /** The cursor's old children read as before. */
  lemma InsertKeepsKids(a: seq<Cell>, spine: seq<nat>, frames: Frames, cell: Cell)
    requires Shape(a, spine, frames) && Fresh(cell, spine[|spine| - 1])
    ensures var c := spine[|spine| - 1]; var b := Insert(a, c, cell);
      Linked(b) && KidsOk(a, c) &&
      Forest(b, a[c].slot.ids) == frames[|frames| - 1] &&
      b[c].slot.ids == a[c].slot.ids + [|a|]
  {
    var c := spine[|spine| - 1];
    var b := Insert(a, c, cell);
    InsertLinked(a, c, cell);
    assert ChildrenAre(a, c, frames[|frames| - 1]);
    var ids := a[c].slot.ids;
    assert KidsOk(a, c);
    forall k | 0 <= k < |ids| ensures ids[k] < |a| && !Above(a, ids[k], c) {
      AboveLe(a, ids[k], c);
    }
    ForestFrame(a, b, c, ids);
  }

  /** A key line: its leaf is appended to the cursor's children. */
  lemma ShapeLeaf(a: seq<Cell>, spine: seq<nat>, frames: Frames, cell: Cell, n: Node)
    requires Shape(a, spine, frames) && Fresh(cell, spine[|spine| - 1]) && !cell.slot.Kids?
    requires n == Node(cell.key, if cell.slot.Str? then Text(cell.slot.s) else Empty)
    ensures Shape(Insert(a, spine[|spine| - 1], cell), spine, Push(frames, n))
  {
    var c := spine[|spine| - 1];
    var b := Insert(a, c, cell);
    var f := Push(frames, n);
    InsertRooted(a, c, cell);
    InsertKeepsKids(a, spine, frames, cell);
    forall j | 0 <= j < |spine| - 1 ensures OpenAt(b, spine, f, j) {
      InsertKeepsOpen(a, spine, frames, cell, j);
    }
    ForestSnoc(b, b[c].slot.ids);
    assert b[c].slot.ids[..|b[c].slot.ids| - 1] == a[c].slot.ids;
    assert ChildrenAre(b, c, f[|f| - 1]);
  }

  /** A `{` line: a new empty block is appended to the cursor's children and opened. */
  lemma ShapeOpen(a: seq<Cell>, spine: seq<nat>, frames: Frames)
    requires Shape(a, spine, frames)
    ensures var c := spine[|spine| - 1];
      Shape(Insert(a, c, Cell(None, Kids([]), Some(c))), spine + [|a|], frames + [[]])
  {
    var c := spine[|spine| - 1];
    var cell := Cell(None, Kids([]), Some(c));
    var b := Insert(a, c, cell);
    var s, f := spine + [|a|], frames + [[]];
    InsertRooted(a, c, cell);
    InsertKeepsKids(a, spine, frames, cell);
    forall j | 0 <= j < |s| - 1 ensures OpenAt(b, s, f, j) {
      if j < |spine| - 1 {
        InsertKeepsOpen(a, spine, frames, cell, j);
      } else {
        assert b[c].slot.ids[..|b[c].slot.ids| - 1] == a[c].slot.ids;
      }
    }
    assert ChildrenAre(b, |a|, []);
  }

  /** A `}` line below the root: the cursor's block is closed, the cursor moves to its parent. */
  lemma ShapeClose(a: seq<Cell>, spine: seq<nat>, frames: Frames)
    requires Shape(a, spine, frames) && |spine| > 1
    ensures a[spine[|spine| - 1]].parent == Some(spine[|spine| - 2])
    ensures var l := |frames| - 1;
      Shape(a, spine[..|spine| - 1], Push(frames[..l], Node(None, Block(frames[l]))))
  {
    var l := |spine| - 1;
    var s, f := spine[..l], Push(frames[..l], Node(None, Block(frames[l])));
    assert OpenAt(a, spine, frames, l - 1);
    var p := spine[l - 1];
    var ids := a[p].slot.ids;
    assert KidsOk(a, p);
    ForestSnoc(a, ids);
    MaterializeKids(a, spine[l]);
    assert ChildrenAre(a, spine[l], frames[l]);
    assert ChildrenAre(a, s[|s| - 1], f[|f| - 1]);
    forall j | 0 <= j < |s| - 1 ensures OpenAt(a, s, f, j) {
      assert OpenAt(a, spine, frames, j);
    }
  }

  /** The tree the objects hold is the reference parser's tree, open blocks included. */
  lemma {:induction false} ForestCloseFrom(a: seq<Cell>, spine: seq<nat>, frames: Frames, j: nat)
    requires Shape(a, spine, frames) && j < |spine|
    ensures KidsOk(a, spine[j]) && Forest(a, a[spine[j]].slot.ids) == CloseFrom(frames, j)
    decreases |spine| - j
  {
    assert KidsOk(a, spine[j]);
    if j < |spine| - 1 {
      assert OpenAt(a, spine, frames, j);
      ForestSnoc(a, a[spine[j]].slot.ids);
      MaterializeKids(a, spine[j + 1]);
      ForestCloseFrom(a, spine, frames, j + 1);
    } else {
      assert ChildrenAre(a, spine[j], frames[j]);
    }
  }
}
