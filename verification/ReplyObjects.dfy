/**
 The reply objects the reader allocates. Pointers are indices into a growing heap of cells and
 NULL is -1: an aggregate is linked into its parent when it is created and filled afterwards.
 The lemmas say how each allocation and each link changes the layout of a half-built reply.
 */
module ReplyObjects {
  import opened Bytes
  import opened Resp

  const NULL: int := -1

  datatype Cell = LeafCell(value: Reply) | AggregateCell(kind: ItemType, element: seq<int>)

  /** An aggregate being filled: what it is, how many elements it announced, and those complete so far. */
  datatype Frame = Frame(kind: ItemType, count: nat, done: seq<Reply>)

  /** The open aggregates of a half-built reply, innermost on top. */
  datatype Frames = Bottom | Over(below: Frames, top: Frame) {
    function Depth(): nat { if Bottom? then 0 else below.Depth() + 1 }
  }

  // ----- layout of complete replies -----

  /** Consecutive replies in the heap: their root pointers and all their cells. */
  datatype Layout = Layout(slots: seq<int>, cells: seq<Cell>)

  /** The cells of a complete reply whose root is at index at: the parent first, then its elements in order. */
  function Cells(r: Reply, at: nat): (h: seq<Cell>)
    ensures |h| >= 1
    decreases r, 0
  {
    if r.Aggregate? then
      var l := LayoutOf(r.elements, at + 1);
      [AggregateCell(r.kind, l.slots)] + l.cells
    else [LeafCell(r)]
  }

  function LayoutOf(es: seq<Reply>, at: nat): (l: Layout)
    ensures |l.slots| == |es|
    decreases es, 1
  {
    if es == [] then Layout([], [])
    else
      var l := LayoutOf(es[..|es| - 1], at);
      AddTo(l, at, Cells(es[|es| - 1], at + |l.cells|))
  }

  /** One more object behind the others. */
  function AddTo(l: Layout, at: nat, obj: seq<Cell>): Layout {
    Layout(l.slots + [at + |l.cells|], l.cells + obj)
  }

  lemma SnocLayout(es: seq<Reply>, v: Reply, at: nat)
    ensures var l := LayoutOf(es, at);
            LayoutOf(es + [v], at) == AddTo(l, at, Cells(v, at + |l.cells|))
  {
    var all := es + [v];
    assert all[..|all| - 1] == es;
    LastLayout(all, es, v, at);
  }

  lemma LastLayout(all: seq<Reply>, es: seq<Reply>, v: Reply, at: nat)
    requires all != [] && all[..|all| - 1] == es && all[|all| - 1] == v
    ensures var l := LayoutOf(es, at); LayoutOf(all, at) == AddTo(l, at, Cells(v, at + |l.cells|))
  {
  }

  /** The object at index i is the reply r: same scalar, or same kind with each pointer to the right element. */
  ghost predicate Represents(h: seq<Cell>, i: int, r: Reply)
    decreases r
  {
    0 <= i < |h| &&
    if r.Aggregate? then
      && h[i].AggregateCell? && h[i].kind == r.kind && |h[i].element| == |r.elements|
      && forall j :: 0 <= j < |r.elements| ==> Represents(h, h[i].element[j], r.elements[j])
    else h[i] == LeafCell(r)
  }

  lemma {:induction false} CellsRepresent(h: seq<Cell>, at: nat, r: Reply)
    requires at + |Cells(r, at)| <= |h| && h[at..at + |Cells(r, at)|] == Cells(r, at)
    ensures Represents(h, at, r)
    decreases r, 0
  {
    if r.Aggregate? {
      var l := LayoutOf(r.elements, at + 1);
      SplitCells(h, at, at + 1, at + 1 + |l.cells|, [AggregateCell(r.kind, l.slots)], l.cells);
      assert h[at] == h[at..at + 1][0];
      LayoutRepresents(h, at + 1, r.elements);
    } else {
      assert h[at] == h[at..at + 1][0];
    }
  }

  lemma {:induction false} LayoutRepresents(h: seq<Cell>, at: nat, es: seq<Reply>)
    requires var l := LayoutOf(es, at); at + |l.cells| <= |h| && h[at..at + |l.cells|] == l.cells
    ensures forall j :: 0 <= j < |es| ==> Represents(h, LayoutOf(es, at).slots[j], es[j])
    decreases es, 1
  {
    if es != [] {
      var init, last := es[..|es| - 1], es[|es| - 1];
      var l := LayoutOf(init, at);
      var mid := at + |l.cells|;
      SplitCells(h, at, mid, mid + |Cells(last, mid)|, l.cells, Cells(last, mid));
      LayoutRepresents(h, at, init);
      CellsRepresent(h, mid, last);
      var p := LayoutOf(es, at).slots;
      assert p == l.slots + [mid];
      forall j | 0 <= j < |es| ensures Represents(h, p[j], es[j]) {
        if j < |init| { assert p[j] == l.slots[j] && es[j] == init[j]; }
      }
    }
  }

  lemma SplitCells(h: seq<Cell>, lo: nat, mid: nat, hi: nat, front: seq<Cell>, back: seq<Cell>)
    requires lo <= mid <= hi <= |h| && |front| == mid - lo && h[lo..hi] == front + back
    ensures h[lo..mid] == front && h[mid..hi] == back
  {
    assert h[lo..mid] == h[lo..hi][..mid - lo];
    assert h[mid..hi] == h[lo..hi][mid - lo..];
  }

  // ----- layout of half-built replies -----

  function Nulls(n: nat): (p: seq<int>)
    ensures |p| == n
  {
    seq(n, i => NULL)
  }

  /** How many elements follow the one being read. */
  function Missing(f: Frame): nat {
    if |f.done| < f.count then f.count - |f.done| - 1 else 0
  }

  /** An aggregate at index at: complete elements, the next pointer (set or NULL), k more NULLs, the elements' cells. */
  ghost function Partial(kind: ItemType, l: Layout, at: nat, k: nat, linked: bool): seq<Cell> {
    [AggregateCell(kind, l.slots + [if linked then at + 1 + |l.cells| else NULL] + Nulls(k))] + l.cells
  }

  ghost function FrameCells(f: Frame, at: nat, linked: bool): seq<Cell> {
    Partial(f.kind, LayoutOf(f.done, at + 1), at, Missing(f), linked)
  }

  /** The heap while a stack of aggregates is open: every one but the top is linked to the next. */
  ghost function HeapOf(frames: Frames, linked: bool): seq<Cell> {
    match frames
    case Bottom => []
    case Over(below, f) => HeapOf(below, true) + FrameCells(f, |HeapOf(below, true)|, linked)
  }

  /** Storing a new object's pointer in the parent's next slot links the top aggregate. */
  lemma LinkChild(below: Frames, f: Frame)
    ensures var h, at := HeapOf(Over(below, f), false), |HeapOf(below, true)|;
            && at < |h| && h[at].AggregateCell? && h[at].kind == f.kind && |f.done| < |h[at].element|
            && h[at := h[at].(element := h[at].element[|f.done| := |h|])] == HeapOf(Over(below, f), true)
  {
    var base := HeapOf(below, true);
    LinkFrame(base, f.kind, LayoutOf(f.done, |base| + 1), Missing(f));
  }

  lemma LinkFrame(base: seq<Cell>, kind: ItemType, l: Layout, k: nat)
    ensures var h, at, n := base + Partial(kind, l, |base|, k, false), |base|, |l.slots|;
            && at < |h| && h[at].AggregateCell? && h[at].kind == kind && n < |h[at].element|
            && h[at := h[at].(element := h[at].element[n := |h|])] == base + Partial(kind, l, |base|, k, true)
  {
    var h, at, n := base + Partial(kind, l, |base|, k, false), |base|, |l.slots|;
    assert h[at] == Partial(kind, l, |base|, k, false)[0];
    assert (l.slots + [NULL] + Nulls(k))[n := |h|] == l.slots + [|h|] + Nulls(k);
  }

  /** A complete element followed by another one: the aggregate stays open. */
  lemma FillChild(below: Frames, f: Frame, v: Reply)
    requires |f.done| + 1 < f.count
    ensures var h := HeapOf(Over(below, f), true);
            h + Cells(v, |h|) == HeapOf(Over(below, f.(done := f.done + [v])), false)
  {
    var base := HeapOf(below, true);
    var at := |base|;
    FillFrame(f, v, at);
    var child := at + 1 + |LayoutOf(f.done, at + 1).cells|;
    Glue(base, FrameCells(f, at, true), Cells(v, child), FrameCells(f.(done := f.done + [v]), at, false));
  }

  lemma Glue(base: seq<Cell>, frame: seq<Cell>, obj: seq<Cell>, after: seq<Cell>)
    requires frame + obj == after
    ensures base + frame + obj == base + after
  {
  }

  lemma FillFrame(f: Frame, v: Reply, at: nat)
    requires |f.done| + 1 < f.count
    ensures var l := LayoutOf(f.done, at + 1);
            FrameCells(f, at, true) + Cells(v, at + 1 + |l.cells|) == FrameCells(f.(done := f.done + [v]), at, false)
  {
    var l := LayoutOf(f.done, at + 1);
    SnocLayout(f.done, v, at + 1);
    FillPartial(f.kind, l, at, Missing(f), Cells(v, at + 1 + |l.cells|));
  }

  lemma FillPartial(kind: ItemType, l: Layout, at: nat, k: nat, obj: seq<Cell>)
    requires k > 0
    ensures Partial(kind, l, at, k, true) + obj == Partial(kind, AddTo(l, at + 1, obj), at, k - 1, false)
  {
    var child := at + 1 + |l.cells|;
    assert Nulls(k) == [NULL] + Nulls(k - 1);
    assert l.slots + [child] + Nulls(k) == (l.slots + [child]) + [NULL] + Nulls(k - 1);
  }

  /** The last element completes the aggregate, which is then a complete reply in its own parent's slot. */
  lemma CloseAggregate(below: Frames, f: Frame, v: Reply)
    requires |f.done| + 1 == f.count
    ensures var h, base := HeapOf(Over(below, f), true), HeapOf(below, true);
            h + Cells(v, |h|) == base + Cells(Aggregate(f.kind, f.done + [v]), |base|)
  {
    var h, base := HeapOf(Over(below, f), true), HeapOf(below, true);
    var at := |base|;
    CloseFrame(f, v, at);
    var child := at + 1 + |LayoutOf(f.done, at + 1).cells|;
    Replace(h, base, FrameCells(f, at, true), child, Cells(v, child), Cells(Aggregate(f.kind, f.done + [v]), at));
  }

  lemma Replace(h: seq<Cell>, base: seq<Cell>, frame: seq<Cell>, child: nat, obj: seq<Cell>, closed: seq<Cell>)
    requires h == base + frame && |base| + |frame| == child && frame + obj == closed
    ensures |h| == child && h + obj == base + closed
  {
  }

  lemma CloseFrame(f: Frame, v: Reply, at: nat)
    requires |f.done| + 1 == f.count
    ensures var l := LayoutOf(f.done, at + 1);
            FrameCells(f, at, true) + Cells(v, at + 1 + |l.cells|) == Cells(Aggregate(f.kind, f.done + [v]), at)
  {
    var l := LayoutOf(f.done, at + 1);
    SnocLayout(f.done, v, at + 1);
    ClosePartial(f.kind, l, at, Cells(v, at + 1 + |l.cells|));
  }

  lemma ClosePartial(kind: ItemType, l: Layout, at: nat, obj: seq<Cell>)
    ensures var m := AddTo(l, at + 1, obj);
            Partial(kind, l, at, 0, true) + obj == [AggregateCell(kind, m.slots)] + m.cells
  {
    var child := at + 1 + |l.cells|;
    assert l.slots + [child] + Nulls(0) == l.slots + [child];
  }

  /** A new aggregate with all pointers NULL on top of the stack. */
  lemma OpenAggregate(frames: Frames, kind: ItemType, n: nat)
    requires n > 0
    ensures HeapOf(frames, true) + [AggregateCell(kind, Nulls(n))] == HeapOf(Over(frames, Frame(kind, n, [])), false)
  {
    assert Nulls(n) == [] + [NULL] + Nulls(n - 1);
    assert FrameCells(Frame(kind, n, []), |HeapOf(frames, true)|, false) == [AggregateCell(kind, Nulls(n))];
  }
}
