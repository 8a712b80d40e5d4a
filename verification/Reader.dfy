/**
 The incremental protocol reader: a byte buffer that is trimmed as it is consumed, a growable
 stack of read tasks, and reply objects linked into their parents as they are created. Its class
 invariant says that, whatever bytes still come, the replies already returned followed by what the
 current position leads to are exactly the replies of the whole stream fed so far.
 */
module Reader {
  import opened Bytes
  import opened Integers
  import opened Resp
  import opened Builders
  import opened ReplyObjects
  import opened Resumption

  const STACK_SIZE: nat := 9
  const TRIM: nat := 1024

  /** A read task: kind None is "type byte not read yet", -1 is NULL for obj and parent. */
  datatype Task = Task(kind: Option<ItemType>, elements: int, idx: int, obj: int, parent: int)

  const BLANK: Task := Task(None, -1, -1, NULL, NULL)

  /** Tasks below the current one describe the open aggregates, innermost last. */
  ghost predicate Stack(task: seq<Task>, frames: Frames)
    decreases frames
  {
    match frames
    case Bottom => true
    case Over(below, f) =>
      var n := below.Depth();
      && n + 1 < |task| && |f.done| < f.count
      && task[n].kind == Some(f.kind) && f.kind.IsAggregate()
      && task[n].elements == f.count && task[n].obj == |HeapOf(below, true)|
      && task[n + 1].idx == |f.done| && task[n + 1].parent == n
      && Stack(task, below)
  }

  /** The stack below a task does not depend on that task's kind, count or object. */
  lemma {:induction false} StackUnchanged(task: seq<Task>, after: seq<Task>, frames: Frames)
    requires Stack(task, frames) && frames.Depth() < |after|
    requires forall i :: 0 <= i < frames.Depth() ==> i < |task| && after[i] == task[i]
    requires var n := frames.Depth();
             n > 0 ==> n < |task| && after[n].idx == task[n].idx && after[n].parent == task[n].parent
    ensures Stack(after, frames)
    decreases frames
  {
    if frames.Over? { StackUnchanged(task, after, frames.below); }
  }

  /** What the two topmost tasks say of the innermost open aggregate. */
  lemma TopTasks(task: seq<Task>, below: Frames, f: Frame, n: nat)
    requires Stack(task, Over(below, f)) && n == below.Depth()
    ensures n + 1 < |task| && task[n].kind.Some? && task[n].kind.value.IsAggregate()
    ensures task[n + 1].idx == task[n].elements - 1 <==> |f.done| + 1 == f.count
    ensures |f.done| < f.count && Stack(task, below)
  {
  }

  /** seekNewline: the two nested scanning loops. */
  method SeekNewline(s: bytes) returns (r: Option<nat>)
    ensures r == FindCrlf(s)
  {
    FindCrlfIsFirst(s);
    var pos, len := 0, |s| - 1;
    while pos < len
      invariant 0 <= pos && (pos <= len || (pos == 0 && len < 0))
      invariant forall j :: 0 <= j < pos ==> !(s[j] == CR && s[j + 1] == LF)
    {
      while pos < len && s[pos] != CR
        invariant 0 <= pos <= len
        invariant forall j :: 0 <= j < pos ==> !(s[j] == CR && s[j + 1] == LF)
      {
        pos := pos + 1;
      }
      if pos == len {
        return None;
      } else if s[pos + 1] == LF {
        return Some(pos);
      } else {
        pos := pos + 1;
      }
    }
    return None;
  }

  class RedisReader {
    const cfg: Config
    var err: Option<ProtocolError>
    var trapped: bool // an assertion of a reply builder has failed
    var buf: bytes
    var pos: nat
    var task: seq<Task>
    var ridx: int
    var objects: seq<Cell>
    var reply: int

    /** The open aggregates, a complete reply not handed out yet, everything fed and everything returned. */
    ghost var frames: Frames
    ghost var built: Option<Reply>
    ghost var fed: bytes
    ghost var emitted: seq<Reply>

    ghost function Unread(): bytes
      reads this
      requires pos <= |buf|
    {
      buf[pos..]
    }

    ghost function Current(): Option<ItemType>
      reads this
      requires ridx < |task|
    {
      if ridx >= 0 then task[ridx].kind else None
    }

    ghost function Position(): Progress
      reads this
      requires pos <= |buf| && ridx < |task|
    {
      if trapped then Broken(BuilderAssertion)
      else if err.Some? then Broken(err.value)
      else if built.Some? then Finished(built.value, Unread())
      else Working(frames, Current(), Unread())
    }

    /** No error, and no failed assertion. */
    predicate Sound()
      reads this
    {
      err.None? && !trapped
    }

    /** Buffer, task stack and objects agree with the open aggregates; the root pointer is left out. */
    ghost predicate Consistent()
      reads this
    {
      && pos <= |buf| && STACK_SIZE <= |task| && -1 <= ridx < |task|
      && frames.Depth() == (if ridx >= 0 then ridx else 0)
      && Stack(task, frames)
      && (ridx >= 0 && frames.Bottom? ==> task[0].parent == NULL)
      && (built.Some? ==> ridx == -1 && Sound() && objects == Cells(built.value, 0))
      && (built.None? ==> objects == HeapOf(frames, false))
      && (!Sound() ==> ridx == -1) && (err.Some? ==> !trapped && err.value != BuilderAssertion)
    }

    ghost predicate RootOk()
      reads this
    {
      reply == if built.Some? || frames.Over? then 0 else NULL
    }

    /** Nothing that arrives later can tell this reader from one that was fed everything at once. */
    ghost predicate Faithful()
      reads this
      requires Consistent()
    {
      FaithfulTo(cfg, fed, emitted, Position())
    }

    ghost predicate Valid()
      reads this
    {
      Consistent() && RootOk() && built.None? && Faithful()
    }

    constructor (cfg: Config)
      ensures Valid() && this.cfg == cfg
      ensures fed == [] && emitted == [] && Sound()
    {
      this.cfg := cfg;
      err, trapped, buf, pos := None, false, [], 0;
      task, ridx := seq(STACK_SIZE, i => BLANK), -1;
      objects, reply := [], NULL;
      frames, built, fed, emitted := Bottom, None, [], [];
      new;
      StartIsFaithful(cfg);
    }

    /** Nothing under construction is kept. */
    method Clear()
      requires Consistent() && Sound()
      modifies `reply, `objects, `buf, `pos, `ridx, `frames, `built
      ensures reply == NULL && objects == [] && pos <= |buf| && ridx == -1 && frames == Bottom && built == None
    {
      reply, objects := NULL, [];
      buf, pos, ridx := [], 0, -1;
      frames, built := Bottom, None;
    }

    method SetError(e: ProtocolError)
      requires Consistent() && Sound() && e != BuilderAssertion
      modifies this
      ensures Consistent() && RootOk() && built.None? && Position() == Broken(e)
      ensures unchanged(`fed, `emitted, `task, `trapped)
    {
      Clear();
      err := Some(e);
    }

    /** A builder's assertion fails: the process ends, and the reader with it. */
    method Abort()
      requires Consistent() && Sound()
      modifies this
      ensures Consistent() && RootOk() && built.None? && Position() == Broken(BuilderAssertion)
      ensures unchanged(`fed, `emitted, `task, `err)
    {
      Clear();
      trapped := true;
    }

    /** redisReaderFeed; in an erroneous state the bytes are dropped. */
    method Feed(data: bytes) returns (ok: bool)
      requires Valid()
      modifies this
      ensures Valid() && fed == old(fed) + data && emitted == old(emitted)
      ensures ok <==> Sound()
      ensures err == old(err) && trapped == old(trapped)
    {
      ok := Sound();
      FeedIsFaithful(cfg, fed, emitted, Position(), data);
      if Sound() && |data| >= 1 {
        if |buf| == 0 {
          // an oversized empty buffer is replaced by a fresh one
          pos := 0;
        }
        assert buf[pos..] + data == (buf + data)[pos..];
        buf := buf + data;
      } else {
        assert Sound() ==> Unread() + data == Unread();
      }
      fed := fed + data;
    }

    /**
     The create*Object builders: allocate a cell, check the parent's kind and store the cell's pointer
     in the parent's slot.
     */
    method CreateObject(cell: Cell, ghost r: Reply) returns (obj: int, admitted: bool)
      requires Consistent() && ridx >= 0 && CellOf(cell, r)
      modifies `objects
      ensures admitted <==> !Refused(ParentOf(frames), r)
      ensures !admitted ==> objects == old(objects)
      ensures admitted ==> obj == |HeapOf(frames, true)| && objects == HeapOf(frames, true) + [cell]
    {
      obj := |objects|;
      admitted := true;
      var cur := task[ridx];
      if frames.Over? {
        LinkChild(frames.below, frames.top);
        RefusedIsNotAdmitted(frames.top.kind, r);
      }
      if cur.parent != NULL {
        var p := task[cur.parent].obj;
        AdmitsCellIsAdmits(objects[p].kind, cell, r);
        if !AdmitsCell(objects[p].kind, cell) { return obj, false; }
        objects := objects + [cell];
        objects := objects[p := objects[p].(element := objects[p].element[cur.idx := obj])];
      } else {
        objects := objects + [cell];
      }
    }

    /** moveToNextTask, called when the item of the current task is the complete reply v. */
    method MoveToNextTask(ghost v: Reply)
      requires pos <= |buf| && STACK_SIZE <= |task| && 0 <= ridx < |task| && Sound() && built.None?
      requires frames.Depth() == ridx && Stack(task, frames)
      requires objects == HeapOf(frames, true) + Cells(v, |HeapOf(frames, true)|)
      modifies `ridx, `task, `frames, `built
      ensures Consistent() && Position() == Advance(old(frames), v, Unread())
      ensures |task| == old(|task|)
    {
      ghost var fs, w, whole := frames, v, Advance(frames, v, Unread());
      while true
        invariant Delivering(fs, w, whole) && task == old(task)
        decreases ridx
      {
        if ridx == 0 {
          PopRoot(fs, w, whole);
          return;
        }
        TopTasks(task, fs.below, fs.top, ridx - 1);
        var cur, prv := task[ridx], task[ridx - 1];
        assert prv.kind.Some? && prv.kind.value.IsAggregate();
        if cur.idx == prv.elements - 1 {
          fs, w := PopTask(fs, w, whole);
        } else {
          ResetTask(fs, w, whole);
          return;
        }
      }
    }

    /** A complete item w on its way to the aggregates still open around it. */
    ghost predicate Delivering(fs: Frames, w: Reply, whole: Progress)
      reads this
    {
      && pos <= |buf| && STACK_SIZE <= |task| && 0 <= ridx < |task| && Sound() && built.None?
      && fs.Depth() == ridx && Stack(task, fs)
      && objects == HeapOf(fs, true) + Cells(w, |HeapOf(fs, true)|)
      && whole == Advance(fs, w, Unread())
    }

    /** The stack is empty: the root object is complete. */
    method PopRoot(ghost fs: Frames, ghost w: Reply, ghost whole: Progress)
      requires Delivering(fs, w, whole) && ridx == 0
      modifies `ridx, `frames, `built
      ensures Consistent() && Position() == whole
    {
      assert fs.Bottom? && objects == [] + Cells(w, 0);
      frames, built := Bottom, Some(w);
      ridx := ridx - 1;
    }

    /** The current task was the last of its aggregate, which is now the complete item. */
    method PopTask(ghost fs: Frames, ghost w: Reply, ghost whole: Progress) returns (ghost below: Frames, ghost closed: Reply)
      requires Delivering(fs, w, whole) && ridx > 0 && task[ridx].idx == task[ridx - 1].elements - 1
      modifies `ridx
      ensures ridx == old(ridx) - 1 && Delivering(below, closed, whole)
    {
      TopTasks(task, fs.below, fs.top, ridx - 1);
      below, closed := fs.below, Aggregate(fs.top.kind, fs.top.done + [w]);
      CloseTop(below, fs.top, w, closed, objects, Unread());
      ridx := ridx - 1;
    }

    /** The current task moves on to the next slot of the aggregate above it. */
    method ResetTask(ghost fs: Frames, ghost w: Reply, ghost whole: Progress)
      requires Delivering(fs, w, whole) && ridx > 0 && task[ridx].idx != task[ridx - 1].elements - 1
      modifies `task, `frames
      ensures |task| == old(|task|) && Consistent() && Position() == whole
    {
      TopTasks(task, fs.below, fs.top, ridx - 1);
      NextSlotOf(fs.below, fs.top, w);
    }

    method NextSlotOf(ghost below: Frames, ghost f: Frame, ghost w: Reply)
      requires pos <= |buf| && STACK_SIZE <= |task| && 0 <= ridx < |task| && Sound() && built.None?
      requires below.Depth() + 1 == ridx && Stack(task, Over(below, f)) && |f.done| + 1 < f.count
      requires var h := HeapOf(Over(below, f), true); objects == h + Cells(w, |h|)
      modifies `task, `frames
      ensures frames == Over(below, f.(done := f.done + [w])) && |task| == old(|task|)
      ensures Consistent() && Position() == Working(frames, None, Unread())
    {
      var cur := task[ridx];
      task := task[ridx := cur.(kind := None, elements := -1, idx := cur.idx + 1)];
      frames := Over(below, f.(done := f.done + [w]));
      NextSlot(old(task), task, below, f, w, objects);
    }

    /** readLine: the next complete line, skipped together with its CRLF. */
    method ReadLine() returns (line: Option<bytes>)
      requires pos <= |buf|
      modifies `pos
      ensures pos <= |buf|
      ensures line.None? ==> pos == old(pos) && CutLine(Unread()).NoLine?
      ensures line.Some? ==> CutLine(old(Unread())) == Line(line.value, Unread())
    {
      var p := buf[pos..];
      var s := SeekNewline(p);
      FindCrlfIsFirst(p);
      match s {
        case None => return None;
        case Some(len) =>
          assert buf[pos + len + 2..] == p[len + 2..];
          pos := pos + len + 2;
          return Some(p[..len]);
      }
    }

    /** A reply of a single cell is created, linked and handed to moveToNextTask, unless its builder refuses it. */
    method FinishObject(cell: Cell, ghost r: Reply) returns (ok: bool)
      requires Consistent() && RootOk() && Sound() && built.None? && ridx >= 0
      requires SingleCell(cell, r)
      modifies this
      ensures Consistent() && RootOk() && Busy() && Position() == Decide(old(frames), r, old(Unread()))
      ensures ok <==> !Refused(ParentOf(old(frames)), r)
      ensures unchanged(`err, `fed, `emitted)
    {
      var obj;
      obj, ok := CreateObject(cell, r);
      if !ok {
        Abort();
        return;
      }
      if ridx == 0 { reply := obj; }
      AdvanceNotBroken(frames, r, Unread());
      MoveToNextTask(r);
    }

    /** The object a line item stands for, or the error its text deserves. */
    method LineObject(ty: ItemType, line: bytes) returns (c: Checked<Reply>)
      requires ty.IsLine()
      ensures c == LineReply(cfg, ty, line)
      ensures c.Good? ==> !c.value.Aggregate?
    {
      if ty.IntegerType? {
        var v := String2ll(line);
        return if v.None? then Reject(BadInteger) else Good(Integer(v.value));
      } else if ty.DoubleType? {
        if |line| >= 326 { return Reject(DoubleTooLarge); }
        if !cfg.validDouble(line) { return Reject(BadDouble); }
        return Good(Double(line));
      } else if ty.NilType? {
        return Good(Nil);
      } else if ty.BoolType? {
        return Good(Bool(|line| > 0 && (line[0] == 116 || line[0] == 84)));
      } else {
        return Good(Text(ty, line));
      }
    }

    method ProcessLineItem() returns (ok: bool)
      requires Consistent() && RootOk() && Sound() && built.None? && ridx >= 0
      requires task[ridx].kind.Some? && task[ridx].kind.value.IsLine()
      modifies this
      ensures Consistent() && RootOk() && Busy() && unchanged(`fed, `emitted)
      ensures Step(cfg, old(Position()), Position(), ok)
    {
      var ty := task[ridx].kind.value;
      LeafIsStep(cfg, frames, ty, Unread());
      var p := ReadLine();
      if p.None? { return false; }
      var obj := LineObject(ty, p.value);
      match obj
      case Reject(e) =>
        SetError(e);
        return false;
      case Good(r) =>
        ok := FinishObject(LeafCell(r), r);
    }

    /** The body of processBulkItem: nothing is consumed before the whole item has arrived. */
    method ReadBulk(ty: ItemType) returns (r: Option<Checked<Reply>>)
      requires pos <= |buf| && ty.IsBulk()
      modifies `pos
      ensures pos <= |buf|
      ensures r.None? ==> pos == old(pos) && DecodeBulk(ty, Unread()).More?
      ensures r.Some? && r.value.Reject? ==> DecodeBulk(ty, old(Unread())) == Bad(r.value.error)
      ensures r.Some? && r.value.Good? ==>
                DecodeBulk(ty, old(Unread())) == Done(r.value.value, Unread()) && !r.value.value.Aggregate?
    {
      var p := buf[pos..];
      var s := SeekNewline(p);
      if s.None? { return None; }
      FindCrlfIsFirst(p);
      var i := s.value;
      ghost var rest := p[i + 2..];
      var n := String2ll(p[..i]);
      assert CutLine(p) == Line(p[..i], rest);
      if n.None? { return Some(Reject(BadBulkLength)); }
      var len := n.value;
      assert DecodeBulk(ty, p) == DecodeBody(ty, len, rest);
      DropDrop(buf, pos, i + 2);
      if len < -1 { return Some(Reject(BulkLengthOutOfRange)); }
      if len == -1 {
        pos := pos + i + 2;
        return Some(Good(Nil));
      }
      var bytelen := i + 2 + len + 2;
      if pos + bytelen > |buf| { return None; }
      var body := p[i + 2..i + 2 + len];
      assert body == rest[..len];
      DropDrop(buf, pos + i + 2, len + 2);
      if ty.VerbType? && (len < 4 || body[3] != 58) { return Some(Reject(BadVerbatim)); }
      pos := pos + bytelen;
      return Some(Good(if ty.VerbType? then Verbatim(body[..3], body[4..]) else Text(ty, body)));
    }

    method ProcessBulkItem() returns (ok: bool)
      requires Consistent() && RootOk() && Sound() && built.None? && ridx >= 0
      requires task[ridx].kind.Some? && task[ridx].kind.value.IsBulk()
      modifies this
      ensures Consistent() && RootOk() && Busy() && unchanged(`fed, `emitted)
      ensures Step(cfg, old(Position()), Position(), ok)
    {
      var ty := task[ridx].kind.value;
      LeafIsStep(cfg, frames, ty, Unread());
      var obj := ReadBulk(ty);
      if obj.None? { return false; }
      match obj.value
      case Reject(e) =>
        SetError(e);
        return false;
      case Good(r) =>
        ok := FinishObject(LeafCell(r), r);
    }

    /** redisReaderGrow: nine more tasks. */
    method Grow()
      requires Consistent()
      modifies `task
      ensures Consistent() && |task| == old(|task|) + STACK_SIZE
      ensures forall i :: 0 <= i < old(|task|) ==> task[i] == old(task)[i]
    {
      task := task + seq(STACK_SIZE, i => BLANK);
      StackUnchanged(old(task), task, frames);
    }

    /** The header line of an aggregate: its checked element count, doubled for maps. */
    method ReadHeader(ty: ItemType) returns (r: Option<Checked<int>>)
      requires pos <= |buf| && ty.IsAggregate()
      modifies `pos
      ensures pos <= |buf|
      ensures r.None? ==> pos == old(pos) && DecodeHeader(cfg, ty, Unread()).More?
      ensures r.Some? && r.value.Reject? ==> DecodeHeader(cfg, ty, old(Unread())) == Bad(r.value.error)
      ensures r.Some? && r.value.Good? ==> DecodeHeader(cfg, ty, old(Unread())) == Done(r.value.value, Unread())
    {
      var p := ReadLine();
      if p.None? { return None; }
      var n := String2ll(p.value);
      if n.None? { return Some(Reject(BadMultiBulkLength)); }
      var elements := n.value;
      if elements < -1 || (cfg.maxElements > 0 && elements > cfg.maxElements) {
        return Some(Reject(MultiBulkLengthOutOfRange));
      }
      if elements != -1 && ty.MapType? { elements := elements * 2; }
      return Some(Good(elements));
    }

    method ProcessAggregateItem() returns (ok: bool)
      requires Consistent() && RootOk() && Sound() && built.None? && ridx >= 0
      requires task[ridx].kind.Some? && task[ridx].kind.value.IsAggregate()
      modifies this
      ensures Consistent() && RootOk() && Busy() && unchanged(`fed, `emitted)
      ensures Step(cfg, old(Position()), Position(), ok)
    {
      if ridx == |task| - 1 { Grow(); }
      var ty := task[ridx].kind.value;
      HeaderIsStep(cfg, frames, ty, Unread());
      var n := ReadHeader(ty);
      if n.None? { return false; }
      match n.value
      case Reject(e) =>
        SetError(e);
        return false;
      case Good(elements) =>
        ok := BuildAggregate(ty, elements);
    }

    /** The announced aggregate: nil, without elements, or opened. */
    method BuildAggregate(ty: ItemType, elements: int) returns (ok: bool)
      requires Consistent() && RootOk() && Sound() && built.None? && 0 <= ridx < |task| - 1
      requires ty.IsAggregate() && task[ridx].kind == Some(ty) && elements >= -1
      modifies this
      ensures Consistent() && RootOk() && Busy() && unchanged(`fed, `emitted)
      ensures Position() == AfterHeader(old(frames), ty, elements, old(Unread()))
      ensures ok <==> !Position().Broken?
    {
      if elements == -1 {
        ok := FinishObject(LeafCell(Nil), Nil);
      } else if elements == 0 {
        ok := FinishObject(AggregateCell(ty, Nulls(0)), Aggregate(ty, []));
      } else {
        OpenObject(ty, elements);
        ok := true;
      }
    }

    /** An aggregate is created with empty slots, linked, and becomes the top of the stack. */
    method OpenObject(ty: ItemType, elements: nat)
      requires Consistent() && RootOk() && Sound() && built.None? && 0 <= ridx < |task| - 1
      requires ty.IsAggregate() && task[ridx].kind == Some(ty) && elements > 0
      modifies this
      ensures Consistent() && RootOk() && Busy() && Position() == AfterHeader(old(frames), ty, elements, Unread())
      ensures unchanged(`buf, `pos, `err, `fed, `emitted)
    {
      var root := ridx == 0;
      var obj, admitted := CreateObject(AggregateCell(ty, Nulls(elements)), Aggregate(ty, []));
      assert admitted;
      PushTask(ty, elements, obj);
      if root { reply := obj; }
    }

    /** The current task becomes an open aggregate and the next task its first element. */
    method PushTask(ty: ItemType, elements: nat, obj: int)
      requires pos <= |buf| && STACK_SIZE <= |task| && 0 <= ridx < |task| - 1 && Sound() && built.None?
      requires frames.Depth() == ridx && Stack(task, frames)
      requires ty.IsAggregate() && task[ridx].kind == Some(ty) && elements > 0
      requires obj == |HeapOf(frames, true)| && objects == HeapOf(frames, true) + [AggregateCell(ty, Nulls(elements))]
      modifies `task, `ridx, `frames
      ensures Consistent() && Position() == Working(Over(old(frames), Frame(ty, elements, [])), None, Unread())
    {
      OpenAggregate(frames, ty, elements);
      StackOfPushed(task, frames, ty, elements, obj);
      task := task[ridx := task[ridx].(elements := elements, obj := obj)];
      ridx := ridx + 1;
      task := task[ridx := Task(None, -1, 0, NULL, ridx - 1)];
      frames := Over(frames, Frame(ty, elements, []));
    }

    /** processItem: read the type byte if it is still missing, then the typed item. */
    method ProcessItem() returns (ok: bool)
      requires Consistent() && RootOk() && Sound() && built.None? && ridx >= 0
      modifies this
      ensures Consistent() && RootOk() && Busy() && unchanged(`fed, `emitted)
      ensures Step(cfg, old(Position()), Position(), ok)
    {
      ghost var start := Position();
      if task[ridx].kind.None? {
        if pos == |buf| {
          SameAsItself(cfg, start);
          return false;
        }
        var b := buf[pos];
        assert b == Unread()[0];
        var ty := TypeOf(b);
        if ty.None? {
          BadTypeByteStep(cfg, frames, Unread());
          SetError(BadTypeByte(b));
          return false;
        }
        TypeByteStep(cfg, frames, ty.value, Unread());
        ReadTypeByte(ty.value);
      } else {
        SameAsItself(cfg, start);
      }
      ghost var typed := Position();
      var ty := task[ridx].kind.value;
      if ty.IsLine() {
        ok := ProcessLineItem();
      } else if ty.IsBulk() {
        ok := ProcessBulkItem();
      } else {
        ok := ProcessAggregateItem();
      }
      StepAfter(cfg, start, typed, Position(), ok);
    }

    method ReadTypeByte(ty: ItemType)
      requires Consistent() && RootOk() && Sound() && built.None? && ridx >= 0 && pos < |buf|
      modifies `pos, `task
      ensures Consistent() && RootOk()
      ensures Position() == Working(frames, Some(ty), old(Unread())[1..]) && task[ridx].kind == Some(ty)
    {
      DropDrop(buf, pos, 1);
      pos := pos + 1;
      task := task[ridx := task[ridx].(kind := Some(ty))];
      StackUnchanged(old(task), task, frames);
    }

    /** Between two items: some task is current, or a reply is complete, or the stream is broken. */
    ghost predicate Busy()
      reads this
    {
      ridx >= 0 || built.Some? || !Sound()
    }

    /** The loop of redisReaderGetReply. */
    method ProcessItems()
      requires Consistent() && RootOk() && Sound() && built.None? && ridx >= 0
      requires FaithfulTo(cfg, fed, emitted, Position())
      modifies this
      ensures Consistent() && RootOk() && Busy() && unchanged(`fed, `emitted)
      ensures FaithfulTo(cfg, fed, emitted, Position())
      ensures Position().Finished? ==> |Unread()| < |old(Unread())|
      ensures Position().Working? ==> BuildCurrent(cfg, frames, Current(), Unread()).More?
    {
      ghost var before := Position();
      var more := ProcessItem();
      StepIsFaithful(cfg, fed, emitted, before, Position());
      while ridx >= 0 && more
        invariant Consistent() && RootOk() && Busy() && unchanged(`fed, `emitted)
        invariant FaithfulTo(cfg, fed, emitted, Position())
        invariant more ==> Sound() && |Unread()| < |old(Unread())|
        invariant !more ==> !Position().Finished?
        invariant !more && Position().Working? ==> BuildCurrent(cfg, frames, Current(), Unread()).More?
        decreases more, if more then |Unread()| else 0
      {
        before := Position();
        more := ProcessItem();
        StepIsFaithful(cfg, fed, emitted, before, Position());
      }
    }

    /**
     redisReaderGetReply: process items until the reply is complete, input runs out or an error shows;
     trim a consumed kilobyte; hand out the root pointer with its objects.
     */
    method GetReply() returns (ok: bool, root: int, cells: seq<Cell>)
      requires Valid()
      modifies this
      ensures Valid() && fed == old(fed)
      ensures ok <==> Sound()
      ensures root != NULL ==>
                && ok && |emitted| == |old(emitted)| + 1 && emitted[..|old(emitted)|] == old(emitted)
                && Represents(cells, root, emitted[|old(emitted)|])
                && |Unread()| < |old(Unread())|
      ensures root == NULL ==> emitted == old(emitted)
      ensures ok && root == NULL ==> Outlook(cfg, Position(), []).More?
      ensures !old(Sound()) ==> err == old(err) && trapped == old(trapped)
    {
      if !Sound() { return false, NULL, []; }
      if |buf| == 0 {
        StuckMeansMore(cfg, frames, Current(), Unread());
        return true, NULL, [];
      }
      if ridx == -1 { StartTask(); }
      ProcessItems();
      if !Sound() { return false, NULL, []; }
      root, cells := HandOut();
      return true, root, cells;
    }

    /** The end of redisReaderGetReply: trim the buffer, and return the reply if there is one. */
    method HandOut() returns (root: int, cells: seq<Cell>)
      requires Consistent() && RootOk() && Busy() && Faithful() && Sound()
      requires built.None? ==> BuildCurrent(cfg, frames, Current(), Unread()).More?
      modifies `buf, `pos, `reply, `objects, `emitted, `built
      ensures Valid() && Unread() == old(Unread())
      ensures root != NULL ==> old(built).Some? && emitted == old(emitted) + [old(built).value]
                               && Represents(cells, root, old(built).value)
      ensures root == NULL ==> emitted == old(emitted) && Outlook(cfg, Position(), []).More?
    {
      if pos >= TRIM { Trim(); }
      if ridx == -1 {
        root, cells := EmitReply();
      } else {
        StuckMeansMore(cfg, frames, Current(), Unread());
        root, cells := NULL, [];
      }
    }

    /** sdsrange(buf, pos, -1): the consumed part of the buffer is dropped. */
    method Trim()
      requires pos <= |buf|
      modifies `buf, `pos
      ensures pos == 0 && Unread() == old(Unread())
    {
      DropDrop(buf, pos, 0);
      buf := buf[pos..];
      pos := 0;
    }

    /** Hand the complete reply over to the caller. */
    method EmitReply() returns (root: int, cells: seq<Cell>)
      requires Consistent() && RootOk() && built.Some? && Faithful()
      modifies `reply, `objects, `emitted, `built
      ensures Valid() && root != NULL && emitted == old(emitted) + [old(built).value]
      ensures Represents(cells, root, old(built).value)
    {
      root, cells := reply, objects;
      assert cells[0..|cells|] == cells;
      CellsRepresent(cells, 0, built.value);
      EmitIsFaithful(cfg, fed, emitted, built.value, Unread());
      reply, objects := NULL, [];
      emitted := emitted + [built.value];
      built := None;
    }

    /** The first item of a new reply. */
    method StartTask()
      requires Valid() && Sound() && ridx == -1
      modifies `task, `ridx
      ensures Valid() && ridx == 0 && Position() == old(Position())
    {
      task := task[0 := BLANK];
      ridx := 0;
    }
  }

  /** The tasks of a new aggregate and of its first element. */
  lemma StackOfPushed(task: seq<Task>, frames: Frames, ty: ItemType, n: nat, obj: int)
    requires Stack(task, frames) && frames.Depth() + 1 < |task| && n > 0
    requires ty.IsAggregate() && task[frames.Depth()].kind == Some(ty) && obj == |HeapOf(frames, true)|
    ensures var k := frames.Depth();
            Stack(task[k := task[k].(elements := n, obj := obj)][k + 1 := Task(None, -1, 0, NULL, k)],
                  Over(frames, Frame(ty, n, [])))
  {
    var k := frames.Depth();
    StackUnchanged(task, task[k := task[k].(elements := n, obj := obj)][k + 1 := Task(None, -1, 0, NULL, k)], frames);
  }

  /** The replies whose layout is one cell. */
  ghost predicate SingleCell(cell: Cell, r: Reply) {
    if r.Aggregate? then r.elements == [] && cell == AggregateCell(r.kind, []) else cell == LeafCell(r)
  }

  /** A cell under construction for the reply r: a leaf, or an aggregate still without elements. */
  ghost predicate CellOf(cell: Cell, r: Reply) {
    if r.Aggregate? then cell.AggregateCell? else cell == LeafCell(r)
  }

  /** The assertion on the parent's kind, as each builder makes it. */
  predicate AdmitsCell(kind: ItemType, cell: Cell) {
    if cell.LeafCell? && (cell.value.Double? || cell.value.Nil? || cell.value.Bool?)
    then kind.ArrayType? || kind.MapType? || kind.SetType?
    else kind.ArrayType? || kind.MapType? || kind.SetType? || kind.PushType?
  }

  lemma AdmitsCellIsAdmits(kind: ItemType, cell: Cell, r: Reply)
    requires CellOf(cell, r)
    ensures AdmitsCell(kind, cell) == Admits(kind, r)
  {
  }

  lemma DropDrop(s: bytes, i: nat, j: nat)
    requires i + j <= |s|
    ensures s[i..][j..] == s[i + j..]
  {
  }

  /** Popping a task closes the top aggregate, which becomes the finished element one level down. */
  lemma CloseTop(below: Frames, f: Frame, v: Reply, closed: Reply, objects: seq<Cell>, rest: bytes)
    requires |f.done| + 1 == f.count && closed == Aggregate(f.kind, f.done + [v])
    requires var h := HeapOf(Over(below, f), true); objects == h + Cells(v, |h|)
    ensures var h := HeapOf(below, true); objects == h + Cells(closed, |h|)
    ensures Advance(Over(below, f), v, rest) == Advance(below, closed, rest)
  {
    CloseAggregate(below, f, v);
  }

  /** Moving the current task to its next slot delivers the finished element to the top aggregate. */
  lemma NextSlot(task: seq<Task>, after: seq<Task>, below: Frames, f: Frame, v: Reply, objects: seq<Cell>)
    requires Stack(task, Over(below, f)) && |f.done| + 1 < f.count
    requires var n := below.Depth() + 1;
             after == task[n := task[n].(kind := None, elements := -1, idx := task[n].idx + 1)]
    requires var h := HeapOf(Over(below, f), true); objects == h + Cells(v, |h|)
    ensures Stack(after, Over(below, f.(done := f.done + [v])))
    ensures objects == HeapOf(Over(below, f.(done := f.done + [v])), false)
  {
    FillChild(below, f, v);
    StackUnchanged(task, after, below);
  }

  // ----- sessions -----

  /** What a user of the reader does. */
  datatype Call = FeedBytes(data: bytes) | AskReply

  datatype Emission = Emission(root: int, cells: seq<Cell>)

  function FedBy(calls: seq<Call>): bytes {
    if calls == [] then []
    else FedBy(calls[..|calls| - 1]) + (if calls[|calls| - 1].FeedBytes? then calls[|calls| - 1].data else [])
  }

  /** The objects handed out are, in order, the given replies. */
  ghost predicate Delivers(out: seq<Emission>, replies: seq<Reply>) {
    |out| == |replies| && forall i :: 0 <= i < |out| ==> Represents(out[i].cells, out[i].root, replies[i])
  }

  /**
   Any interleaving of feeding and asking, followed by asking until nothing is ready. If the stream never
   delivers what a reply builder refuses, this hands out exactly the replies of the concatenated bytes
   and ends exactly as that stream ends; otherwise the code stops, having handed out exactly the
   replies before. Cutting the same bytes differently therefore changes nothing.
   */
  method RunSession(cfg: Config, calls: seq<Call>) returns (out: seq<Emission>, ending: Ending)
    ensures ending.Trapped? <==> TripsStream(cfg, FedBy(calls))
    ensures !ending.Trapped? ==>
              && ending == DecodeStream(cfg, FedBy(calls)).ending
              && Delivers(out, DecodeStream(cfg, FedBy(calls)).replies)
    ensures ending.Trapped? ==> Delivers(out, RepliesBefore(cfg, FedBy(calls)))
  {
    var r := new RedisReader(cfg);
    out := [];
    for i := 0 to |calls|
      invariant fresh(r) && r.Valid() && r.cfg == cfg && r.fed == FedBy(calls[..i])
      invariant Delivers(out, r.emitted)
    {
      assert calls[..i + 1][..i] == calls[..i];
      match calls[i]
      case FeedBytes(data) => var _ := r.Feed(data);
      case AskReply => out := Ask(r, out);
    }
    assert calls[..|calls|] == calls;
    out := Drain(r, out);
    DrainedIsComplete(cfg, r.fed, r.emitted, r.Position());
    StreamAgrees(cfg, r.fed);
    ending := if r.trapped then Trapped else if r.err.Some? then Failed(r.err.value) else Waiting;
  }

  /** Ask until nothing is ready. */
  method Drain(r: RedisReader, out: seq<Emission>) returns (after: seq<Emission>)
    requires r.Valid() && Delivers(out, r.emitted)
    modifies r
    ensures r.Valid() && r.fed == old(r.fed) && Delivers(after, r.emitted)
    ensures r.Position().Broken? || Outlook(r.cfg, r.Position(), []).More?
  {
    after := out;
    var ready := true;
    while ready
      invariant r.Valid() && r.fed == old(r.fed) && Delivers(after, r.emitted)
      invariant ready || r.Position().Broken? || Outlook(r.cfg, r.Position(), []).More?
      decreases ready, |r.Unread()|
    {
      var n := |after|;
      after := Ask(r, after);
      ready := |after| != n;
    }
  }

  method Ask(r: RedisReader, out: seq<Emission>) returns (after: seq<Emission>)
    requires r.Valid() && Delivers(out, r.emitted)
    modifies r
    ensures r.Valid() && r.fed == old(r.fed) && Delivers(after, r.emitted)
    ensures |after| == |out| ==> r.Position().Broken? || Outlook(r.cfg, r.Position(), []).More?
    ensures |after| != |out| ==> |r.Unread()| < |old(r.Unread())|
  {
    var _, root, cells := r.GetReply();
    after := if root != NULL then out + [Emission(root, cells)] else out;
  }
}
