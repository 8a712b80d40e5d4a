/**
 What an interrupted parse still means. A stack of open aggregates and the item being read
 denote "decode the rest of this item, then the rest of every enclosing aggregate", up to what a reply
 builder refuses; each step of the reader keeps that denotation, for whatever bytes are still to come.
 */
module Resumption {
  import opened Bytes
  import opened Resp
  import opened Builders
  import opened ReplyObjects

  /** Where a reader stands between two steps. */
  datatype Progress =
    | Working(frames: Frames, current: Option<ItemType>, unread: bytes)
    | Finished(reply: Reply, unread: bytes)
    | Broken(error: ProtocolError)

  /** The aggregate the current item belongs to. */
  ghost function ParentOf(frames: Frames): Parent { if frames.Over? then Some(frames.top.kind) else None }

  /** Finish the enclosing aggregates once the current item is decided. */
  ghost function Unwind(cfg: Config, frames: Frames, d: Decoded<Reply>): Decoded<Reply>
    decreases frames
  {
    match frames
    case Bottom => d
    case Over(below, f) => if d.Done? then Unwind(cfg, below, FinishTop(cfg, f, d)) else d
  }

  /** The top aggregate decoded to its end, given the element being read. */
  ghost function FinishTop(cfg: Config, f: Frame, d: Decoded<Reply>): Decoded<Reply>
    requires d.Done?
  {
    Wrap(f.kind, f.done + [d.value], BuildMany(cfg, f.kind, Missing(f), d.rest))
  }

  ghost function BuildCurrent(cfg: Config, frames: Frames, current: Option<ItemType>, s: bytes): Decoded<Reply> {
    match current
    case None => BuildItem(cfg, ParentOf(frames), s)
    case Some(ty) => BuildTyped(cfg, ParentOf(frames), ty, s)
  }

  /** The reply this position leads to if tail arrives next. */
  ghost function Outlook(cfg: Config, p: Progress, tail: bytes): Decoded<Reply>
  {
    match p
    case Working(frames, current, unread) => Unwind(cfg, frames, BuildCurrent(cfg, frames, current, unread + tail))
    case Finished(reply, unread) => Done(reply, unread + tail)
    case Broken(e) => Bad(e)
  }

  /** Two positions with the same future, whatever arrives. */
  ghost predicate SameOutlook(cfg: Config, p: Progress, q: Progress) {
    forall tail :: Outlook(cfg, p, tail) == Outlook(cfg, q, tail)
  }

  // ----- one item decided -----

  /** The next position once the current item is v: fill the top aggregate, closing every one that is full. */
  ghost function Advance(frames: Frames, v: Reply, rest: bytes): (p: Progress)
    ensures !p.Broken?
    decreases frames
  {
    match frames
    case Bottom => Finished(v, rest)
    case Over(below, f) =>
      if |f.done| + 1 < f.count then Working(Over(below, f.(done := f.done + [v])), None, rest)
      else Advance(below, Aggregate(f.kind, f.done + [v]), rest)
  }

  /** Delivering one element and decoding the others is decoding with that element already delivered. */
  lemma WrapShift(kind: ItemType, done: seq<Reply>, v: Reply, d: Decoded<seq<Reply>>)
    ensures Wrap(kind, done, Prefixed(v, d)) == Wrap(kind, done + [v], d)
  {
    if d.Done? { assert done + ([v] + d.value) == done + [v] + d.value; }
  }

  lemma {:induction false} AdvanceKeepsOutlook(cfg: Config, frames: Frames, v: Reply, rest: bytes, tail: bytes)
    ensures Outlook(cfg, Advance(frames, v, rest), tail) == Unwind(cfg, frames, Done(v, rest + tail))
    decreases frames
  {
    match frames
    case Bottom =>
    case Over(below, f) =>
      if |f.done| + 1 < f.count {
        NextElement(cfg, below, f.(done := f.done + [v]), rest + tail);
      } else {
        WrapNothing(f.kind, f.done + [v], rest + tail);
        AdvanceKeepsOutlook(cfg, below, Aggregate(f.kind, f.done + [v]), rest, tail);
      }
  }

  lemma WrapNothing(kind: ItemType, done: seq<Reply>, s: bytes)
    ensures Wrap(kind, done, Done([], s)) == Done(Aggregate(kind, done), s)
  {
    assert done + [] == done;
  }

  /** An open aggregate decodes its next element first and the others after it. */
  lemma NextElement(cfg: Config, below: Frames, g: Frame, s: bytes)
    requires |g.done| < g.count
    ensures Unwind(cfg, Over(below, g), BuildItem(cfg, Some(g.kind), s))
         == Unwind(cfg, below, Wrap(g.kind, g.done, BuildMany(cfg, g.kind, g.count - |g.done|, s)))
  {
    var d := BuildItem(cfg, Some(g.kind), s);
    if d.Done? {
      WrapShift(g.kind, g.done, d.value, BuildMany(cfg, g.kind, Missing(g), d.rest));
    }
  }

  /** The item v is decided: its builder stops the code, or the stack of aggregates advances. */
  ghost function Decide(frames: Frames, v: Reply, rest: bytes): Progress {
    if Refused(ParentOf(frames), v) then Broken(BuilderAssertion) else Advance(frames, v, rest)
  }

  lemma DecideKeepsOutlook(cfg: Config, frames: Frames, v: Reply, rest: bytes, tail: bytes)
    ensures Outlook(cfg, Decide(frames, v, rest), tail) == Unwind(cfg, frames, Guard(ParentOf(frames), Done(v, rest + tail)))
  {
    if !Refused(ParentOf(frames), v) { AdvanceKeepsOutlook(cfg, frames, v, rest, tail); }
  }

  // ----- the steps of the reader -----

  /** Reading the type byte. */
  lemma TypeByteStep(cfg: Config, frames: Frames, ty: ItemType, unread: bytes)
    requires unread != [] && TypeOf(unread[0]) == Some(ty)
    ensures SameOutlook(cfg, Working(frames, None, unread), Working(frames, Some(ty), unread[1..]))
  {
    forall tail ensures Outlook(cfg, Working(frames, None, unread), tail)
                     == Outlook(cfg, Working(frames, Some(ty), unread[1..]), tail) {
      assert (unread + tail)[1..] == unread[1..] + tail;
    }
  }

  /** A byte that is no type byte is an error at once. */
  lemma BadTypeByteStep(cfg: Config, frames: Frames, unread: bytes)
    requires unread != [] && TypeOf(unread[0]).None?
    ensures SameOutlook(cfg, Working(frames, None, unread), Broken(BadTypeByte(unread[0])))
  {
    assert forall tail: bytes :: (unread + tail)[0] == unread[0];
  }

  /** A complete line or bulk item. */
  ghost function DecodeLeaf(cfg: Config, ty: ItemType, s: bytes): Decoded<Reply>
    requires !ty.IsAggregate()
  {
    if ty.IsLine() then DecodeLine(cfg, ty, s) else DecodeBulk(ty, s)
  }

  lemma LeafStep(cfg: Config, frames: Frames, ty: ItemType, unread: bytes)
    requires !ty.IsAggregate()
    ensures var d := DecodeLeaf(cfg, ty, unread);
            && (d.Done? ==> SameOutlook(cfg, Working(frames, Some(ty), unread), Decide(frames, d.value, d.rest)))
            && (d.Bad? ==> SameOutlook(cfg, Working(frames, Some(ty), unread), Broken(d.error)))
  {
    var d := DecodeLeaf(cfg, ty, unread);
    forall tail ensures Settled(d, DecodeLeaf(cfg, ty, unread + tail), tail) {
      if ty.IsLine() { LineStable(cfg, ty, unread, tail); } else { BulkStable(ty, unread, tail); }
    }
    if d.Done? {
      forall tail ensures Outlook(cfg, Working(frames, Some(ty), unread), tail)
                       == Outlook(cfg, Decide(frames, d.value, d.rest), tail) {
        assert Settled(d, DecodeLeaf(cfg, ty, unread + tail), tail);
        DecideKeepsOutlook(cfg, frames, d.value, d.rest, tail);
      }
    } else if d.Bad? {
      forall tail ensures Outlook(cfg, Working(frames, Some(ty), unread), tail) == Bad(d.error) {
        assert Settled(d, DecodeLeaf(cfg, ty, unread + tail), tail);
      }
    }
  }

  /** The position after an aggregate header that announced n elements (-1: nil). */
  ghost function AfterHeader(frames: Frames, ty: ItemType, n: int, rest: bytes): (p: Progress)
    requires n >= -1
    ensures p.Broken? <==> n == -1 && Refused(ParentOf(frames), Nil)
  {
    if n == -1 then Decide(frames, Nil, rest)
    else if n == 0 then Advance(frames, Aggregate(ty, []), rest)
    else Working(Over(frames, Frame(ty, n, [])), None, rest)
  }

  lemma HeaderKeepsOutlook(cfg: Config, frames: Frames, ty: ItemType, n: int, rest: bytes, tail: bytes)
    requires n >= -1
    ensures Outlook(cfg, AfterHeader(frames, ty, n, rest), tail)
         == Unwind(cfg, frames, if n == -1 then Guard(ParentOf(frames), Done(Nil, rest + tail))
                                else Wrap(ty, [], BuildMany(cfg, ty, n, rest + tail)))
  {
    if n > 0 {
      NextElement(cfg, frames, Frame(ty, n, []), rest + tail);
    } else if n == 0 {
      var none: seq<Reply> := [];
      assert none + none == none;
      AdvanceKeepsOutlook(cfg, frames, Aggregate(ty, []), rest, tail);
    } else {
      DecideKeepsOutlook(cfg, frames, Nil, rest, tail);
    }
  }

  lemma HeaderStep(cfg: Config, frames: Frames, ty: ItemType, unread: bytes)
    requires ty.IsAggregate()
    ensures var d := DecodeHeader(cfg, ty, unread);
            && (d.Done? ==> SameOutlook(cfg, Working(frames, Some(ty), unread), AfterHeader(frames, ty, d.value, d.rest)))
            && (d.Bad? ==> SameOutlook(cfg, Working(frames, Some(ty), unread), Broken(d.error)))
  {
    var d := DecodeHeader(cfg, ty, unread);
    forall tail ensures Settled(d, DecodeHeader(cfg, ty, unread + tail), tail) {
      HeaderStable(cfg, ty, unread, tail);
    }
    if d.Done? {
      forall tail ensures Outlook(cfg, Working(frames, Some(ty), unread), tail)
                       == Outlook(cfg, AfterHeader(frames, ty, d.value, d.rest), tail) {
        assert Settled(d, DecodeHeader(cfg, ty, unread + tail), tail);
        HeaderKeepsOutlook(cfg, frames, ty, d.value, d.rest, tail);
      }
    } else if d.Bad? {
      forall tail ensures Outlook(cfg, Working(frames, Some(ty), unread), tail) == Bad(d.error) {
        assert Settled(d, DecodeHeader(cfg, ty, unread + tail), tail);
      }
    }
  }

  /** When the current item cannot be decided yet, neither can the reply. */
  lemma StuckMeansMore(cfg: Config, frames: Frames, current: Option<ItemType>, unread: bytes)
    requires BuildCurrent(cfg, frames, current, unread).More?
    ensures Outlook(cfg, Working(frames, current, unread), []) == More
  {
    assert unread + [] == unread;
  }

  /** What one call of an item processor does: it keeps the outlook, and it progresses, fails or is stuck. */
  ghost predicate Step(cfg: Config, before: Progress, after: Progress, ok: bool) {
    && SameOutlook(cfg, before, after)
    && (ok ==> !after.Broken? && !before.Broken? && |after.unread| < |before.unread|)
    && (!ok && !after.Broken? ==> after.Working? && BuildCurrent(cfg, after.frames, after.current, after.unread).More?)
  }

  lemma {:induction false} AdvanceNotBroken(frames: Frames, v: Reply, rest: bytes)
    ensures Advance(frames, v, rest).unread == rest
    ensures Advance(frames, v, rest).Working? ==> frames.Over? && Advance(frames, v, rest).frames.Over?
    decreases frames
  {
    if frames.Over? && |frames.top.done| + 1 >= frames.top.count {
      AdvanceNotBroken(frames.below, Aggregate(frames.top.kind, frames.top.done + [v]), rest);
    }
  }

  lemma SameAsItself(cfg: Config, p: Progress)
    ensures SameOutlook(cfg, p, p)
    ensures p.Working? && BuildCurrent(cfg, p.frames, p.current, p.unread).More? ==> Step(cfg, p, p, false)
  {
  }

  /** Reading the type byte first does not change what the step amounts to. */
  lemma StepAfter(cfg: Config, start: Progress, typed: Progress, after: Progress, ok: bool)
    requires SameOutlook(cfg, start, typed) && Step(cfg, typed, after, ok)
    requires !start.Broken? && !typed.Broken? && |typed.unread| <= |start.unread|
    ensures Step(cfg, start, after, ok)
  {
    forall tail ensures Outlook(cfg, start, tail) == Outlook(cfg, after, tail) {
      assert Outlook(cfg, start, tail) == Outlook(cfg, typed, tail);
    }
  }

  lemma LeafIsStep(cfg: Config, frames: Frames, ty: ItemType, unread: bytes)
    requires !ty.IsAggregate()
    ensures var d, before := DecodeLeaf(cfg, ty, unread), Working(frames, Some(ty), unread);
            && (d.Done? ==> Step(cfg, before, Decide(frames, d.value, d.rest), !Refused(ParentOf(frames), d.value)))
            && (d.Bad? ==> Step(cfg, before, Broken(d.error), false))
            && (d.More? ==> Step(cfg, before, before, false))
  {
    var d := DecodeLeaf(cfg, ty, unread);
    LeafStep(cfg, frames, ty, unread);
    if d.Done? { AdvanceNotBroken(frames, d.value, d.rest); }
  }

  lemma HeaderIsStep(cfg: Config, frames: Frames, ty: ItemType, unread: bytes)
    requires ty.IsAggregate()
    ensures var d, before := DecodeHeader(cfg, ty, unread), Working(frames, Some(ty), unread);
            && (d.Done? ==> var after := AfterHeader(frames, ty, d.value, d.rest); Step(cfg, before, after, !after.Broken?))
            && (d.Bad? ==> Step(cfg, before, Broken(d.error), false))
            && (d.More? ==> Step(cfg, before, before, false))
  {
    var d := DecodeHeader(cfg, ty, unread);
    HeaderStep(cfg, frames, ty, unread);
    if d.Done? {
      AdvanceNotBroken(frames, Nil, d.rest);
      AdvanceNotBroken(frames, Aggregate(ty, []), d.rest);
    }
  }

  // ----- whole streams -----

  /** All further replies of a reader at position p if s arrives next. */
  ghost function StreamFrom(cfg: Config, p: Progress, tail: bytes): Stream
  {
    match Outlook(cfg, p, tail)
    case More => Stream([], Waiting)
    case Bad(e) => Stream([], EndingOf(e))
    case Done(r, rest) => After([r], BuildStream(cfg, rest))
  }

  /**
   A reader that was fed some bytes, has returned some replies and stands at p is faithful when,
   whatever arrives, the returned replies followed by p's future are what the builders let through of the whole stream.
   */
  ghost predicate FaithfulTo(cfg: Config, fed: bytes, emitted: seq<Reply>, p: Progress) {
    forall tail :: BuildStream(cfg, fed + tail) == After(emitted, StreamFrom(cfg, p, tail))
  }

  lemma StartIsFaithful(cfg: Config)
    ensures FaithfulTo(cfg, [], [], Working(Bottom, None, []))
  {
    forall tail ensures BuildStream(cfg, [] + tail) == After([], StreamFrom(cfg, Working(Bottom, None, []), tail)) {
      assert [] + tail == tail;
      var none: seq<Reply> := [];
      assert none + BuildStream(cfg, tail).replies == BuildStream(cfg, tail).replies;
    }
  }

  lemma StepIsFaithful(cfg: Config, fed: bytes, emitted: seq<Reply>, p: Progress, q: Progress)
    requires FaithfulTo(cfg, fed, emitted, p) && SameOutlook(cfg, p, q)
    ensures FaithfulTo(cfg, fed, emitted, q)
  {
    forall tail ensures BuildStream(cfg, fed + tail) == After(emitted, StreamFrom(cfg, q, tail)) {
      assert Outlook(cfg, p, tail) == Outlook(cfg, q, tail);
      assert StreamFrom(cfg, p, tail) == StreamFrom(cfg, q, tail);
    }
  }

  /** Bytes appended to the unread ones; an error ignores them. */
  ghost function Fed(p: Progress, data: bytes): Progress {
    if p.Broken? then p else p.(unread := p.unread + data)
  }

  lemma FeedIsFaithful(cfg: Config, fed: bytes, emitted: seq<Reply>, p: Progress, data: bytes)
    requires FaithfulTo(cfg, fed, emitted, p)
    ensures FaithfulTo(cfg, fed + data, emitted, Fed(p, data))
  {
    var q := Fed(p, data);
    forall tail ensures BuildStream(cfg, fed + data + tail) == After(emitted, StreamFrom(cfg, q, tail)) {
      assert fed + data + tail == fed + (data + tail);
      if !p.Broken? { assert q.unread + tail == p.unread + (data + tail); }
      assert Outlook(cfg, q, tail) == Outlook(cfg, p, data + tail);
      assert StreamFrom(cfg, q, tail) == StreamFrom(cfg, p, data + tail);
    }
  }

  lemma EmitIsFaithful(cfg: Config, fed: bytes, emitted: seq<Reply>, r: Reply, unread: bytes)
    requires FaithfulTo(cfg, fed, emitted, Finished(r, unread))
    ensures FaithfulTo(cfg, fed, emitted + [r], Working(Bottom, None, unread))
  {
    var q := Working(Bottom, None, unread);
    forall tail ensures BuildStream(cfg, fed + tail) == After(emitted + [r], StreamFrom(cfg, q, tail)) {
      var s := BuildStream(cfg, unread + tail);
      assert StreamFrom(cfg, Finished(r, unread), tail) == After([r], s);
      assert StreamFrom(cfg, q, tail) == BuildStream(cfg, unread + tail);
      assert emitted + ([r] + s.replies) == emitted + [r] + s.replies;
    }
  }

  /** A reader that cannot go on has returned exactly the replies of what it was fed. */
  lemma DrainedIsComplete(cfg: Config, fed: bytes, emitted: seq<Reply>, p: Progress)
    requires FaithfulTo(cfg, fed, emitted, p)
    ensures Outlook(cfg, p, []).More? ==> BuildStream(cfg, fed) == Stream(emitted, Waiting)
    ensures p.Broken? ==> BuildStream(cfg, fed) == Stream(emitted, EndingOf(p.error))
  {
    assert fed + [] == fed;
    assert BuildStream(cfg, fed) == After(emitted, StreamFrom(cfg, p, []));
    assert emitted + [] == emitted;
  }
}
