/**
 The protocol as the default reply builders let it through. Those for doubles, nil and booleans
 assert that their parent is an array, a map or a set; the other builders admit a push as well.
 The decoder that stops where an assertion fails, and when exactly that is.
 */
module Builders {
  import opened Bytes
  import opened Resp

  /** The kind of the enclosing aggregate, None at the top. */
  type Parent = Option<ItemType>

  /** The assertion of a builder about its parent. */
  predicate Admits(kind: ItemType, r: Reply) {
    kind.ArrayType? || kind.MapType? || kind.SetType? || (kind.PushType? && !r.Double? && !r.Nil? && !r.Bool?)
  }

  /** A double, nil or boolean directly inside a push. */
  predicate Refused(parent: Parent, r: Reply) { parent == Some(PushType) && (r.Double? || r.Nil? || r.Bool?) }

  lemma RefusedIsNotAdmitted(kind: ItemType, r: Reply)
    requires kind.IsAggregate()
    ensures Refused(Some(kind), r) <==> !Admits(kind, r)
  {
  }

  function Guard(parent: Parent, d: Decoded<Reply>): (g: Decoded<Reply>)
    ensures g.Done? ==> g == d
  {
    if d.Done? && Refused(parent, d.value) then Bad(BuilderAssertion) else d
  }

  // ----- the decoder with its builders -----

  function BuildItem(cfg: Config, parent: Parent, s: bytes): (d: Decoded<Reply>)
    ensures d.Done? ==> |d.rest| < |s|
    decreases |s|, 0, 0
  {
    if s == [] then More
    else match TypeOf(s[0])
      case None => Bad(BadTypeByte(s[0]))
      case Some(ty) => BuildTyped(cfg, parent, ty, s[1..])
  }

  function BuildTyped(cfg: Config, parent: Parent, ty: ItemType, s: bytes): (d: Decoded<Reply>)
    ensures d.Done? ==> |d.rest| < |s|
    decreases |s|, 2, 0
  {
    if ty.IsLine() then Guard(parent, DecodeLine(cfg, ty, s))
    else if ty.IsBulk() then Guard(parent, DecodeBulk(ty, s))
    else match DecodeHeader(cfg, ty, s)
      case More => More
      case Bad(e) => Bad(e)
      case Done(n, rest) =>
        if n == -1 then Guard(parent, Done(Nil, rest)) else Wrap(ty, [], BuildMany(cfg, ty, n, rest))
  }

  function BuildMany(cfg: Config, kind: ItemType, n: nat, s: bytes): (d: Decoded<seq<Reply>>)
    ensures d.Done? ==> |d.rest| <= |s| && |d.value| == n
    decreases |s|, 1, n
  {
    if n == 0 then Done([], s)
    else match BuildItem(cfg, Some(kind), s)
      case More => More
      case Bad(e) => Bad(e)
      case Done(r, rest) => Prefixed(r, BuildMany(cfg, kind, n - 1, rest))
  }

  function EndingOf(e: ProtocolError): Ending { if e.BuilderAssertion? then Trapped else Failed(e) }

  /** What a reader with the default builders makes of a stream. */
  function BuildStream(cfg: Config, s: bytes): Stream
    decreases |s|
  {
    match BuildItem(cfg, None, s)
    case More => Stream([], Waiting)
    case Bad(e) => Stream([], EndingOf(e))
    case Done(r, rest) => After([r], BuildStream(cfg, rest))
  }

  // ----- where the protocol delivers what a builder refuses -----

  /** The item at the head of s, or an element within it, complete or still open, is refused by its builder. */
  predicate TripsItem(cfg: Config, parent: Parent, s: bytes)
    decreases |s|, 0, 0
  {
    s != [] && TypeOf(s[0]).Some? && TripsTyped(cfg, parent, TypeOf(s[0]).value, s[1..])
  }

  predicate TripsTyped(cfg: Config, parent: Parent, ty: ItemType, s: bytes)
    decreases |s|, 2, 0
  {
    if ty.IsLine() then var d := DecodeLine(cfg, ty, s); d.Done? && Refused(parent, d.value)
    else if ty.IsBulk() then var d := DecodeBulk(ty, s); d.Done? && Refused(parent, d.value)
    else
      var h := DecodeHeader(cfg, ty, s);
      h.Done? && if h.value == -1 then Refused(parent, Nil) else TripsMany(cfg, ty, h.value, h.rest)
  }

  predicate TripsMany(cfg: Config, kind: ItemType, n: nat, s: bytes)
    decreases |s|, 1, n
  {
    n > 0 && (TripsItem(cfg, Some(kind), s)
              || (DecodeItem(cfg, s).Done? && TripsMany(cfg, kind, n - 1, DecodeItem(cfg, s).rest)))
  }

  predicate TripsStream(cfg: Config, s: bytes)
    decreases |s|
  {
    TripsItem(cfg, None, s) || (DecodeItem(cfg, s).Done? && TripsStream(cfg, DecodeItem(cfg, s).rest))
  }

  /** The replies of a stream before the one that trips. */
  function RepliesBefore(cfg: Config, s: bytes): seq<Reply>
    decreases |s|
  {
    var d := DecodeItem(cfg, s);
    if TripsItem(cfg, None, s) || !d.Done? then [] else [d.value] + RepliesBefore(cfg, d.rest)
  }

  // ----- the two decoders -----

  /** The plain decoder's answer, unless an assertion fails first. */
  ghost predicate Agrees<T(!new)>(built: Decoded<T>, trips: bool, plain: Decoded<T>) {
    && built == (if trips then Bad(BuilderAssertion) else plain)
    && plain != Bad(BuilderAssertion)
  }

  lemma {:induction false} ItemAgrees(cfg: Config, parent: Parent, s: bytes)
    ensures Agrees(BuildItem(cfg, parent, s), TripsItem(cfg, parent, s), DecodeItem(cfg, s))
    decreases |s|, 0, 0
  {
    if s != [] && TypeOf(s[0]).Some? { TypedAgrees(cfg, parent, TypeOf(s[0]).value, s[1..]); }
  }

  lemma {:induction false} TypedAgrees(cfg: Config, parent: Parent, ty: ItemType, s: bytes)
    ensures Agrees(BuildTyped(cfg, parent, ty, s), TripsTyped(cfg, parent, ty, s), DecodeTyped(cfg, ty, s))
    decreases |s|, 2, 0
  {
    if ty.IsAggregate() {
      var h := DecodeHeader(cfg, ty, s);
      if h.Done? && h.value >= 0 { ManyAgrees(cfg, ty, h.value, h.rest); }
    }
  }

  lemma {:induction false} ManyAgrees(cfg: Config, kind: ItemType, n: nat, s: bytes)
    ensures Agrees(BuildMany(cfg, kind, n, s), TripsMany(cfg, kind, n, s), DecodeMany(cfg, n, s))
    decreases |s|, 1, n
  {
    if n > 0 {
      ItemAgrees(cfg, Some(kind), s);
      var d := DecodeItem(cfg, s);
      if d.Done? { ManyAgrees(cfg, kind, n - 1, d.rest); }
    }
  }

  /** The builders change nothing about a stream until it trips, and everything before that comes through. */
  lemma {:induction false} StreamAgrees(cfg: Config, s: bytes)
    ensures BuildStream(cfg, s) ==
              if TripsStream(cfg, s) then Stream(RepliesBefore(cfg, s), Trapped) else DecodeStream(cfg, s)
    ensures DecodeStream(cfg, s).ending != Trapped
    decreases |s|
  {
    ItemAgrees(cfg, None, s);
    var d := DecodeItem(cfg, s);
    if d.Done? { StreamAgrees(cfg, d.rest); }
  }

  // ----- the same, seen on the replies -----

  /** Somewhere in the tree a push has a double, nil or boolean as an element. */
  predicate HasRefused(r: Reply)
    decreases r
  {
    r.Aggregate? && exists i :: 0 <= i < |r.elements| && (Refused(Some(r.kind), r.elements[i]) || HasRefused(r.elements[i]))
  }

  predicate AnyRefused(kind: ItemType, es: seq<Reply>) {
    exists i :: 0 <= i < |es| && (Refused(Some(kind), es[i]) || HasRefused(es[i]))
  }

  /** A complete reply trips exactly when it holds what a builder refuses. */
  lemma {:induction false} ItemTripsIff(cfg: Config, parent: Parent, s: bytes)
    requires DecodeItem(cfg, s).Done?
    ensures var r := DecodeItem(cfg, s).value; TripsItem(cfg, parent, s) <==> Refused(parent, r) || HasRefused(r)
    decreases |s|, 0, 0
  {
    var ty, t := TypeOf(s[0]).value, s[1..];
    if ty.IsAggregate() {
      var h := DecodeHeader(cfg, ty, t);
      if h.value >= 0 {
        ManyTripsIff(cfg, ty, h.value, h.rest);
        var es := DecodeMany(cfg, h.value, h.rest).value;
        assert [] + es == es;
        assert DecodeItem(cfg, s).value == Aggregate(ty, es);
      }
    }
  }

  lemma {:induction false} ManyTripsIff(cfg: Config, kind: ItemType, n: nat, s: bytes)
    requires DecodeMany(cfg, n, s).Done?
    ensures TripsMany(cfg, kind, n, s) <==> AnyRefused(kind, DecodeMany(cfg, n, s).value)
    decreases |s|, 1, n
  {
    if n > 0 {
      var d := DecodeItem(cfg, s);
      ItemTripsIff(cfg, Some(kind), s);
      ManyTripsIff(cfg, kind, n - 1, d.rest);
      AnyOfCons(kind, d.value, DecodeMany(cfg, n - 1, d.rest).value);
    }
  }

  lemma AnyOfCons(kind: ItemType, r: Reply, es: seq<Reply>)
    ensures AnyRefused(kind, [r] + es) <==> Refused(Some(kind), r) || HasRefused(r) || AnyRefused(kind, es)
  {
    var all := [r] + es;
    if AnyRefused(kind, es) {
      var i :| 0 <= i < |es| && (Refused(Some(kind), es[i]) || HasRefused(es[i]));
      assert all[i + 1] == es[i];
    }
    if AnyRefused(kind, all) {
      var i :| 0 <= i < |all| && (Refused(Some(kind), all[i]) || HasRefused(all[i]));
      assert i > 0 ==> all[i] == es[i - 1];
    }
    assert all[0] == r;
  }

  /** What is left of a stream after its complete replies. */
  function Leftover(cfg: Config, s: bytes): bytes
    decreases |s|
  {
    if DecodeItem(cfg, s).Done? then Leftover(cfg, DecodeItem(cfg, s).rest) else s
  }

  predicate SomeHasRefused(rs: seq<Reply>) { exists i :: 0 <= i < |rs| && HasRefused(rs[i]) }

  lemma SomeOfCons(r: Reply, rs: seq<Reply>)
    ensures SomeHasRefused([r] + rs) <==> HasRefused(r) || SomeHasRefused(rs)
  {
    var all := [r] + rs;
    assert all[0] == r;
    assert forall i :: 0 <= i < |rs| ==> all[i + 1] == rs[i];
    if i :| 0 < i < |all| && HasRefused(all[i]) { assert HasRefused(rs[i - 1]); }
    if j :| 0 <= j < |rs| && HasRefused(rs[j]) { assert HasRefused(all[j + 1]); }
  }

  /**
   A stream trips exactly when one of its replies holds what a builder refuses, or what it has
   delivered of the reply still open does.
   */
  lemma {:induction false} StreamTripsIff(cfg: Config, s: bytes)
    ensures TripsStream(cfg, s) <==>
              SomeHasRefused(DecodeStream(cfg, s).replies) || TripsItem(cfg, None, Leftover(cfg, s))
    decreases |s|
  {
    var d := DecodeItem(cfg, s);
    if d.Done? {
      ItemTripsIff(cfg, None, s);
      StreamTripsIff(cfg, d.rest);
      SomeOfCons(d.value, DecodeStream(cfg, d.rest).replies);
    }
  }

  /** What comes through before the trap: the first replies, up to the first that holds what a builder refuses. */
  lemma {:induction false} BeforeTheTrap(cfg: Config, s: bytes)
    ensures var all, out := DecodeStream(cfg, s).replies, RepliesBefore(cfg, s);
            && out <= all && !SomeHasRefused(out)
            && (|out| < |all| ==> HasRefused(all[|out|]))
    decreases |s|
  {
    var d := DecodeItem(cfg, s);
    if d.Done? {
      ItemTripsIff(cfg, None, s);
      if !TripsItem(cfg, None, s) {
        BeforeTheTrap(cfg, d.rest);
        SomeOfCons(d.value, RepliesBefore(cfg, d.rest));
      }
    }
  }

  /** A trap is final: no continuation of the bytes takes it back. */
  lemma {:induction false} TripsStays(cfg: Config, parent: Parent, s: bytes, t: bytes)
    requires TripsItem(cfg, parent, s)
    ensures TripsItem(cfg, parent, s + t)
    decreases |s|, 0, 0
  {
    assert (s + t)[1..] == s[1..] + t;
    var ty := TypeOf(s[0]).value;
    if ty.IsLine() {
      LineStable(cfg, ty, s[1..], t);
    } else if ty.IsBulk() {
      BulkStable(ty, s[1..], t);
    } else {
      HeaderStable(cfg, ty, s[1..], t);
      var h := DecodeHeader(cfg, ty, s[1..]);
      if h.value >= 0 { ManyTripsStays(cfg, ty, h.value, h.rest, t); }
    }
  }

  lemma {:induction false} ManyTripsStays(cfg: Config, kind: ItemType, n: nat, s: bytes, t: bytes)
    requires TripsMany(cfg, kind, n, s)
    ensures TripsMany(cfg, kind, n, s + t)
    decreases |s|, 1, n
  {
    if TripsItem(cfg, Some(kind), s) {
      TripsStays(cfg, Some(kind), s, t);
    } else {
      ItemStable(cfg, s, t);
      ManyTripsStays(cfg, kind, n - 1, DecodeItem(cfg, s).rest, t);
    }
  }

  /** Whatever completes an open reply that trips, the complete reply holds what a builder refuses. */
  lemma OpenTripIsInEveryCompletion(cfg: Config, s: bytes, t: bytes)
    requires TripsItem(cfg, None, s) && DecodeItem(cfg, s + t).Done?
    ensures HasRefused(DecodeItem(cfg, s + t).value)
  {
    TripsStays(cfg, None, s, t);
    ItemTripsIff(cfg, None, s + t);
  }

  /** A push with nil in it is a reply of the protocol, and stops the code. */
  lemma NilInPushTraps(cfg: Config)
    ensures var r := Aggregate(PushType, [Nil]);
            && DecodeStream(cfg, Encode(r)) == Stream([r], Waiting)
            && BuildStream(cfg, Encode(r)) == Stream([], Trapped)
  {
    var r := Aggregate(PushType, [Nil]);
    var s := Encode(r);
    assert s + [] == s;
    DecodeEncode(cfg, r, []);
    assert Refused(Some(PushType), r.elements[0]);
    assert HasRefused(r);
    ItemTripsIff(cfg, None, s);
    StreamAgrees(cfg, s);
    assert DecodeItem(cfg, []) == More;
    assert [r] + [] == [r];
  }

  /** An aggregate of one element stops the code exactly when it is a push and the element a double, nil or boolean. */
  lemma OneElementTrapsIff(cfg: Config, kind: ItemType, x: Reply)
    requires Sendable(cfg, Aggregate(kind, [x])) && !x.Aggregate?
    ensures BuildStream(cfg, Encode(Aggregate(kind, [x]))) ==
              if kind.PushType? && (x.Double? || x.Nil? || x.Bool?) then Stream([], Trapped)
              else Stream([Aggregate(kind, [x])], Waiting)
  {
    var r := Aggregate(kind, [x]);
    var s := Encode(r);
    assert s + [] == s;
    DecodeEncode(cfg, r, []);
    assert r.elements[0] == x;
    ItemTripsIff(cfg, None, s);
    StreamAgrees(cfg, s);
    assert DecodeItem(cfg, []) == More;
    assert [r] + [] == [r];
  }
}
