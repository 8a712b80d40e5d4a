/** The streams the decoder refuses: exactly those that begin with malformed bytes. */
module Refusals {
  import opened Bytes
  import opened Integers
  import opened Resp
  import opened Grammar

  // ----- what is malformed -----

  predicate IsBulkByte(b: byte) { b == 36 || b == 61 }

  predicate IsAggregateByte(b: byte) { b == 42 || b == 37 || b == 126 || b == 62 }

  predicate IsTypeByte(b: byte) { b in {45, 43, 58, 44, 95, 35} || IsBulkByte(b) || IsAggregateByte(b) }

  ghost predicate NoNumber(t: bytes) { forall v :: !IsNumber(t, v) }

  /** The number t spells is below the bound, or above it; there may be none. */
  ghost predicate NumberIn(t: bytes, good: int -> bool) { exists v :: IsNumber(t, v) && good(v) }

  /** A line that cannot be what its type byte announces. */
  ghost predicate BadText(cfg: Config, b: byte, t: bytes, e: ProtocolError) {
    if b == 58 then e.BadInteger? && NoNumber(t)
    else if b == 44 then
      if |t| >= 326 then e.DoubleTooLarge? else e.BadDouble? && !cfg.validDouble(t)
    else if IsBulkByte(b) then
      (e.BadBulkLength? && NoNumber(t)) || (e.BulkLengthOutOfRange? && NumberIn(t, v => v < -1))
    else if IsAggregateByte(b) then
      (e.BadMultiBulkLength? && NoNumber(t)) || (e.MultiBulkLengthOutOfRange? && NumberIn(t, v => !Allowed(cfg, v)))
    else false
  }

  ghost predicate BadLine(cfg: Config, w: bytes, e: ProtocolError) {
    |w| >= 3 && IsLine(w[0], w) && BadText(cfg, w[0], LineText(w), e)
  }

  /** A verbatim string whose body does not begin with three bytes and a colon. */
  ghost predicate BadBody(w: bytes) { exists body :: IsBulk(61, w, body) && (|body| < 4 || body[3] != 58) }

  /** Malformed at the outermost level. */
  ghost predicate MalformedHere(cfg: Config, w: bytes, e: ProtocolError) {
    || (|w| == 1 && !IsTypeByte(w[0]) && e == BadTypeByte(w[0]))
    || BadLine(cfg, w, e)
    || (BadBody(w) && e == BadVerbatim)
  }

  /** The bytes up to the point where the stream is known to be broken. */
  ghost predicate Malformed(cfg: Config, w: bytes, e: ProtocolError)
    decreases |w|, 1
  {
    || MalformedHere(cfg, w, e)
    || exists kind: ItemType, n: nat, good, rs, bad :: MalformedInside(cfg, w, kind, n, good, rs, bad, e)
  }

  /** An aggregate of n elements (for a map: pairs), the first of them spelled and the next one malformed. */
  ghost predicate MalformedInside(cfg: Config, w: bytes, kind: ItemType, n: nat, good: bytes, rs: seq<Reply>, bad: bytes,
                                  e: ProtocolError)
    decreases |w|, 0
  {
    && kind.IsAggregate() && Allowed(cfg, n) && |rs| < (if kind.MapType? then 2 * n else n)
    && w == Header(kind, n) + good + bad && SpellsAll(cfg, good, rs) && Malformed(cfg, bad, e)
  }

  // ----- malformed bytes are refused -----

  lemma TypeBytes(b: byte)
    ensures TypeOf(b).Some? <==> IsTypeByte(b)
    ensures TypeOf(b).Some? ==> (TypeOf(b).value.IsBulk() <==> IsBulkByte(b)) && (TypeOf(b).value.IsAggregate() <==> IsAggregateByte(b))
  {
  }

  lemma NumberOf(t: bytes, p: Option<int>)
    requires p == ParseLongLong(t)
    ensures p.None? <==> NoNumber(t)
    ensures forall good :: NumberIn(t, good) <==> p.Some? && good(p.value)
    ensures p.Some? ==> InLongLong(p.value)
  {
    if p.Some? { NumberIff(t, p.value); }
    forall v | IsNumber(t, v) ensures p == Some(v) { NumberIff(t, v); }
  }

  /** What the decoder makes of the line after a type byte: an error at once, or none yet. */
  function LineVerdict(cfg: Config, ty: ItemType, t: bytes): Option<ProtocolError> {
    if ty.IsLine() then (if LineReply(cfg, ty, t).Reject? then Some(LineReply(cfg, ty, t).error) else None)
    else match ParseLongLong(t)
      case None => Some(if ty.IsBulk() then BadBulkLength else BadMultiBulkLength)
      case Some(n) =>
        if ty.IsBulk() then (if n < -1 then Some(BulkLengthOutOfRange) else None)
        else if n < -1 || (cfg.maxElements > 0 && n > cfg.maxElements) then Some(MultiBulkLengthOutOfRange) else None
  }

  lemma {:induction false} LineVerdictIff(cfg: Config, b: byte, ty: ItemType, t: bytes, e: ProtocolError, p: Option<int>)
    requires TypeOf(b) == Some(ty) && ty.IsLine() && p == ParseLongLong(t) && (p.None? <==> NoNumber(t))
    ensures BadText(cfg, b, t, e) <==> LineVerdict(cfg, ty, t) == Some(e)
  {
    if ty.IntegerType? {
      assert b == 58;
    } else if ty.DoubleType? {
      assert b == 44;
    } else {
      assert !IsBulkByte(b) && !IsAggregateByte(b) && LineVerdict(cfg, ty, t).None?;
    }
  }

  lemma {:induction false} CountVerdictIff(cfg: Config, b: byte, ty: ItemType, t: bytes, e: ProtocolError, p: Option<int>)
    requires TypeOf(b) == Some(ty) && !ty.IsLine() && p == ParseLongLong(t) && (p.None? <==> NoNumber(t))
    requires p.Some? ==> InLongLong(p.value)
    requires NumberIn(t, v => v < -1) <==> p.Some? && p.value < -1
    requires NumberIn(t, v => !Allowed(cfg, v)) <==> p.Some? && !Allowed(cfg, p.value)
    ensures BadText(cfg, b, t, e) <==> LineVerdict(cfg, ty, t) == Some(e)
  {
  }

  lemma VerdictIff(cfg: Config, b: byte, ty: ItemType, t: bytes, e: ProtocolError)
    requires TypeOf(b) == Some(ty)
    ensures BadText(cfg, b, t, e) <==> LineVerdict(cfg, ty, t) == Some(e)
  {
    var p := ParseLongLong(t);
    NumberOf(t, p);
    if ty.IsLine() {
      LineVerdictIff(cfg, b, ty, t, e, p);
    } else {
      CountVerdictIff(cfg, b, ty, t, e, p);
    }
  }

  lemma {:induction false} VerdictDecides(cfg: Config, ty: ItemType, s: bytes, t: bytes, rest: bytes, e: ProtocolError)
    requires CutLine(s) == Line(t, rest) && LineVerdict(cfg, ty, t) == Some(e)
    ensures DecodeTyped(cfg, ty, s) == Bad(e)
  {
  }

  lemma BadLineIsRefused(cfg: Config, w: bytes, e: ProtocolError, rest: bytes)
    requires BadLine(cfg, w, e)
    ensures DecodeItem(cfg, w + rest) == Bad(e)
  {
    TypeBytes(w[0]);
    CutWritten(w[0], w, rest);
    VerdictIff(cfg, w[0], TypeOf(w[0]).value, LineText(w), e);
    VerdictDecides(cfg, TypeOf(w[0]).value, (w + rest)[1..], LineText(w), rest, e);
  }

  lemma BadBodyIsRefused(cfg: Config, w: bytes, rest: bytes)
    requires BadBody(w)
    ensures DecodeItem(cfg, w + rest) == Bad(BadVerbatim)
  {
    var body :| IsBulk(61, w, body) && (|body| < 4 || body[3] != 58);
    BulkIsRead(cfg, 61, VerbType, w, body, rest);
  }

  lemma MalformedHereIsRefused(cfg: Config, w: bytes, e: ProtocolError, rest: bytes)
    requires MalformedHere(cfg, w, e)
    ensures DecodeItem(cfg, w + rest) == Bad(e)
  {
    if |w| == 1 && !IsTypeByte(w[0]) && e == BadTypeByte(w[0]) {
      TypeBytes(w[0]);
    } else if BadLine(cfg, w, e) {
      BadLineIsRefused(cfg, w, e, rest);
    } else {
      BadBodyIsRefused(cfg, w, rest);
    }
  }

  lemma {:induction false} MalformedIsRefused(cfg: Config, w: bytes, e: ProtocolError, rest: bytes)
    requires Malformed(cfg, w, e)
    ensures DecodeItem(cfg, w + rest) == Bad(e)
    decreases |w|
  {
    if MalformedHere(cfg, w, e) {
      MalformedHereIsRefused(cfg, w, e, rest);
    } else {
      var kind: ItemType, n: nat, good, rs, bad :| MalformedInside(cfg, w, kind, n, good, rs, bad, e);
      MalformedIsRefused(cfg, bad, e, rest);
      InsideIsRefused(cfg, kind, n, good, rs, bad + rest, e);
      Regroup4(Header(kind, n), good, bad, rest);
      Regroup(Header(kind, n), good, bad + rest);
      Regroup(good, bad, rest);
    }
  }

  lemma {:induction false} InsideIsRefused(cfg: Config, kind: ItemType, n: nat, good: bytes, rs: seq<Reply>, s: bytes, e: ProtocolError)
    requires kind.IsAggregate() && Allowed(cfg, n) && |rs| < (if kind.MapType? then 2 * n else n)
    requires SpellsAll(cfg, good, rs) && DecodeItem(cfg, s) == Bad(e)
    ensures DecodeItem(cfg, Header(kind, n) + (good + s)) == Bad(e)
  {
    var all := Header(kind, n) + (good + s);
    HeaderIsRead(cfg, kind, n, all, good + s);
    GoodThenBad(cfg, good, rs, if kind.MapType? then 2 * n else n, s, e);
    AggregateIsRefused(cfg, kind, all, if kind.MapType? then 2 * n else n, good + s, e);
  }

  lemma AggregateIsRefused(cfg: Config, kind: ItemType, s: bytes, n: nat, body: bytes, e: ProtocolError)
    requires kind.IsAggregate() && s != [] && TypeOf(s[0]) == Some(kind)
    requires DecodeHeader(cfg, kind, s[1..]) == Done(n, body) && DecodeMany(cfg, n, body) == Bad(e)
    ensures DecodeItem(cfg, s) == Bad(e)
  {
  }

  lemma {:induction false} GoodThenBad(cfg: Config, good: bytes, rs: seq<Reply>, n: nat, s: bytes, e: ProtocolError)
    requires SpellsAll(cfg, good, rs) && |rs| < n && DecodeItem(cfg, s) == Bad(e)
    ensures DecodeMany(cfg, n, good + s) == Bad(e)
    decreases |rs|
  {
    if rs == [] {
      assert good + s == s;
    } else {
      var first, others := SplitFirst(cfg, good, rs);
      GoodThenBad(cfg, others, rs[1..], n - 1, s, e);
      GoodFirst(cfg, first, rs[0], others + s, n, e);
      Regroup(first, others, s);
    }
  }

  lemma {:induction false} GoodFirst(cfg: Config, first: bytes, r: Reply, more: bytes, n: nat, e: ProtocolError)
    requires n > 0 && Spells(cfg, first, r) && DecodeMany(cfg, n - 1, more) == Bad(e)
    ensures DecodeMany(cfg, n, first + more) == Bad(e)
  {
    SpelledIsRead(cfg, first, r, more);
    RefusedLater(cfg, first + more, r, more, n, e);
  }

  lemma RefusedLater(cfg: Config, s: bytes, r: Reply, more: bytes, n: nat, e: ProtocolError)
    requires n > 0 && DecodeItem(cfg, s) == Done(r, more) && DecodeMany(cfg, n - 1, more) == Bad(e)
    ensures DecodeMany(cfg, n, s) == Bad(e)
  {
  }

  // ----- what is refused was malformed -----

  lemma DecodeLineVerdict(cfg: Config, ty: ItemType, s: bytes, c: LineCut, d: Decoded<Reply>)
    requires c == CutLine(s) && d == DecodeTyped(cfg, ty, s) && d.Bad?
    ensures c.Line?
    ensures LineVerdict(cfg, ty, c.text) == Some(d.error)
         || (LineVerdict(cfg, ty, c.text).None? && ty.VerbType? && DecodeBulk(ty, s) == d)
         || (LineVerdict(cfg, ty, c.text).None? && ty.IsAggregate() && DecodeHeader(cfg, ty, s).Done?
             && DecodeHeader(cfg, ty, s).value >= 0 && DecodeMany(cfg, DecodeHeader(cfg, ty, s).value, DecodeHeader(cfg, ty, s).rest) == Bad(d.error))
  {
  }

  lemma {:induction false} RefusedWasMalformed(cfg: Config, s: bytes) returns (w: bytes)
    requires DecodeItem(cfg, s).Bad?
    ensures w <= s && Malformed(cfg, w, DecodeItem(cfg, s).error)
    decreases |s|, 0, 0
  {
    var e := DecodeItem(cfg, s).error;
    TypeBytes(s[0]);
    if TypeOf(s[0]).None? {
      w := [s[0]];
      assert MalformedHere(cfg, w, e);
    } else {
      var ty := TypeOf(s[0]).value;
      var c := CutLine(s[1..]);
      DecodeLineVerdict(cfg, ty, s[1..], c, DecodeTyped(cfg, ty, s[1..]));
      if LineVerdict(cfg, ty, c.text) == Some(e) {
        w := CutWasWritten(s, c.text, c.rest);
        VerdictIff(cfg, s[0], ty, c.text, e);
        assert MalformedHere(cfg, w, e);
      } else if ty.VerbType? {
        w := BodyWasMalformed(s, c.text, c.rest);
        assert MalformedHere(cfg, w, e);
      } else {
        var n := HeaderWasSpelled(cfg, s, ty);
        var h := DecodeHeader(cfg, ty, s[1..]);
        var good, rs, bad := ManyWereMalformed(cfg, h.value, h.rest);
        w := Header(ty, n) + good + bad;
        assert MalformedInside(cfg, w, ty, n, good, rs, bad, e);
        PrefixOf(Header(ty, n), good + bad, h.rest);
        Regroup(Header(ty, n), good, bad);
      }
    }
  }

  lemma PrefixOf(a: bytes, b: bytes, c: bytes)
    requires b <= c
    ensures a + b <= a + c
  {
  }

  lemma {:induction false} ManyWereMalformed(cfg: Config, n: nat, s: bytes) returns (good: bytes, rs: seq<Reply>, bad: bytes)
    requires DecodeMany(cfg, n, s).Bad?
    ensures good + bad <= s && SpellsAll(cfg, good, rs) && |rs| < n && Malformed(cfg, bad, DecodeMany(cfg, n, s).error)
    decreases |s|, 1, n
  {
    var d := DecodeItem(cfg, s);
    if d.Bad? {
      good, rs := [], [];
      bad := RefusedWasMalformed(cfg, s);
      assert [] + bad == bad;
    } else {
      var first := ReadWasSpelled(cfg, s);
      var g, ts, b := ManyWereMalformed(cfg, n - 1, d.rest);
      good, rs, bad := first + g, [d.value] + ts, b;
      SpellsMore(cfg, first, d.value, g, ts);
      PrefixOf(first, g + b, d.rest);
      Regroup(first, g, b);
    }
  }

  lemma BodyWasMalformed(s: bytes, t: bytes, rest: bytes) returns (w: bytes)
    requires s != [] && TypeOf(s[0]) == Some(VerbType) && CutLine(s[1..]) == Line(t, rest)
    requires ParseLongLong(t).Some? && ParseLongLong(t).value >= -1 && DecodeBulk(VerbType, s[1..]).Bad?
    ensures w <= s && BadBody(w) && DecodeBulk(VerbType, s[1..]).error == BadVerbatim
  {
    var len := ParseLongLong(t).value;
    NumberIff(t, len);
    var line := CutWasWritten(s, t, rest);
    w := BodyWasSpelled(s, line, t, len, rest);
    assert s[0] == 61;
    assert w <= s;
  }

  ghost predicate BrokenBy(cfg: Config, s: bytes, w: bytes, e: ProtocolError) { w <= s && Malformed(cfg, w, e) }

  /** The decoder refuses a stream exactly when it begins with bytes that are malformed in that way. */
  lemma RefusedIffMalformed(cfg: Config, s: bytes, e: ProtocolError)
    ensures DecodeItem(cfg, s) == Bad(e) <==> exists w :: BrokenBy(cfg, s, w, e)
  {
    forall w | BrokenBy(cfg, s, w, e) ensures DecodeItem(cfg, s) == Bad(e) {
      assert w + s[|w|..] == s;
      MalformedIsRefused(cfg, w, e, s[|w|..]);
    }
    if DecodeItem(cfg, s) == Bad(e) {
      var w := RefusedWasMalformed(cfg, s);
      assert BrokenBy(cfg, s, w, e);
    }
  }
}
