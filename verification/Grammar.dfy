/**
 The protocol as a grammar, with every byte written out: which bytes spell a reply, and which are
 malformed. The recursive decoder reads exactly the first and refuses exactly the second.
 */
module Grammar {
  import opened Bytes
  import opened Integers
  import opened Resp

  // ----- lines -----

  /** No CRLF inside. */
  predicate OneLine(t: bytes) { forall i :: 0 <= i && i + 1 < |t| ==> !(t[i] == 13 && t[i + 1] == 10) }

  /** A type byte, a line and its CRLF. */
  predicate IsLine(b: byte, w: bytes) { |w| >= 3 && w[0] == b && w[|w| - 2..] == [13, 10] && OneLine(w[1..|w| - 2]) }

  function LineText(w: bytes): bytes
    requires |w| >= 3
  {
    w[1..|w| - 2]
  }

  /** The one spelling of a 64-bit number. */
  predicate IsNumber(t: bytes, v: int) { InLongLong(v) && t == Integers.Text(v) }

  /** A type byte, the length of the body, the body, and two bytes nobody looks at. */
  predicate IsBulk(b: byte, w: bytes, body: bytes) {
    |body| <= LLONG_MAX && |w| >= 2 && w == [b] + Integers.Text(|body|) + [13, 10] + body + w[|w| - 2..]
  }

  function Header(kind: ItemType, n: int): bytes
    requires kind.IsAggregate()
  {
    [if kind.ArrayType? then 42 else if kind.MapType? then 37 else if kind.SetType? then 126 else 62] + Integers.Text(n) + [13, 10]
  }

  predicate Allowed(cfg: Config, n: int) { -1 <= n <= LLONG_MAX && (cfg.maxElements > 0 ==> n <= cfg.maxElements) }

  // ----- what spells a reply -----

  /** "_" with any line, or a bulk string or an aggregate of length -1. */
  predicate SpellsNil(w: bytes) {
    || IsLine(95, w)
    || w == [36, 45, 49, 13, 10] || w == [61, 45, 49, 13, 10]
    || w == [42, 45, 49, 13, 10] || w == [37, 45, 49, 13, 10] || w == [126, 45, 49, 13, 10] || w == [62, 45, 49, 13, 10]
  }

  ghost predicate Spells(cfg: Config, w: bytes, r: Reply)
    decreases r, 0
  {
    match r
    case Integer(v) => IsLine(58, w) && IsNumber(LineText(w), v)
    case Text(kind, text) =>
      || (kind.StringType? && IsBulk(36, w, text))
      || (kind.StatusType? && IsLine(43, w) && LineText(w) == text)
      || (kind.ErrorType? && IsLine(45, w) && LineText(w) == text)
    case Verbatim(vtype, text) => |vtype| == 3 && IsBulk(61, w, vtype + [58] + text)
    case Double(text) => IsLine(44, w) && LineText(w) == text && |text| < 326 && cfg.validDouble(text)
    case Nil => SpellsNil(w)
    case Bool(flag) => IsLine(35, w) && (flag <==> LineText(w) != [] && LineText(w)[0] in {116, 84})
    case Aggregate(kind, es) =>
      && kind.IsAggregate() && (kind.MapType? ==> |es| % 2 == 0)
      && var n := if kind.MapType? then |es| / 2 else |es|;
         Allowed(cfg, n) && Header(kind, n) <= w && SpellsAll(cfg, w[|Header(kind, n)|..], es)
  }

  /** Replies one after the other. */
  ghost predicate SpellsAll(cfg: Config, w: bytes, es: seq<Reply>)
    decreases es, 2
  {
    if es == [] then w == [] else exists k :: 0 <= k <= |w| && SplitsAt(cfg, w, es, k)
  }

  ghost predicate SplitsAt(cfg: Config, w: bytes, es: seq<Reply>, k: nat)
    requires es != [] && k <= |w|
    decreases es, 1
  {
    Spells(cfg, w[..k], es[0]) && SpellsAll(cfg, w[k..], es[1..])
  }

  // ----- lines as the decoder cuts them -----

  lemma CutIff(s: bytes, t: bytes, rest: bytes)
    ensures CutLine(s) == Line(t, rest) <==> OneLine(t) && s == t + [13, 10] + rest
  {
    FindCrlfIsFirst(s);
    if OneLine(t) && s == t + [13, 10] + rest {
      assert s[|t|] == 13 && s[|t| + 1] == 10;
      forall j | 0 <= j < |t| ensures !(s[j] == 13 && s[j + 1] == 10) {
        assert s[j] == t[j];
        if j + 1 < |t| { assert s[j + 1] == t[j + 1]; }
      }
      assert s[..|t|] == t && s[|t| + 2..] == rest;
    }
    if CutLine(s) == Line(t, rest) {
      var i := FindCrlf(s).value;
      assert s == s[..i] + [13, 10] + s[i + 2..];
      forall j | 0 <= j && j + 1 < |t| ensures !(t[j] == 13 && t[j + 1] == 10) {
        assert t[j] == s[j] && t[j + 1] == s[j + 1];
      }
    }
  }

  /** A written line at the head of a stream. */
  lemma CutWritten(b: byte, w: bytes, rest: bytes)
    requires IsLine(b, w)
    ensures CutLine((w + rest)[1..]) == Line(LineText(w), rest) && (w + rest)[0] == b
  {
    var t := LineText(w);
    assert w == [b] + t + [13, 10];
    assert (w + rest)[1..] == t + [13, 10] + rest;
    CutIff((w + rest)[1..], t, rest);
  }

  /** A line cut from a stream, as it was written. */
  lemma CutWasWritten(s: bytes, t: bytes, rest: bytes) returns (w: bytes)
    requires s != [] && CutLine(s[1..]) == Line(t, rest)
    ensures s == w + rest && IsLine(s[0], w) && LineText(w) == t && w == [s[0]] + t + [13, 10]
  {
    CutIff(s[1..], t, rest);
    w := [s[0]] + t + [13, 10];
    assert s == [s[0]] + s[1..];
    assert w[1..|w| - 2] == t;
  }

  lemma NumberIff(t: bytes, v: int)
    ensures ParseLongLong(t) == Some(v) <==> IsNumber(t, v)
  {
    ParseIsInverseOfText(t, v);
  }

  // ----- spelled replies are read -----

  lemma LeafIsRead(cfg: Config, w: bytes, r: Reply, rest: bytes)
    requires Spells(cfg, w, r) && !r.Aggregate? && !r.Nil? && !r.Verbatim? && !(r.Text? && r.kind.StringType?)
    ensures DecodeItem(cfg, w + rest) == Done(r, rest)
  {
    var b := w[0];
    CutWritten(b, w, rest);
    if r.Integer? { NumberIff(LineText(w), r.value); }
  }

  lemma MinusOne(t: bytes)
    requires t == [45, 49]
    ensures ParseLongLong(t) == Some(-1) && OneLine(t)
  {
    assert Decimal(1) == [49];
    assert Integers.Text(-1) == [45, 49];
    NumberIff(t, -1);
  }

  lemma ShortLine(b: byte, w: bytes)
    requires w == [b, 45, 49, 13, 10]
    ensures IsLine(b, w) && LineText(w) == [45, 49]
  {
  }

  lemma MinusOneIsNil(cfg: Config, ty: ItemType, s: bytes, rest: bytes)
    requires !ty.IsLine() && CutLine(s) == Line([45, 49], rest) && ParseLongLong([45, 49]) == Some(-1)
    ensures DecodeTyped(cfg, ty, s) == Done(Nil, rest)
  {
  }

  /** Every spelling of nil is read as nil: "$-1", "*-1" and their siblings as well as "_". */
  lemma NilIsRead(cfg: Config, w: bytes, rest: bytes)
    requires SpellsNil(w)
    ensures DecodeItem(cfg, w + rest) == Done(Nil, rest)
  {
    if IsLine(95, w) {
      CutWritten(95, w, rest);
    } else {
      MinusOne([45, 49]);
      ShortLine(w[0], w);
      CutWritten(w[0], w, rest);
      MinusOneIsNil(cfg, TypeOf(w[0]).value, (w + rest)[1..], rest);
    }
  }

  lemma BodyIsRead(ty: ItemType, s: bytes, t: bytes, body: bytes, skipped: bytes, rest: bytes, more: bytes)
    requires ty.IsBulk() && OneLine(t) && IsNumber(t, |body|) && |skipped| == 2
    requires more == body + skipped + rest && s == t + [13, 10] + more
    ensures DecodeBulk(ty, s) == Judge(BulkReply(ty, body), rest)
  {
    NumberIff(t, |body|);
    CutIff(s, t, more);
    assert more[..|body|] == body && more[|body| + 2..] == rest;
  }

  lemma BulkParts(b: byte, w: bytes, t: bytes, body: bytes, skipped: bytes, rest: bytes, more: bytes)
    requires w == [b] + t + [13, 10] + body + skipped && more == body + skipped + rest
    ensures (w + rest)[1..] == t + [13, 10] + more && (w + rest)[0] == b
  {
  }

  lemma BulkIsRead(cfg: Config, b: byte, ty: ItemType, w: bytes, body: bytes, rest: bytes)
    requires IsBulk(b, w, body) && TypeOf(b) == Some(ty) && ty.IsBulk()
    ensures DecodeItem(cfg, w + rest) == Judge(BulkReply(ty, body), rest)
  {
    var t, skipped := Integers.Text(|body|), w[|w| - 2..];
    var more := body + skipped + rest;
    TextHasNoCr(|body|);
    BulkParts(b, w, t, body, skipped, rest, more);
    BodyIsRead(ty, (w + rest)[1..], t, body, skipped, rest, more);
  }

  lemma TextOrVerbatimIsRead(cfg: Config, w: bytes, r: Reply, rest: bytes)
    requires Spells(cfg, w, r) && (r.Verbatim? || (r.Text? && r.kind.StringType?))
    ensures DecodeItem(cfg, w + rest) == Done(r, rest)
  {
    if r.Verbatim? {
      var body := r.vtype + [58] + r.text;
      assert body[..3] == r.vtype && body[4..] == r.text;
      BulkIsRead(cfg, 61, VerbType, w, body, rest);
    } else {
      BulkIsRead(cfg, 36, StringType, w, r.text, rest);
    }
  }

  /** The aggregate types, by their bytes. */
  lemma AggregateBytes(kind: ItemType, n: int)
    requires kind.IsAggregate()
    ensures TypeOf(Header(kind, n)[0]) == Some(kind)
  {
  }

  lemma TextHasNoCr(n: int)
    ensures OneLine(Integers.Text(n))
  {
    if n < 0 { DigitsHaveNoCr(Decimal(-n)); } else { DigitsHaveNoCr(Decimal(n)); }
  }

  lemma HeaderIsRead(cfg: Config, kind: ItemType, n: int, s: bytes, more: bytes)
    requires kind.IsAggregate() && Allowed(cfg, n) && s == Header(kind, n) + more
    ensures s != [] && TypeOf(s[0]) == Some(kind)
    ensures DecodeHeader(cfg, kind, s[1..]) == Done(if n > 0 && kind.MapType? then 2 * n else n, more)
  {
    var t := Integers.Text(n);
    AggregateBytes(kind, n);
    TextHasNoCr(n);
    NumberIff(t, n);
    assert s[1..] == t + [13, 10] + more;
    CutIff(s[1..], t, more);
  }

  /** What spells a reply is read as that reply, and exactly its bytes are consumed. */
  lemma {:induction false} SpelledIsRead(cfg: Config, w: bytes, r: Reply, rest: bytes)
    requires Spells(cfg, w, r)
    ensures DecodeItem(cfg, w + rest) == Done(r, rest)
    decreases r, 0
  {
    if r.Aggregate? {
      var kind, es := r.kind, r.elements;
      var n := if kind.MapType? then |es| / 2 else |es|;
      var h := Header(kind, n);
      var body := w[|h|..];
      assert w + rest == h + (body + rest);
      HeaderIsRead(cfg, kind, n, w + rest, body + rest);
      AllSpelledAreRead(cfg, body, es, rest);
      AggregateIsRead(cfg, kind, es, w + rest, body + rest, rest);
    } else if r.Nil? {
      NilIsRead(cfg, w, rest);
    } else if r.Verbatim? || (r.Text? && r.kind.StringType?) {
      TextOrVerbatimIsRead(cfg, w, r, rest);
    } else {
      LeafIsRead(cfg, w, r, rest);
    }
  }

  lemma AggregateIsRead(cfg: Config, kind: ItemType, es: seq<Reply>, s: bytes, body: bytes, rest: bytes)
    requires kind.IsAggregate() && s != [] && TypeOf(s[0]) == Some(kind)
    requires DecodeHeader(cfg, kind, s[1..]) == Done(|es|, body) && DecodeMany(cfg, |es|, body) == Done(es, rest)
    ensures DecodeItem(cfg, s) == Done(Aggregate(kind, es), rest)
  {
    assert [] + es == es;
    assert DecodeItem(cfg, s) == DecodeTyped(cfg, kind, s[1..]);
  }

  /** The first reply's bytes, and the others'. */
  lemma SplitFirst(cfg: Config, w: bytes, es: seq<Reply>) returns (first: bytes, others: bytes)
    requires SpellsAll(cfg, w, es) && es != []
    ensures w == first + others && Spells(cfg, first, es[0]) && SpellsAll(cfg, others, es[1..])
  {
    var k :| 0 <= k <= |w| && SplitsAt(cfg, w, es, k);
    first, others := w[..k], w[k..];
  }

  lemma {:induction false} AllSpelledAreRead(cfg: Config, w: bytes, es: seq<Reply>, rest: bytes)
    requires SpellsAll(cfg, w, es)
    ensures DecodeMany(cfg, |es|, w + rest) == Done(es, rest)
    decreases es, 1
  {
    if es == [] {
      assert w + rest == rest;
    } else {
      var first, others := SplitFirst(cfg, w, es);
      SpelledIsRead(cfg, first, es[0], others + rest);
      AllSpelledAreRead(cfg, others, es[1..], rest);
      Regroup(first, others, rest);
      ReadOneMore(cfg, w + rest, es[0], others + rest, es[1..], rest, es);
    }
  }

  lemma ReadOneMore(cfg: Config, s: bytes, r: Reply, more: bytes, rs: seq<Reply>, rest: bytes, es: seq<Reply>)
    requires DecodeItem(cfg, s) == Done(r, more) && DecodeMany(cfg, |rs|, more) == Done(rs, rest) && es == [r] + rs
    ensures DecodeMany(cfg, |es|, s) == Done(es, rest)
  {
  }

  // ----- what is read was spelled -----

  lemma LineSpells(cfg: Config, ty: ItemType, w: bytes, r: Reply)
    requires ty.IsLine() && |w| >= 3 && IsLine(w[0], w) && TypeOf(w[0]) == Some(ty) && LineReply(cfg, ty, LineText(w)) == Good(r)
    ensures Spells(cfg, w, r)
  {
    if ty.IntegerType? { NumberIff(LineText(w), r.value); }
  }

  lemma LineWasSpelled(cfg: Config, s: bytes, ty: ItemType) returns (w: bytes)
    requires s != [] && TypeOf(s[0]) == Some(ty) && ty.IsLine() && DecodeLine(cfg, ty, s[1..]).Done?
    ensures var d := DecodeLine(cfg, ty, s[1..]); s == w + d.rest && Spells(cfg, w, d.value)
  {
    var c := CutLine(s[1..]);
    w := CutWasWritten(s, c.text, c.rest);
    LineSpells(cfg, ty, w, DecodeLine(cfg, ty, s[1..]).value);
  }

  lemma BulkWasSpelled(cfg: Config, s: bytes, ty: ItemType) returns (w: bytes)
    requires s != [] && TypeOf(s[0]) == Some(ty) && ty.IsBulk() && DecodeBulk(ty, s[1..]).Done?
    ensures var d := DecodeBulk(ty, s[1..]); s == w + d.rest && Spells(cfg, w, d.value)
  {
    var c := CutLine(s[1..]);
    var line := CutWasWritten(s, c.text, c.rest);
    var len := ParseLongLong(c.text).value;
    NumberIff(c.text, len);
    if len == -1 {
      assert Decimal(1) == [49];
      assert c.text == [45, 49];
      w := line;
    } else {
      w := BodyWasSpelled(s, line, c.text, len, c.rest);
      var body := c.rest[..len];
      if ty.VerbType? { assert body == body[..3] + [58] + body[4..]; }
    }
  }

  lemma BodyWasSpelled(s: bytes, line: bytes, t: bytes, len: nat, rest: bytes) returns (w: bytes)
    requires s != [] && s == line + rest && line == [s[0]] + t + [13, 10]
    requires IsNumber(t, len) && len + 2 <= |rest|
    ensures s == w + rest[len + 2..] && IsBulk(s[0], w, rest[..len])
  {
    w := line + rest[..len + 2];
    assert rest == rest[..len + 2] + rest[len + 2..];
    assert w[|w| - 2..] == rest[len..len + 2];
    assert rest[..len + 2] == rest[..len] + rest[len..len + 2];
  }

  lemma HeaderWasSpelled(cfg: Config, s: bytes, ty: ItemType) returns (n: int)
    requires s != [] && TypeOf(s[0]) == Some(ty) && ty.IsAggregate() && DecodeHeader(cfg, ty, s[1..]).Done?
    ensures var d := DecodeHeader(cfg, ty, s[1..]);
            && Allowed(cfg, n) && s == Header(ty, n) + d.rest && d.value == (if n > 0 && ty.MapType? then 2 * n else n)
  {
    var c := CutLine(s[1..]);
    var w := CutWasWritten(s, c.text, c.rest);
    n := ParseLongLong(c.text).value;
    NumberIff(c.text, n);
  }

  /** What was read as a reply is spelled by the bytes consumed. */
  lemma {:induction false} ReadWasSpelled(cfg: Config, s: bytes) returns (w: bytes)
    requires DecodeItem(cfg, s).Done?
    ensures var d := DecodeItem(cfg, s); s == w + d.rest && Spells(cfg, w, d.value)
    decreases |s|, 0, 0
  {
    var ty := TypeOf(s[0]).value;
    if ty.IsLine() {
      w := LineWasSpelled(cfg, s, ty);
    } else if ty.IsBulk() {
      w := BulkWasSpelled(cfg, s, ty);
    } else {
      var n := HeaderWasSpelled(cfg, s, ty);
      var h := DecodeHeader(cfg, ty, s[1..]);
      if n == -1 {
        NilAggregate(ty);
        w := Header(ty, n);
      } else {
        var body := ManyWereSpelled(cfg, h.value, h.rest);
        w := AggregateWasSpelled(cfg, s, ty, n, h.value, h.rest, body, DecodeMany(cfg, h.value, h.rest));
      }
    }
  }

  lemma NilAggregate(ty: ItemType)
    requires ty.IsAggregate()
    ensures SpellsNil(Header(ty, -1))
  {
    assert Decimal(1) == [49];
    assert Integers.Text(-1) == [45, 49];
  }

  lemma AggregateWasSpelled(cfg: Config, s: bytes, ty: ItemType, n: int, m: nat, more: bytes, body: bytes,
                            d: Decoded<seq<Reply>>) returns (w: bytes)
    requires s != [] && TypeOf(s[0]) == Some(ty) && ty.IsAggregate() && DecodeHeader(cfg, ty, s[1..]) == Done(m, more)
    requires Allowed(cfg, n) && n >= 0 && s == Header(ty, n) + more && m == (if ty.MapType? then 2 * n else n)
    requires d == DecodeMany(cfg, m, more) && d.Done? && more == body + d.rest && SpellsAll(cfg, body, d.value)
    ensures DecodeItem(cfg, s).Done?
    ensures s == w + DecodeItem(cfg, s).rest && Spells(cfg, w, DecodeItem(cfg, s).value)
  {
    w := Header(ty, n) + body;
    AggregateIsRead(cfg, ty, d.value, s, more, d.rest);
    Regroup(Header(ty, n), body, d.rest);
    AggregateSpells(cfg, ty, n, body, d.value);
  }

  lemma AggregateSpells(cfg: Config, ty: ItemType, n: nat, body: bytes, es: seq<Reply>)
    requires ty.IsAggregate() && Allowed(cfg, n) && |es| == (if ty.MapType? then 2 * n else n) && SpellsAll(cfg, body, es)
    ensures Spells(cfg, Header(ty, n) + body, Aggregate(ty, es))
  {
    assert (Header(ty, n) + body)[|Header(ty, n)|..] == body;
  }

  lemma {:induction false} ManyWereSpelled(cfg: Config, n: nat, s: bytes) returns (w: bytes)
    requires DecodeMany(cfg, n, s).Done?
    ensures var d := DecodeMany(cfg, n, s); s == w + d.rest && SpellsAll(cfg, w, d.value)
    decreases |s|, 1, n
  {
    if n == 0 {
      w := [];
    } else {
      var d := DecodeItem(cfg, s);
      var first := ReadWasSpelled(cfg, s);
      var others := ManyWereSpelled(cfg, n - 1, d.rest);
      w := first + others;
      var later := DecodeMany(cfg, n - 1, d.rest);
      SpellsMore(cfg, first, d.value, others, later.value);
      Regroup(first, others, later.rest);
    }
  }

  lemma SpellsMore(cfg: Config, first: bytes, r: Reply, others: bytes, rs: seq<Reply>)
    requires Spells(cfg, first, r) && SpellsAll(cfg, others, rs)
    ensures SpellsAll(cfg, first + others, [r] + rs)
  {
    var w, es := first + others, [r] + rs;
    assert w[..|first|] == first && w[|first|..] == others && es[1..] == rs;
    assert SplitsAt(cfg, w, es, |first|);
  }

  /** The decoder reads a reply from the head of a stream exactly when the bytes consumed spell it. */
  lemma ReadIffSpelled(cfg: Config, w: bytes, r: Reply, rest: bytes)
    ensures DecodeItem(cfg, w + rest) == Done(r, rest) <==> Spells(cfg, w, r)
  {
    if Spells(cfg, w, r) { SpelledIsRead(cfg, w, r, rest); }
    if DecodeItem(cfg, w + rest) == Done(r, rest) {
      var u := ReadWasSpelled(cfg, w + rest);
      assert u == (w + rest)[..|w|] == w;
    }
  }

  // ----- streams -----

  /** A stream of spelled replies is read as those replies, one after the other. */
  lemma {:induction false} SpelledStream(cfg: Config, w: bytes, rs: seq<Reply>)
    requires SpellsAll(cfg, w, rs)
    ensures DecodeStream(cfg, w) == Stream(rs, Waiting)
    decreases rs
  {
    if rs != [] {
      var first, others := SplitFirst(cfg, w, rs);
      SpelledIsRead(cfg, first, rs[0], others);
      SpelledStream(cfg, others, rs[1..]);
      assert [rs[0]] + rs[1..] == rs;
    }
  }
}
