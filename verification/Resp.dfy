/**
 The Redis serialization protocol as a recursive decoder: the meaning that the resumable
 reader must compute, and the properties of that meaning (more bytes never change an answer,
 every reply tree survives being written and read back).
 */
module Resp {
  import opened Bytes
  import opened Integers

  datatype ItemType =
    | ErrorType | StatusType | IntegerType | DoubleType | NilType | BoolType
    | StringType | VerbType
    | ArrayType | MapType | SetType | PushType
  {
    predicate IsLine() { ErrorType? || StatusType? || IntegerType? || DoubleType? || NilType? || BoolType? }
    predicate IsBulk() { StringType? || VerbType? }
    predicate IsAggregate() { ArrayType? || MapType? || SetType? || PushType? }
  }

  datatype Reply =
    | Integer(value: int)
    | Text(kind: ItemType, text: bytes)
    | Verbatim(vtype: bytes, text: bytes)
    | Double(text: bytes)
    | Nil
    | Bool(flag: bool)
    | Aggregate(kind: ItemType, elements: seq<Reply>)

  /** The last is no error of the protocol: it stands for a failed assertion of a reply builder. */
  datatype ProtocolError =
    | BadTypeByte(b: byte) | BadInteger | DoubleTooLarge | BadDouble
    | BadBulkLength | BulkLengthOutOfRange | BadVerbatim
    | BadMultiBulkLength | MultiBulkLengthOutOfRange | BuilderAssertion

  /** Reader settings; the acceptance of a double's text is left to the C library. */
  datatype Config = Config(maxElements: int, validDouble: bytes -> bool)

  /** What a prefix of the stream decides: a value and the bytes after it, nothing yet, or an error. */
  datatype Decoded<+T> = Done(value: T, rest: bytes) | More | Bad(error: ProtocolError)

  datatype Checked<+T> = Good(value: T) | Reject(error: ProtocolError)

  function Judge(c: Checked<Reply>, rest: bytes): Decoded<Reply> {
    match c
    case Good(r) => Done(r, rest)
    case Reject(e) => Bad(e)
  }

  function TypeOf(b: byte): Option<ItemType> {
    if b == 45 then Some(ErrorType) else if b == 43 then Some(StatusType)
    else if b == 58 then Some(IntegerType) else if b == 44 then Some(DoubleType)
    else if b == 95 then Some(NilType) else if b == 36 then Some(StringType)
    else if b == 42 then Some(ArrayType) else if b == 37 then Some(MapType)
    else if b == 126 then Some(SetType) else if b == 35 then Some(BoolType)
    else if b == 61 then Some(VerbType) else if b == 62 then Some(PushType)
    else None
  }

  // ----- leaves -----

  /** The reply a one-line item denotes. */
  function LineReply(cfg: Config, ty: ItemType, line: bytes): Checked<Reply>
    requires ty.IsLine()
  {
    match ty
    case IntegerType =>
      (match ParseLongLong(line) case Some(v) => Good(Integer(v)) case None => Reject(BadInteger))
    case DoubleType =>
      if |line| >= 326 then Reject(DoubleTooLarge)
      else if cfg.validDouble(line) then Good(Double(line)) else Reject(BadDouble)
    case NilType => Good(Nil)
    case BoolType => Good(Bool(|line| > 0 && (line[0] == 116 || line[0] == 84)))
    case _ => Good(Text(ty, line))
  }

  function DecodeLine(cfg: Config, ty: ItemType, s: bytes): (d: Decoded<Reply>)
    requires ty.IsLine()
    ensures d.Done? ==> |d.rest| < |s|
  {
    match CutLine(s)
    case NoLine => More
    case Line(line, rest) => Judge(LineReply(cfg, ty, line), rest)
  }

  /** The reply a complete bulk body denotes; a verbatim body starts with "xxx:". */
  function BulkReply(ty: ItemType, body: bytes): Checked<Reply>
    requires ty.IsBulk()
  {
    if ty.StringType? then Good(Text(ty, body))
    else if |body| < 4 || body[3] != 58 then Reject(BadVerbatim)
    else Good(Verbatim(body[..3], body[4..]))
  }

  function DecodeBulk(ty: ItemType, s: bytes): (d: Decoded<Reply>)
    requires ty.IsBulk()
    ensures d.Done? ==> |d.rest| < |s|
  {
    match CutLine(s)
    case NoLine => More
    case Line(line, rest) =>
      match ParseLongLong(line)
      case None => Bad(BadBulkLength)
      case Some(len) => DecodeBody(ty, len, rest)
  }

  /** A bulk body of announced length; the two bytes after it are skipped unread. */
  function DecodeBody(ty: ItemType, len: int, s: bytes): (d: Decoded<Reply>)
    requires ty.IsBulk()
    ensures d.Done? ==> |d.rest| <= |s|
  {
    if len < -1 then Bad(BulkLengthOutOfRange)
    else if len == -1 then Done(Nil, s)
    else if len + 2 > |s| then More
    else Judge(BulkReply(ty, s[..len]), s[len + 2..])
  }

  /** The element count an aggregate header announces, -1 for the nil aggregate; maps count pairs. */
  function DecodeHeader(cfg: Config, ty: ItemType, s: bytes): (d: Decoded<int>)
    requires ty.IsAggregate()
    ensures d.Done? ==> |d.rest| < |s| && d.value >= -1
  {
    match CutLine(s)
    case NoLine => More
    case Line(line, rest) =>
      match ParseLongLong(line)
      case None => Bad(BadMultiBulkLength)
      case Some(n) =>
        if n < -1 || (cfg.maxElements > 0 && n > cfg.maxElements) then Bad(MultiBulkLengthOutOfRange)
        else Done(if n > 0 && ty.MapType? then 2 * n else n, rest)
  }

  // ----- the recursive decoder -----

  function DecodeItem(cfg: Config, s: bytes): (d: Decoded<Reply>)
    ensures d.Done? ==> |d.rest| < |s|
    decreases |s|, 0, 0
  {
    if s == [] then More
    else match TypeOf(s[0])
      case None => Bad(BadTypeByte(s[0]))
      case Some(ty) => DecodeTyped(cfg, ty, s[1..])
  }

  /** The rest of an item whose type byte is already read. */
  function DecodeTyped(cfg: Config, ty: ItemType, s: bytes): (d: Decoded<Reply>)
    ensures d.Done? ==> |d.rest| < |s|
    decreases |s|, 2, 0
  {
    if ty.IsLine() then DecodeLine(cfg, ty, s)
    else if ty.IsBulk() then DecodeBulk(ty, s)
    else match DecodeHeader(cfg, ty, s)
      case More => More
      case Bad(e) => Bad(e)
      case Done(n, rest) =>
        if n == -1 then Done(Nil, rest) else Wrap(ty, [], DecodeMany(cfg, n, rest))
  }

  function DecodeMany(cfg: Config, n: nat, s: bytes): (d: Decoded<seq<Reply>>)
    ensures d.Done? ==> |d.rest| <= |s| && |d.value| == n
    decreases |s|, 1, n
  {
    if n == 0 then Done([], s)
    else match DecodeItem(cfg, s)
      case More => More
      case Bad(e) => Bad(e)
      case Done(r, rest) => Prefixed(r, DecodeMany(cfg, n - 1, rest))
  }

  function Prefixed(r: Reply, d: Decoded<seq<Reply>>): (p: Decoded<seq<Reply>>)
    ensures p.Done? <==> d.Done?
    ensures d.Done? ==> p.rest == d.rest && p.value == [r] + d.value
  {
    match d
    case Done(rs, rest) => Done([r] + rs, rest)
    case More => More
    case Bad(e) => Bad(e)
  }

  /** Elements read earlier followed by the ones read now, as one aggregate. */
  function Wrap(kind: ItemType, done: seq<Reply>, d: Decoded<seq<Reply>>): (w: Decoded<Reply>)
    ensures w.Done? <==> d.Done?
    ensures d.Done? ==> w.rest == d.rest && w.value == Aggregate(kind, done + d.value)
  {
    match d
    case Done(rs, rest) => Done(Aggregate(kind, done + rs), rest)
    case More => More
    case Bad(e) => Bad(e)
  }

  // ----- decided answers stay -----

  /** The answer d on some bytes, seen again with t appended to those bytes. */
  function Extend<T>(d: Decoded<T>, t: bytes): Decoded<T> {
    match d case Done(v, rest) => Done(v, rest + t) case _ => d
  }

  /** An answer other than More is final: appended bytes only lengthen the rest. */
  ghost predicate Settled<T(!new)>(d: Decoded<T>, longer: Decoded<T>, t: bytes) {
    !d.More? ==> longer == Extend(d, t)
  }

  lemma LineStable(cfg: Config, ty: ItemType, s: bytes, t: bytes)
    requires ty.IsLine()
    ensures Settled(DecodeLine(cfg, ty, s), DecodeLine(cfg, ty, s + t), t)
  {
    if CutLine(s).Line? { CutLineStable(s, t); }
  }

  lemma BulkStable(ty: ItemType, s: bytes, t: bytes)
    requires ty.IsBulk()
    ensures Settled(DecodeBulk(ty, s), DecodeBulk(ty, s + t), t)
  {
    if CutLine(s).Line? {
      CutLineStable(s, t);
      var len := ParseLongLong(CutLine(s).text);
      if len.Some? { BodyStable(ty, len.value, CutLine(s).rest, t); }
    }
  }

  lemma BodyStable(ty: ItemType, len: int, s: bytes, t: bytes)
    requires ty.IsBulk()
    ensures Settled(DecodeBody(ty, len, s), DecodeBody(ty, len, s + t), t)
  {
    if 0 <= len && len + 2 <= |s| {
      assert (s + t)[..len] == s[..len] && (s + t)[len + 2..] == s[len + 2..] + t;
    }
  }

  lemma HeaderStable(cfg: Config, ty: ItemType, s: bytes, t: bytes)
    requires ty.IsAggregate()
    ensures Settled(DecodeHeader(cfg, ty, s), DecodeHeader(cfg, ty, s + t), t)
  {
    if CutLine(s).Line? { CutLineStable(s, t); }
  }

  /** Bytes that arrive later change no reply and no error that earlier bytes decided. */
  lemma {:induction false} ItemStable(cfg: Config, s: bytes, t: bytes)
    ensures Settled(DecodeItem(cfg, s), DecodeItem(cfg, s + t), t)
    decreases |s|, 0, 0
  {
    if s != [] {
      assert (s + t)[1..] == s[1..] + t;
      if TypeOf(s[0]).Some? { TypedStable(cfg, TypeOf(s[0]).value, s[1..], t); }
    }
  }

  lemma {:induction false} TypedStable(cfg: Config, ty: ItemType, s: bytes, t: bytes)
    ensures Settled(DecodeTyped(cfg, ty, s), DecodeTyped(cfg, ty, s + t), t)
    decreases |s|, 2, 0
  {
    if ty.IsLine() {
      LineStable(cfg, ty, s, t);
    } else if ty.IsBulk() {
      BulkStable(ty, s, t);
    } else {
      HeaderStable(cfg, ty, s, t);
      var h := DecodeHeader(cfg, ty, s);
      if h.Done? && h.value >= 0 { ManyStable(cfg, h.value, h.rest, t); }
    }
  }

  lemma {:induction false} ManyStable(cfg: Config, n: nat, s: bytes, t: bytes)
    ensures Settled(DecodeMany(cfg, n, s), DecodeMany(cfg, n, s + t), t)
    decreases |s|, 1, n
  {
    if n > 0 {
      ItemStable(cfg, s, t);
      var d := DecodeItem(cfg, s);
      if d.Done? { ManyStable(cfg, n - 1, d.rest, t); }
    }
  }

  // ----- the whole stream -----

  /** The stream is used up, is malformed, or has stopped the code by a failed assertion. */
  datatype Ending = Waiting | Failed(error: ProtocolError) | Trapped
  datatype Stream = Stream(replies: seq<Reply>, ending: Ending)

  function After(replies: seq<Reply>, s: Stream): Stream { Stream(replies + s.replies, s.ending) }

  /** All replies in a stream and how it ends. */
  function DecodeStream(cfg: Config, s: bytes): Stream
    decreases |s|
  {
    match DecodeItem(cfg, s)
    case More => Stream([], Waiting)
    case Bad(e) => Stream([], Failed(e))
    case Done(r, rest) => After([r], DecodeStream(cfg, rest))
  }

  // ----- writing -----

  function TypeByte(ty: ItemType): (b: byte)
    ensures TypeOf(b) == Some(ty)
  {
    match ty
    case ErrorType => 45 case StatusType => 43 case IntegerType => 58 case DoubleType => 44
    case NilType => 95 case StringType => 36 case ArrayType => 42 case MapType => 37
    case SetType => 126 case BoolType => 35 case VerbType => 61 case PushType => 62
  }

  /** "$<len>CRLF<body>CRLF" and its verbatim sibling. */
  function EncodeBulk(ty: ItemType, body: bytes): bytes {
    [TypeByte(ty)] + Decimal(|body|) + CRLF + body + CRLF
  }

  /** What a server writes for a reply. */
  function Encode(r: Reply): bytes
    decreases r, 0
  {
    match r
    case Integer(v) => [TypeByte(IntegerType)] + Integers.Text(v) + CRLF
    case Text(kind, text) =>
      if kind.StringType? then EncodeBulk(kind, text) else [TypeByte(kind)] + text + CRLF
    case Verbatim(vtype, text) => EncodeBulk(VerbType, vtype + [58] + text)
    case Double(text) => [TypeByte(DoubleType)] + text + CRLF
    case Nil => [TypeByte(NilType)] + CRLF
    case Bool(flag) => [TypeByte(BoolType)] + (if flag then [116] else [102]) + CRLF
    case Aggregate(kind, es) =>
      [TypeByte(kind)] + Decimal(if kind.MapType? then |es| / 2 else |es|) + CRLF + EncodeAll(es)
  }

  function EncodeAll(es: seq<Reply>): bytes
    decreases es, 1
  {
    if es == [] then [] else Encode(es[0]) + EncodeAll(es[1..])
  }

  /** Replies a server can send: lines without CR, 64-bit numbers, counts within the reader's limit. */
  predicate Sendable(cfg: Config, r: Reply)
    decreases r
  {
    match r
    case Integer(v) => InLongLong(v)
    case Text(kind, text) =>
      if kind.StringType? then |text| <= LLONG_MAX
      else (kind.ErrorType? || kind.StatusType?) && CR !in text
    case Verbatim(vtype, text) => |vtype| == 3 && |text| + 4 <= LLONG_MAX
    case Double(text) => CR !in text && |text| < 326 && cfg.validDouble(text)
    case Nil => true
    case Bool(flag) => true
    case Aggregate(kind, es) =>
      && kind.IsAggregate()
      && (kind.MapType? ==> |es| % 2 == 0)
      && |es| <= LLONG_MAX
      && (cfg.maxElements > 0 ==> (if kind.MapType? then |es| / 2 else |es|) <= cfg.maxElements)
      && forall i :: 0 <= i < |es| ==> Sendable(cfg, es[i])
  }

  lemma LengthParses(n: nat)
    requires n <= LLONG_MAX
    ensures ParseLongLong(Decimal(n)) == Some(n)
  {
    TextParses(n);
  }

  /** A type byte selects the decoder of the rest. */
  lemma DecodeTypeByte(cfg: Config, ty: ItemType, tail: bytes)
    ensures DecodeItem(cfg, [TypeByte(ty)] + tail) == DecodeTyped(cfg, ty, tail)
  {
    assert ([TypeByte(ty)] + tail)[1..] == tail;
  }

  lemma DecodeEncodeLine(cfg: Config, ty: ItemType, line: bytes, rest: bytes)
    requires ty.IsLine() && CR !in line
    ensures DecodeItem(cfg, [TypeByte(ty)] + line + CRLF + rest) == Judge(LineReply(cfg, ty, line), rest)
  {
    CutWrittenLine(line, rest);
    DecodeTypeByte(cfg, ty, line + CRLF + rest);
    assert [TypeByte(ty)] + line + CRLF + rest == [TypeByte(ty)] + (line + CRLF + rest);
  }

  lemma DecodeBulkAfterLine(ty: ItemType, line: bytes, body: bytes, rest: bytes, more: bytes)
    requires ty.IsBulk() && CR !in line && ParseLongLong(line) == Some(|body|) && more == body + CRLF + rest
    ensures DecodeBulk(ty, line + CRLF + more) == Judge(BulkReply(ty, body), rest)
  {
    CutWrittenLine(line, more);
    assert more[..|body|] == body && more[|body| + 2..] == rest;
  }

  lemma BulkText(first: bytes, line: bytes, body: bytes, rest: bytes)
    ensures first + line + CRLF + body + CRLF + rest == first + (line + CRLF + (body + CRLF + rest))
  {
  }

  lemma DecodeBulkItem(cfg: Config, ty: ItemType, line: bytes, body: bytes, rest: bytes)
    requires ty.IsBulk() && CR !in line && ParseLongLong(line) == Some(|body|)
    ensures DecodeItem(cfg, [TypeByte(ty)] + line + CRLF + body + CRLF + rest) == Judge(BulkReply(ty, body), rest)
  {
    var more := body + CRLF + rest;
    BulkText([TypeByte(ty)], line, body, rest);
    DecodeTypeByte(cfg, ty, line + CRLF + more);
    DecodeBulkAfterLine(ty, line, body, rest, more);
  }

  lemma DecodeEncodeBulk(cfg: Config, ty: ItemType, body: bytes, rest: bytes)
    requires ty.IsBulk() && |body| <= LLONG_MAX
    ensures DecodeItem(cfg, EncodeBulk(ty, body) + rest) == Judge(BulkReply(ty, body), rest)
  {
    DigitsHaveNoCr(Decimal(|body|));
    LengthParses(|body|);
    DecodeBulkItem(cfg, ty, Decimal(|body|), body, rest);
  }

  lemma DecodeEncodeLeaf(cfg: Config, r: Reply, rest: bytes)
    requires Sendable(cfg, r) && !r.Aggregate?
    ensures DecodeItem(cfg, Encode(r) + rest) == Done(r, rest)
  {
    match r
    case Integer(v) =>
      TextParses(v);
      DecodeEncodeLine(cfg, IntegerType, Integers.Text(v), rest);
    case Text(kind, text) =>
      if kind.StringType? {
        DecodeEncodeBulk(cfg, kind, text, rest);
      } else {
        DecodeEncodeLine(cfg, kind, text, rest);
      }
    case Verbatim(vtype, text) =>
      var body := vtype + [58] + text;
      DecodeEncodeBulk(cfg, VerbType, body, rest);
      assert body[..3] == vtype && body[4..] == text;
    case Double(text) =>
      DecodeEncodeLine(cfg, DoubleType, text, rest);
    case Nil =>
      DecodeEncodeLine(cfg, NilType, [], rest);
      assert [TypeByte(NilType)] + [] == [TypeByte(NilType)];
    case Bool(flag) =>
      var line: bytes := if flag then [116] else [102];
      DecodeEncodeLine(cfg, BoolType, line, rest);
  }

  /** Writing any reply tree and decoding the bytes gives the tree back and stops right after it. */
  lemma {:induction false} DecodeEncode(cfg: Config, r: Reply, rest: bytes)
    requires Sendable(cfg, r)
    ensures DecodeItem(cfg, Encode(r) + rest) == Done(r, rest)
    decreases r, 0
  {
    if r.Aggregate? {
      var kind, es := r.kind, r.elements;
      var n := if kind.MapType? then |es| / 2 else |es|;
      DigitsHaveNoCr(Decimal(n));
      LengthParses(n);
      DecodeEncodeAll(cfg, es, rest);
      DecodeAggregateItem(cfg, kind, n, Decimal(n), es, EncodeAll(es), rest);
      assert Encode(r) + rest == [TypeByte(kind)] + Decimal(n) + CRLF + EncodeAll(es) + rest;
    } else {
      DecodeEncodeLeaf(cfg, r, rest);
    }
  }

  lemma DecodeAggregateBody(cfg: Config, ty: ItemType, n: nat, s: bytes)
    requires ty.IsAggregate() && CutLine(s).Line? && ParseLongLong(CutLine(s).text) == Some(n)
    requires cfg.maxElements > 0 ==> n <= cfg.maxElements
    ensures DecodeTyped(cfg, ty, s)
         == Wrap(ty, [], DecodeMany(cfg, if ty.MapType? then 2 * n else n, CutLine(s).rest))
  {
  }

  lemma DecodeAggregateItem(cfg: Config, ty: ItemType, n: nat, line: bytes, es: seq<Reply>, body: bytes, rest: bytes)
    requires ty.IsAggregate() && CR !in line && ParseLongLong(line) == Some(n)
    requires cfg.maxElements > 0 ==> n <= cfg.maxElements
    requires |es| == (if ty.MapType? then 2 * n else n) && DecodeMany(cfg, |es|, body + rest) == Done(es, rest)
    ensures DecodeItem(cfg, [TypeByte(ty)] + line + CRLF + body + rest) == Done(Aggregate(ty, es), rest)
  {
    var tail := line + CRLF + (body + rest);
    assert [TypeByte(ty)] + line + CRLF + body + rest == [TypeByte(ty)] + tail;
    DecodeTypeByte(cfg, ty, tail);
    CutWrittenLine(line, body + rest);
    DecodeAggregateBody(cfg, ty, n, tail);
    assert [] + es == es;
  }

  lemma DecodeOneMore(cfg: Config, n: nat, s: bytes, r: Reply, more: bytes, es: seq<Reply>, rest: bytes)
    requires DecodeItem(cfg, s) == Done(r, more) && DecodeMany(cfg, n, more) == Done(es, rest)
    ensures DecodeMany(cfg, n + 1, s) == Done([r] + es, rest)
  {
  }

  lemma EncodeAllSplits(es: seq<Reply>, rest: bytes)
    requires es != []
    ensures EncodeAll(es) + rest == Encode(es[0]) + (EncodeAll(es[1..]) + rest)
  {
  }

  lemma {:induction false} DecodeEncodeAll(cfg: Config, es: seq<Reply>, rest: bytes)
    requires forall i :: 0 <= i < |es| ==> Sendable(cfg, es[i])
    ensures DecodeMany(cfg, |es|, EncodeAll(es) + rest) == Done(es, rest)
    decreases es, 1
  {
    if es == [] {
      assert EncodeAll(es) + rest == rest;
    } else {
      var head, tail := es[0], es[1..];
      var more := EncodeAll(tail) + rest;
      EncodeAllSplits(es, rest);
      DecodeEncode(cfg, head, more);
      DecodeEncodeAll(cfg, tail, rest);
      DecodeOneMore(cfg, |tail|, Encode(head) + more, head, more, tail, rest);
      assert es == [head] + tail;
    }
  }
}
