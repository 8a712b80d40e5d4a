/**
 The multipart body parser: what its callbacks report, as an automaton over the whole body, and the
 push parser that must agree with it however the body is cut into buffers.
 */
module Multipart {
  import opened Bytes
  import opened Delimiter

  const COLON: byte := 58
  const SPACE: byte := 32
  const HYPHEN: byte := 45

  /** The callbacks, with the bytes they are given. */
  datatype Event =
    | PartBegin | HeaderField(name: bytes) | HeaderValue(value: bytes) | HeadersComplete
    | PartData(data: bytes) | PartEnd | BodyEnd

  /** What the callbacks report, byte by byte. */
  datatype Atom = Begin | NameByte(b: byte) | ValueByte(b: byte) | Complete | DataByte(b: byte) | EndOfPart | EndOfBody

  function NameBytes(s: bytes): (r: seq<Atom>)
    ensures |r| == |s| && forall i :: 0 <= i < |s| ==> r[i] == NameByte(s[i])
  {
    seq(|s|, i requires 0 <= i < |s| => NameByte(s[i]))
  }

  function ValueBytes(s: bytes): (r: seq<Atom>)
    ensures |r| == |s| && forall i :: 0 <= i < |s| ==> r[i] == ValueByte(s[i])
  {
    seq(|s|, i requires 0 <= i < |s| => ValueByte(s[i]))
  }

  function DataBytes(s: bytes): (r: seq<Atom>)
    ensures |r| == |s| && forall i :: 0 <= i < |s| ==> r[i] == DataByte(s[i])
  {
    seq(|s|, i requires 0 <= i < |s| => DataByte(s[i]))
  }

  function AtomsOf(e: Event): seq<Atom> {
    match e
    case PartBegin => [Begin]
    case HeaderField(n) => NameBytes(n)
    case HeaderValue(v) => ValueBytes(v)
    case HeadersComplete => [Complete]
    case PartData(d) => DataBytes(d)
    case PartEnd => [EndOfPart]
    case BodyEnd => [EndOfBody]
  }

  // ----- the automaton -----

  /**
   Where in the body the parser is; in a header name, the bytes of it not yet reported, and in part data,
   how much of CRLF and boundary is matched.
   */
  datatype Mode =
    | Opening(index: nat) | Field(held: bytes) | HeadersAlmostDone
    | ValueStart | Value | ValueAlmostDone | DataStart | Data(matched: nat)
    | AlmostEnd | FinalHyphen | DataEnd | Ended

  function Delim(boundary: bytes): bytes { CRLF + boundary }

  predicate IsNameByte(c: byte) { c == HYPHEN || 97 <= c <= 122 || 65 <= c <= 90 }

  datatype Move = Reject | To(mode: Mode, atoms: seq<Atom>)

  function OpeningStep(b: bytes, index: nat, c: byte): Move {
    if index == |b| then (if c == CR then To(Opening(index + 1), []) else Reject)
    else if index == |b| + 1 then (if c == LF then To(Field([]), [Begin]) else Reject)
    else if index < |b| && c == b[index] then To(Opening(index + 1), [])
    else Reject
  }

  /** The name is reported at its colon; a line that ends without one has its held bytes dropped. */
  function FieldStep(held: bytes, c: byte): Move {
    if c == CR then To(HeadersAlmostDone, [])
    else if c == COLON then To(ValueStart, NameBytes(held))
    else if IsNameByte(c) then To(Field(held + [c]), [])
    else Reject
  }

  function ValueStep(c: byte): Move { if c == CR then To(ValueAlmostDone, []) else To(Value, [ValueByte(c)]) }

  /** In part data: a byte extends the match, or the matched bytes were data after all. */
  function DataStep(d: bytes, m: nat, c: byte): Move
    requires m < |d|
  {
    var n := Advance(d, m, c);
    if c == d[m] then (if n == |d| then To(AlmostEnd, [EndOfPart]) else To(Data(n), []))
    else To(Data(n), DataBytes(if n == 1 then d[..m] else d[..m] + [c]))
  }

  function Expect(c: byte, wanted: byte, mode: Mode, atoms: seq<Atom>): Move {
    if c == wanted then To(mode, atoms) else Reject
  }

  function Step(b: bytes, mode: Mode, c: byte): Move {
    match mode
    case Opening(index) => OpeningStep(b, index, c)
    case Field(held) => FieldStep(held, c)
    case HeadersAlmostDone => Expect(c, LF, DataStart, [])
    case ValueStart => if c == SPACE then To(ValueStart, []) else ValueStep(c)
    case Value => ValueStep(c)
    case ValueAlmostDone => Expect(c, LF, Field([]), [])
    case DataStart => AddFirst(Complete, DataStep(Delim(b), 0, c))
    case Data(m) => if m < |Delim(b)| then DataStep(Delim(b), m, c) else Reject
    case AlmostEnd => if c == HYPHEN then To(FinalHyphen, []) else Expect(c, CR, DataEnd, [])
    case FinalHyphen => Expect(c, HYPHEN, Ended, [EndOfBody])
    case DataEnd => Expect(c, LF, Field([]), [Begin])
    case Ended => To(Ended, [])
  }

  function AddFirst(a: Atom, m: Move): Move { if m.To? then To(m.mode, [a] + m.atoms) else m }

  /** Bytes accepted, where that leads and what has been reported. */
  datatype Progress = Progress(consumed: nat, mode: Mode, atoms: seq<Atom>)

  function Then(consumed: nat, atoms: seq<Atom>, p: Progress): Progress {
    Progress(consumed + p.consumed, p.mode, atoms + p.atoms)
  }

  function Run(b: bytes, mode: Mode, s: bytes): Progress
    decreases |s|
  {
    if s == [] then Progress(0, mode, [])
    else match Step(b, mode, s[0])
      case Reject => Progress(0, mode, [])
      case To(next, atoms) => Then(1, atoms, Run(b, next, s[1..]))
  }

  lemma ThenThen(k: nat, a: seq<Atom>, l: nat, c: seq<Atom>, p: Progress)
    ensures Then(k, a, Then(l, c, p)) == Then(k + l, a + c, p)
  {
    assert a + (c + p.atoms) == (a + c) + p.atoms;
  }

  /** A body in two pieces is the first piece and then, unless that was refused, the second. */
  lemma {:induction false} RunApp(b: bytes, mode: Mode, s: bytes, t: bytes)
    ensures var p := Run(b, mode, s);
            && p.consumed <= |s|
            && (p.consumed < |s| ==> Run(b, mode, s + t) == p)
            && (p.consumed == |s| ==> Run(b, mode, s + t) == Then(|s|, p.atoms, Run(b, p.mode, t)))
    decreases |s|
  {
    if s == [] {
      assert s + t == t && [] + Run(b, mode, t).atoms == Run(b, mode, t).atoms;
    } else {
      assert (s + t)[1..] == s[1..] + t;
      match Step(b, mode, s[0])
      case Reject =>
      case To(next, atoms) =>
        RunApp(b, next, s[1..], t);
        var p := Run(b, next, s[1..]);
        ThenThen(1, atoms, |s| - 1, p.atoms, Run(b, p.mode, t));
    }
  }

  // ----- part data -----

  /** One byte of part data, with its parts named. */
  lemma RunData(b: bytes, m: nat, s: bytes, d: bytes, n: nat, now: seq<Atom>)
    requires d == Delim(b) && m < |d| && s != [] && n == Advance(d, m, s[0]) && now == DataStep(d, m, s[0]).atoms
    ensures Run(b, Data(m), s) == Then(1, now, Run(b, if n == |d| then AlmostEnd else Data(n), s[1..]))
    ensures n == |d| ==> now == [EndOfPart] && m + 1 == |d|
  {
  }

  /** What part data reports before its end: every byte before the delimiter the search finds. */
  ghost predicate DataUntil(b: bytes, m: nat, s: bytes, d: bytes, e: nat)
    requires m < |d| && e <= |s| && m + e >= |d|
  {
    Run(b, Data(m), s) == Then(e, DataBytes((d[..m] + s)[..m + e - |d|]) + [EndOfPart], Run(b, AlmostEnd, s[e..]))
  }

  lemma DataEndsNow(b: bytes, m: nat, s: bytes, d: bytes)
    requires d == Delim(b) && m < |d| && s != [] && Advance(d, m, s[0]) == |d|
    ensures m + 1 == |d| && DataUntil(b, m, s, d, 1)
  {
    RunData(b, m, s, d, |d|, DataStep(d, m, s[0]).atoms);
    assert DataBytes((d[..m] + s)[..0]) + [EndOfPart] == [EndOfPart];
  }

  lemma DataEndsLater(b: bytes, m: nat, s: bytes, d: bytes, n: nat, e: nat)
    requires d == Delim(b) && m < |d| && s != [] && n == Advance(d, m, s[0]) < |d|
    requires e <= |s[1..]| && n + e >= |d| && DataUntil(b, n, s[1..], d, e)
    ensures m + e + 1 >= |d| && DataUntil(b, m, s, d, e + 1)
  {
    var now := DataStep(d, m, s[0]).atoms;
    var later := (d[..n] + s[1..])[..n + e - |d|];
    var after := Run(b, AlmostEnd, s[e + 1..]);
    RunData(b, m, s, d, n, now);
    assert s[1..][e..] == s[e + 1..];
    DataOneMore(d, m, s, n, e, now, later);
    ThenThen(1, now, e, DataBytes(later) + [EndOfPart], after);
    Regroup(now, DataBytes(later), [EndOfPart]);
  }

  lemma FoundStep(d: bytes, m: nat, s: bytes, n: nat, e: nat)
    requires m < |d| && Found(d, m, s) == Some(e)
    ensures s != [] && (n == Advance(d, m, s[0]) ==>
              if n == |d| then e == 1 else e > 0 && Found(d, n, s[1..]) == Some(e - 1))
  {
  }

  lemma {:induction false} DataUntilFound(b: bytes, m: nat, s: bytes, d: bytes, e: nat)
    requires d == Delim(b) && m < |d| && Found(d, m, s) == Some(e)
    ensures e <= |s| && m + e >= |d| && DataUntil(b, m, s, d, e)
    decreases e
  {
    var n := if s == [] then 0 else Advance(d, m, s[0]);
    FoundStep(d, m, s, n, e);
    if n == |d| {
      DataEndsNow(b, m, s, d);
    } else {
      var rest := s[1..];
      DataUntilFound(b, n, rest, d, e - 1);
      DataEndsLater(b, m, s, d, n, e - 1);
    }
  }

  lemma PrefixShift(a: bytes, x: bytes, k: nat)
    requires k <= |x|
    ensures a + x[..k] == (a + x)[..|a| + k]
  {
  }

  /** The bytes given back and those still matched are all bytes so far. */
  lemma GivenAndMatched(d: bytes, m: nat, s: bytes, n: nat, given: bytes)
    requires m < |d| && s != [] && n == Advance(d, m, s[0]) < |d|
    requires given == if s[0] == d[m] then [] else if n == 1 then d[..m] else d[..m] + [s[0]]
    ensures given + (d[..n] + s[1..]) == d[..m] + s && |given| == m + 1 - n
    ensures DataStep(d, m, s[0]).atoms == DataBytes(given)
  {
    assert s == [s[0]] + s[1..];
    if s[0] == d[m] {
      assert d[..n] == d[..m] + [s[0]];
    } else if n == 1 {
      assert d[..1] == [s[0]];
    }
  }

  lemma DataBytesApp(a: bytes, b: bytes)
    ensures DataBytes(a + b) == DataBytes(a) + DataBytes(b)
  {
  }

  lemma DataOneMore(d: bytes, m: nat, s: bytes, n: nat, e: nat, now: seq<Atom>, later: bytes)
    requires m < |d| && s != [] && n == Advance(d, m, s[0]) < |d| && now == DataStep(d, m, s[0]).atoms
    requires n + e >= |d| && e <= |s| - 1 && later == (d[..n] + s[1..])[..n + e - |d|]
    ensures now + DataBytes(later) == DataBytes((d[..m] + s)[..m + e + 1 - |d|])
  {
    var given := if s[0] == d[m] then [] else if n == 1 then d[..m] else d[..m] + [s[0]];
    GivenAndMatched(d, m, s, n, given);
    PrefixShift(given, d[..n] + s[1..], n + e - |d|);
    DataBytesApp(given, later);
  }

  lemma {:induction false} DataWithoutEnd(b: bytes, m: nat, s: bytes, d: bytes)
    requires d == Delim(b) && m < |d| && Found(d, m, s).None?
    ensures Run(b, Data(m), s).consumed == |s| && Run(b, Data(m), s).mode.Data?
    ensures EndOfPart !in Run(b, Data(m), s).atoms
    decreases |s|
  {
    if s != [] { DataWithoutEnd(b, Advance(d, m, s[0]), s[1..], d); }
  }

  ghost predicate FirstAt(d: bytes, s: bytes, i: nat) { Occurs(d, s, i) && forall j: nat :: j < i ==> !Occurs(d, s, j) }

  /** The part data of a body is exactly what comes before its first delimiter, and the part ends there. */
  ghost predicate EndsAt(b: bytes, s: bytes, i: nat)
    requires Occurs(Delim(b), s, i)
  {
    Run(b, Data(0), s)
      == Then(i + |Delim(b)|, DataBytes(s[..i]) + [EndOfPart], Run(b, AlmostEnd, s[i + |Delim(b)|..]))
  }

  ghost predicate ExactParts(b: bytes) {
    forall s: bytes, i: nat :: FirstAt(Delim(b), s, i) ==> EndsAt(b, s, i)
  }

  /** The search's own first end, as a first occurrence. */
  lemma FirstEndIsFirstAt(d: bytes, s: bytes, r: Option<nat>, i: nat)
    requires d != [] && FirstEnd(d, [], s, r) && FirstAt(d, s, i)
    ensures r == Some(i + |d|)
  {
    var e := i + |d|;
    assert [] + s[..e] == s[..e] && s[..e][e - |d|..] == s[i..i + |d|];
    assert EndsWith([] + s[..e], d);
    if r.Some? && r.value < e {
      var k := r.value;
      assert [] + s[..k] == s[..k];
      assert s[..k][k - |d|..] == s[k - |d|..k];
      assert Occurs(d, s, k - |d|);
    }
  }

  lemma EndIsReported(b: bytes, s: bytes, i: nat)
    requires Occurs(Delim(b), s, i)
    ensures EndsAt(b, s, i) ==> EndOfPart in Run(b, Data(0), s).atoms
  {
    assert (DataBytes(s[..i]) + [EndOfPart])[i] == EndOfPart;
  }

  /** A bad border gives a body whose part never ends although the delimiter stands in it. */
  lemma BadBorderLosesPart(b: bytes, m: nat, k: nat) returns (s: bytes, i: nat)
    requires Border(Delim(b), m, k) && Delim(b)[m] != Delim(b)[k]
    ensures FirstAt(Delim(b), s, i) && !EndsAt(b, s, i)
  {
    var d := Delim(b);
    s := d[..k - m] + d;
    BadBorderMisses(d, m, k);
    DataWithoutEnd(b, 0, s, d);
    i := 0;
    while !Occurs(d, s, i)
      invariant i <= k - m && forall j: nat :: j < i ==> !Occurs(d, s, j)
      decreases k - m - i
    {
      i := i + 1;
    }
    EndIsReported(b, s, i);
  }

  lemma RestartableIsExact(b: bytes, s: bytes, i: nat, d: bytes)
    requires d == Delim(b) && Restartable(d) && FirstAt(d, s, i)
    ensures EndsAt(b, s, i)
  {
    NeverMissesIffRestartable(d);
    assert FirstEnd(d, [], s, Found(d, 0, s));
    FirstEndIsFirstAt(d, s, Found(d, 0, s), i);
    DataUntilFound(b, 0, s, d, i + |d|);
    UntilIsEndsAt(b, s, i, d);
  }

  lemma UntilIsEndsAt(b: bytes, s: bytes, i: nat, d: bytes)
    requires d == Delim(b) && Occurs(d, s, i) && DataUntil(b, 0, s, d, i + |d|)
    ensures EndsAt(b, s, i)
  {
    NothingMatched(d, s, i);
  }

  lemma NothingMatched(d: bytes, s: bytes, i: nat)
    requires i <= |s|
    ensures (d[..0] + s)[..0 + (i + |d|) - |d|] == s[..i]
  {
    assert d[..0] + s == s;
  }

  /** Part data is exact for every body exactly when CRLF and boundary form a restartable delimiter. */
  lemma PartsAreExactIffRestartable(b: bytes)
    ensures ExactParts(b) <==> Restartable(Delim(b))
  {
    var d := Delim(b);
    if Restartable(d) {
      forall s: bytes, i: nat | FirstAt(d, s, i) ensures EndsAt(b, s, i) {
        RestartableIsExact(b, s, i, d);
      }
    } else {
      var m: nat, k: nat :| m < |d| && k < |d| && Border(d, m, k) && d[m] != d[k];
      var s, i := BadBorderLosesPart(b, m, k);
    }
  }

  /** Boundaries as section 5.1.1 of RFC 2046 allows them have no CR, which is enough. */
  lemma NoCrIsEnough(b: bytes)
    requires CR !in b
    ensures ExactParts(b)
  {
    FreshFirstByte(Delim(b));
    PartsAreExactIffRestartable(b);
  }

  /** The boundary "a CR b": a body beginning CR LF a CR LF a CR b is not seen to end. */
  lemma CrCanHideTheEnd()
    ensures !ExactParts([97, 13, 98])
  {
    var b: bytes := [97, 13, 98];
    var d := Delim(b);
    assert d == [13, 10, 97, 13, 98];
    assert d[..1] == d[3..4] == [13];
    assert Border(d, 1, 4) && d[1] != d[4];
    PartsAreExactIffRestartable(b);
  }
}
