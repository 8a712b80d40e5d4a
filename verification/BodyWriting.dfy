/**
 Writing a multipart body and reading it back: every part is announced, its header names and values and
 its data are reported as they were written, and the end of the part and of the body are seen.
 */
module BodyWriting {
  import opened Bytes
  import opened Delimiter
  import opened Multipart
  import opened BodyCuts
  import MultipartParser

  /** A header line, with the number of blanks after its colon. */
  datatype Header = Header(name: bytes, blanks: nat, value: bytes)

  datatype Part = Part(headers: seq<Header>, data: bytes)

  /** Letters and hyphens. */
  predicate IsName(s: bytes) {
    forall i :: 0 <= i < |s| ==> s[i] == 45 || 97 <= s[i] <= 122 || 65 <= s[i] <= 90
  }

  predicate Writable(h: Header) { IsName(h.name) && 13 !in h.value && (h.value != [] ==> h.value[0] != 32) }

  /** The delimiter does not occur earlier than where it is written. */
  ghost predicate FitsIn(b: bytes, p: Part) {
    (forall i :: 0 <= i < |p.headers| ==> Writable(p.headers[i])) && FirstAt([13, 10] + b, p.data + ([13, 10] + b), |p.data|)
  }

  function Blanks(n: nat): bytes { if n == 0 then [] else [32] + Blanks(n - 1) }

  function WriteHeader(h: Header): bytes { h.name + [58] + (Blanks(h.blanks) + (h.value + [13, 10])) }

  function WriteHeaders(hs: seq<Header>): bytes {
    if hs == [] then [] else WriteHeader(hs[0]) + WriteHeaders(hs[1..])
  }

  /** Header lines, an empty line, the data and the delimiter. */
  function WritePart(b: bytes, p: Part): bytes { WriteHeaders(p.headers) + ([13, 10] + (p.data + ([13, 10] + b))) }

  function WriteParts(b: bytes, ps: seq<Part>): bytes
    requires ps != []
  {
    if |ps| == 1 then WritePart(b, ps[0]) + [45, 45] else WritePart(b, ps[0]) + ([13, 10] + WriteParts(b, ps[1..]))
  }

  /** The body, and whatever comes after its end. */
  function WriteBody(b: bytes, ps: seq<Part>, epilogue: bytes): bytes
    requires ps != []
  {
    b + [13, 10] + (WriteParts(b, ps) + epilogue)
  }

  // ----- what has to be reported -----

  function HeaderAtoms(h: Header): seq<Atom> { NameBytes(h.name) + ValueBytes(h.value) }

  function HeadersAtoms(hs: seq<Header>): seq<Atom> {
    if hs == [] then [] else HeaderAtoms(hs[0]) + HeadersAtoms(hs[1..])
  }

  function PartAtoms(p: Part): seq<Atom> { HeadersAtoms(p.headers) + ([Complete] + (DataBytes(p.data) + [EndOfPart])) }

  function PartsAtoms(ps: seq<Part>): seq<Atom>
    requires ps != []
  {
    if |ps| == 1 then [Begin] + PartAtoms(ps[0]) + [EndOfBody] else [Begin] + PartAtoms(ps[0]) + PartsAtoms(ps[1..])
  }

  // ----- pieces of a run -----

  /** All of s is accepted, no name is dropped, and this is where it leads and what it reports. */
  predicate Goes(b: bytes, m: Mode, s: bytes, n: Mode, a: seq<Atom>) {
    Run(b, m, s) == Progress(|s|, n, a) && !DropsName(b, m, s)
  }

  lemma {:induction false} NoDropApp(b: bytes, m: Mode, s: bytes, t: bytes)
    requires !DropsName(b, m, s) && Run(b, m, s).consumed == |s| && !DropsName(b, Run(b, m, s).mode, t)
    ensures !DropsName(b, m, s + t)
    decreases |s|
  {
    if s == [] {
      assert s + t == t;
    } else {
      assert (s + t)[1..] == s[1..] + t;
      NoDropApp(b, Step(b, m, s[0]).mode, s[1..], t);
    }
  }

  lemma GoesOn(b: bytes, m: Mode, s: bytes, n: Mode, a: seq<Atom>, t: bytes, k: Mode, c: seq<Atom>)
    requires Goes(b, m, s, n, a) && Goes(b, n, t, k, c)
    ensures Goes(b, m, s + t, k, a + c)
  {
    RunApp(b, m, s, t);
    NoDropApp(b, m, s, t);
  }

  lemma Stays(b: bytes, m: Mode)
    ensures Goes(b, m, [], m, [])
  {
  }

  lemma OneByteGoes(b: bytes, m: Mode, c: byte, n: Mode, a: seq<Atom>)
    requires Step(b, m, c) == To(n, a) && (m.Field? && m.held != [] ==> c != 13)
    requires n.HeadersAlmostDone? ==> m.Field?
    ensures Goes(b, m, [c], n, a)
  {
    assert [c][1..] == [] && a + [] == a;
    assert Run(b, n, []) == Progress(0, n, []);
  }

  lemma ByteFirst(b: bytes, m: Mode, c: byte, n: Mode, a: seq<Atom>, t: bytes, k: Mode, d: seq<Atom>)
    requires Step(b, m, c) == To(n, a) && (m.Field? && m.held != [] ==> c != 13)
    requires n.HeadersAlmostDone? ==> m.Field?
    requires Goes(b, n, t, k, d)
    ensures Goes(b, m, [c] + t, k, a + d)
  {
    OneByteGoes(b, m, c, n, a);
    GoesOn(b, m, [c], n, a, t, k, d);
  }

  lemma NoAtoms(a: seq<Atom>)
    ensures [] + a == a
  {
  }

  // ----- header lines -----

  lemma {:induction false} NameGoes(b: bytes, h: bytes, s: bytes)
    requires IsName(s)
    ensures Goes(b, Field(h), s, Field(h + s), [])
    decreases |s|
  {
    if s == [] {
      Stays(b, Field(h));
      assert h + [] == h;
    } else {
      assert s == [s[0]] + s[1..] && (h + [s[0]]) + s[1..] == h + s;
      NameGoes(b, h + [s[0]], s[1..]);
      NoAtoms([]);
      ByteFirst(b, Field(h), s[0], Field(h + [s[0]]), [], s[1..], Field(h + s), []);
    }
  }

  lemma {:induction false} BlanksGo(b: bytes, n: nat)
    ensures Goes(b, ValueStart, Blanks(n), ValueStart, [])
  {
    if n == 0 {
      Stays(b, ValueStart);
    } else {
      BlanksGo(b, n - 1);
      ByteFirst(b, ValueStart, 32, ValueStart, [], Blanks(n - 1), ValueStart, []);
      NoAtoms([]);
    }
  }

  lemma ValueBytesCons(c: byte, s: bytes)
    ensures ValueBytes([c] + s) == [ValueByte(c)] + ValueBytes(s)
  {
  }

  lemma {:induction false} ValueGoes(b: bytes, s: bytes)
    requires 13 !in s
    ensures Goes(b, Value, s, Value, ValueBytes(s))
    decreases |s|
  {
    if s == [] {
      Stays(b, Value);
    } else {
      assert s == [s[0]] + s[1..];
      ValueGoes(b, s[1..]);
      ByteFirst(b, Value, s[0], Value, [ValueByte(s[0])], s[1..], Value, ValueBytes(s[1..]));
      ValueBytesCons(s[0], s[1..]);
    }
  }

  /** The end of a header line. */
  lemma LineEndGoes(b: bytes, m: Mode)
    requires m.ValueStart? || m.Value?
    ensures Goes(b, m, [13, 10], Field([]), [])
  {
    OneByteGoes(b, ValueAlmostDone, 10, Field([]), []);
    ByteFirst(b, m, 13, ValueAlmostDone, [], [10], Field([]), []);
    assert [13] + [10] == [13, 10];
    NoAtoms([]);
  }

  lemma ValueAndEnd(b: bytes, v: bytes)
    requires 13 !in v && (v != [] ==> v[0] != 32)
    ensures Goes(b, ValueStart, v + [13, 10], Field([]), ValueBytes(v))
  {
    if v == [] {
      LineEndGoes(b, ValueStart);
      assert v + [13, 10] == [13, 10];
    } else {
      var rest := v[1..];
      assert v == [v[0]] + rest;
      ValueGoes(b, rest);
      LineEndGoes(b, Value);
      GoesOn(b, Value, rest, Value, ValueBytes(rest), [13, 10], Field([]), []);
      assert ValueBytes(rest) + [] == ValueBytes(rest);
      ByteFirst(b, ValueStart, v[0], Value, [ValueByte(v[0])], rest + [13, 10], Field([]), ValueBytes(rest));
      ValueBytesCons(v[0], rest);
      assert [v[0]] + (rest + [13, 10]) == v + [13, 10];
    }
  }

  lemma HeaderGoes(b: bytes, h: Header)
    requires Writable(h)
    ensures Goes(b, Field([]), WriteHeader(h), Field([]), HeaderAtoms(h))
  {
    var line := Blanks(h.blanks) + (h.value + [13, 10]);
    NameGoes(b, [], h.name);
    assert [] + h.name == h.name;
    OneByteGoes(b, Field(h.name), 58, ValueStart, NameBytes(h.name));
    GoesOn(b, Field([]), h.name, Field(h.name), [], [58], ValueStart, NameBytes(h.name));
    assert [] + NameBytes(h.name) == NameBytes(h.name);
    BlanksGo(b, h.blanks);
    ValueAndEnd(b, h.value);
    GoesOn(b, ValueStart, Blanks(h.blanks), ValueStart, [], h.value + [13, 10], Field([]), ValueBytes(h.value));
    assert [] + ValueBytes(h.value) == ValueBytes(h.value);
    GoesOn(b, Field([]), h.name + [58], ValueStart, NameBytes(h.name), line, Field([]), ValueBytes(h.value));
  }

  lemma {:induction false} HeadersGo(b: bytes, hs: seq<Header>)
    requires forall i :: 0 <= i < |hs| ==> Writable(hs[i])
    ensures Goes(b, Field([]), WriteHeaders(hs), Field([]), HeadersAtoms(hs))
    decreases |hs|
  {
    if hs == [] {
      Stays(b, Field([]));
    } else {
      HeaderGoes(b, hs[0]);
      HeadersGo(b, hs[1..]);
      GoesOn(b, Field([]), WriteHeader(hs[0]), Field([]), HeaderAtoms(hs[0]), WriteHeaders(hs[1..]), Field([]), HeadersAtoms(hs[1..]));
    }
  }

  // ----- data -----

  /** Part data in which the delimiter is found at the very end never gets into a header. */
  lemma {:induction false} DataDropsNothing(b: bytes, m: nat, s: bytes, d: bytes)
    requires d == Delim(b) && m < |d| && Found(d, m, s) == Some(|s|)
    ensures !DropsName(b, Data(m), s)
    decreases |s|
  {
    var n := Advance(d, m, s[0]);
    if n == |d| {
      assert s[1..] == [];
    } else {
      DataDropsNothing(b, n, s[1..], d);
    }
  }

  lemma DataGoes(b: bytes, data: bytes, d: bytes)
    requires d == Delim(b) && Restartable(d) && FirstAt(d, data + d, |data|)
    ensures Goes(b, Data(0), data + d, AlmostEnd, DataBytes(data) + [EndOfPart])
  {
    var s := data + d;
    RestartableIsExact(b, s, |data|, d);
    assert s[..|data|] == data && s[|s|..] == [];
    assert Run(b, AlmostEnd, []) == Progress(0, AlmostEnd, []);
    assert DataBytes(data) + [EndOfPart] + [] == DataBytes(data) + [EndOfPart];
    NeverMissesIffRestartable(d);
    assert FirstEnd(d, [], s, Found(d, 0, s));
    FirstEndIsFirstAt(d, s, Found(d, 0, s), |data|);
    DataDropsNothing(b, 0, s, d);
  }

  /** The first byte of the data also completes the headers. */
  lemma CompleteFirst(b: bytes, s: bytes, n: Mode, a: seq<Atom>)
    requires s != [] && Goes(b, Data(0), s, n, a)
    ensures Goes(b, DataStart, s, n, [Complete] + a)
  {
    var move := Step(b, Data(0), s[0]);
    assert move.To?;
    var p := Run(b, move.mode, s[1..]);
    assert ([Complete] + move.atoms) + p.atoms == [Complete] + (move.atoms + p.atoms);
  }

  lemma PartGoes(b: bytes, p: Part, d: bytes)
    requires d == Delim(b) && Restartable(d) && FitsIn(b, p)
    ensures Goes(b, Field([]), WritePart(b, p), AlmostEnd, PartAtoms(p))
  {
    var data := p.data + d;
    HeadersGo(b, p.headers);
    OneByteGoes(b, HeadersAlmostDone, 10, DataStart, []);
    ByteFirst(b, Field([]), 13, HeadersAlmostDone, [], [10], DataStart, []);
    assert [13] + [10] == [13, 10];
    NoAtoms([]);
    DataGoes(b, p.data, d);
    CompleteFirst(b, data, AlmostEnd, DataBytes(p.data) + [EndOfPart]);
    var rest := [Complete] + (DataBytes(p.data) + [EndOfPart]);
    GoesOn(b, Field([]), [13, 10], DataStart, [], data, AlmostEnd, rest);
    assert [] + rest == rest;
    GoesOn(b, Field([]), WriteHeaders(p.headers), Field([]), HeadersAtoms(p.headers), [13, 10] + data, AlmostEnd, rest);
  }

  // ----- the whole body -----

  /** CRLF after the boundary announces the next part. */
  lemma NextPartGoes(b: bytes)
    ensures Goes(b, AlmostEnd, [13, 10], Field([]), [Begin])
  {
    OneByteGoes(b, DataEnd, 10, Field([]), [Begin]);
    ByteFirst(b, AlmostEnd, 13, DataEnd, [], [10], Field([]), [Begin]);
    assert [13] + [10] == [13, 10];
    NoAtoms([Begin]);
  }

  /** Two hyphens after the boundary end the body. */
  lemma BodyEndGoes(b: bytes)
    ensures Goes(b, AlmostEnd, [45, 45], Ended, [EndOfBody])
  {
    OneByteGoes(b, FinalHyphen, 45, Ended, [EndOfBody]);
    ByteFirst(b, AlmostEnd, 45, FinalHyphen, [], [45], Ended, [EndOfBody]);
    assert [45] + [45] == [45, 45];
    NoAtoms([EndOfBody]);
  }

  lemma LastPartGoes(b: bytes, w: bytes, a: seq<Atom>)
    requires Goes(b, Field([]), w, AlmostEnd, a)
    ensures Goes(b, Field([]), w + [45, 45], Ended, a + [EndOfBody])
  {
    BodyEndGoes(b);
    GoesOn(b, Field([]), w, AlmostEnd, a, [45, 45], Ended, [EndOfBody]);
  }

  lemma FurtherPartsGo(b: bytes, w: bytes, a: seq<Atom>, rest: bytes, later: seq<Atom>)
    requires Goes(b, Field([]), w, AlmostEnd, a) && Goes(b, Field([]), rest, Ended, later)
    ensures Goes(b, Field([]), w + ([13, 10] + rest), Ended, a + ([Begin] + later))
  {
    NextPartGoes(b);
    GoesOn(b, AlmostEnd, [13, 10], Field([]), [Begin], rest, Ended, later);
    GoesOn(b, Field([]), w, AlmostEnd, a, [13, 10] + rest, Ended, [Begin] + later);
  }

  /** What is reported of the parts after Begin of the first. */
  function AfterBegin(ps: seq<Part>): seq<Atom>
    requires ps != []
  {
    if |ps| == 1 then PartAtoms(ps[0]) + [EndOfBody] else PartAtoms(ps[0]) + ([Begin] + AfterBegin(ps[1..]))
  }

  lemma {:induction false} AfterBeginIs(ps: seq<Part>)
    requires ps != []
    ensures PartsAtoms(ps) == [Begin] + AfterBegin(ps)
    decreases |ps|
  {
    if |ps| > 1 {
      AfterBeginIs(ps[1..]);
      Regroup([Begin], PartAtoms(ps[0]), PartsAtoms(ps[1..]));
    } else {
      Regroup([Begin], PartAtoms(ps[0]), [EndOfBody]);
    }
  }

  lemma {:induction false} PartsGo(b: bytes, ps: seq<Part>, d: bytes)
    requires d == Delim(b) && Restartable(d) && ps != [] && forall i :: 0 <= i < |ps| ==> FitsIn(b, ps[i])
    ensures Goes(b, Field([]), WriteParts(b, ps), Ended, AfterBegin(ps))
    decreases |ps|
  {
    PartGoes(b, ps[0], d);
    if |ps| == 1 {
      LastPartGoes(b, WritePart(b, ps[0]), PartAtoms(ps[0]));
    } else {
      PartsGo(b, ps[1..], d);
      FurtherPartsGo(b, WritePart(b, ps[0]), PartAtoms(ps[0]), WriteParts(b, ps[1..]), AfterBegin(ps[1..]));
    }
  }

  lemma {:induction false} OpeningGoes(b: bytes, i: nat)
    requires i <= |b|
    ensures Goes(b, Opening(i), b[i..] + [13, 10], Field([]), [Begin])
    decreases |b| - i
  {
    if i == |b| {
      OneByteGoes(b, Opening(i + 1), 10, Field([]), [Begin]);
      ByteFirst(b, Opening(i), 13, Opening(i + 1), [], [10], Field([]), [Begin]);
      assert b[i..] + [13, 10] == [13] + [10] && [] + [Begin] == [Begin];
    } else {
      OpeningGoes(b, i + 1);
      ByteFirst(b, Opening(i), b[i], Opening(i + 1), [], b[i + 1..] + [13, 10], Field([]), [Begin]);
      assert b[i..] + [13, 10] == [b[i]] + (b[i + 1..] + [13, 10]) && [] + [Begin] == [Begin];
    }
  }

  lemma {:induction false} EpilogueGoes(b: bytes, s: bytes)
    ensures Goes(b, Ended, s, Ended, [])
    decreases |s|
  {
    if s == [] {
      Stays(b, Ended);
    } else {
      EpilogueGoes(b, s[1..]);
      ByteFirst(b, Ended, s[0], Ended, [], s[1..], Ended, []);
      assert s == [s[0]] + s[1..];
      NoAtoms([]);
    }
  }

  lemma WholeGoes(b: bytes, opening: bytes, w: bytes, later: seq<Atom>, epilogue: bytes)
    requires Goes(b, Opening(0), opening, Field([]), [Begin]) && Goes(b, Field([]), w, Ended, later)
    ensures Goes(b, Opening(0), opening + (w + epilogue), Ended, [Begin] + later)
  {
    EpilogueGoes(b, epilogue);
    GoesOn(b, Field([]), w, Ended, later, epilogue, Ended, []);
    assert later + [] == later;
    GoesOn(b, Opening(0), opening, Field([]), [Begin], w + epilogue, Ended, later);
  }

  /** A written body is accepted in full, and reported part by part exactly as it was written. */
  lemma WrittenBodyIsReported(b: bytes, ps: seq<Part>, epilogue: bytes, d: bytes)
    requires d == Delim(b) && Restartable(d) && ps != [] && forall i :: 0 <= i < |ps| ==> FitsIn(b, ps[i])
    ensures Goes(b, Opening(0), WriteBody(b, ps, epilogue), Ended, PartsAtoms(ps))
  {
    OpeningGoes(b, 0);
    assert b[0..] == b;
    PartsGo(b, ps, d);
    AfterBeginIs(ps);
    WholeGoes(b, b + [13, 10], WriteParts(b, ps), AfterBegin(ps), epilogue);
  }

  /** The bytes that are refused, place by place. */
  lemma StepRefusesIff(b: bytes, m: Mode, c: byte)
    requires (m.Opening? ==> m.index <= |b| + 1) && (m.Data? ==> m.matched < |b| + 2)
    ensures Step(b, m, c).Reject? <==>
              match m
              case Opening(i) => c != (if i < |b| then b[i] else if i == |b| then 13 else 10)
              case Field(_) => c != 13 && c != 58 && c != 45 && !(97 <= c <= 122) && !(65 <= c <= 90)
              case HeadersAlmostDone => c != 10
              case ValueAlmostDone => c != 10
              case AlmostEnd => c != 45 && c != 13
              case FinalHyphen => c != 45
              case DataEnd => c != 10
              case ValueStart => false
              case Value => false
              case DataStart => false
              case Data(_) => false
              case Ended => false
  {
  }

  /** However a written body is cut into buffers, the callbacks are given its parts. */
  method ReadWritten(boundary: bytes, ghost ps: seq<Part>, ghost epilogue: bytes, chunks: seq<bytes>)
    returns (p: MultipartParser.Parser, accepted: bool)
    requires boundary != [] && Restartable(Delim(boundary))
    requires ps != [] && forall i :: 0 <= i < |ps| ==> FitsIn(boundary, ps[i])
    requires Joined(chunks) == WriteBody(boundary, ps, epilogue)
    ensures fresh(p) && accepted && p.told == PartsAtoms(ps)
  {
    WrittenBodyIsReported(boundary, ps, epilogue, Delim(boundary));
    p, accepted := MultipartParser.ParseAnyCuts(boundary, Joined(chunks), chunks);
  }
}
