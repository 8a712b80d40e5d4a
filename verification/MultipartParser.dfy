/** The push parser of multipart bodies: one scanning loop with a look-behind buffer and a re-scan step. */
module MultipartParser {
  import opened Bytes
  import opened Delimiter
  import opened Multipart
  import opened BodyCuts

  datatype State =
    | SStart | SStartBoundary | SHeaderFieldStart | SHeaderField | SHeadersAlmostDone
    | SHeaderValueStart | SHeaderValue | SHeaderValueAlmostDone | SPartDataStart | SPartData
    | SPartDataAlmostBoundary | SPartDataBoundary | SPartDataAlmostEnd | SPartDataEnd
    | SPartDataFinalHyphen | SEnd

  function ModeOf(state: State, index: nat): Mode {
    match state
    case SStart => Opening(0)
    case SStartBoundary => Opening(index)
    case SHeaderFieldStart => Field([])
    case SHeaderField => Field([])
    case SHeadersAlmostDone => HeadersAlmostDone
    case SHeaderValueStart => ValueStart
    case SHeaderValue => Value
    case SHeaderValueAlmostDone => ValueAlmostDone
    case SPartDataStart => DataStart
    case SPartData => Data(0)
    case SPartDataAlmostBoundary => Data(1)
    case SPartDataBoundary => Data(2 + index)
    case SPartDataAlmostEnd => AlmostEnd
    case SPartDataEnd => DataEnd
    case SPartDataFinalHyphen => FinalHyphen
    case SEnd => Ended
  }

  /** Bytes already scanned but not yet handed to a callback: those from the mark on. */
  function Held(state: State, buf: bytes, mark: nat, i: nat): seq<Atom> {
    if i >= |buf| || mark > i then []
    else if state.SPartData? then DataBytes(buf[mark..i])
    else if state.SHeaderValue? then ValueBytes(buf[mark..i])
    else []
  }

  /** The part of a header name reported because the buffer ends in it. */
  function Spill(state: State, buf: bytes, mark: nat, i: nat): seq<Atom> {
    if state.SHeaderField? && i == |buf| && mark <= i then NameBytes(buf[mark..i]) else []
  }

  class Parser {
    const boundary: bytes
    const lookbehind: array<byte>
    var index: nat
    var state: State
    ghost var told: seq<Atom> // everything the callbacks have been given

    /** While part data may be the delimiter, the look-behind buffer holds the matched bytes. */
    ghost predicate Valid()
      reads this, lookbehind
    {
      && boundary != [] && lookbehind.Length == |boundary| + 8
      && (state.SStartBoundary? ==> index <= |boundary| + 1)
      && (state.SPartDataAlmostBoundary? ==> lookbehind[..1] == Delim(boundary)[..1])
      && (state.SPartDataBoundary? ==>
            index < |boundary| && lookbehind[..2 + index] == Delim(boundary)[..2 + index])
    }

    /** The mode between two buffers. */
    function CurrentMode(): Mode
      reads this
    {
      ModeOf(state, index)
    }

    /** The mode within a buffer, where the part of a header name since the mark may be held. */
    function ModeAt(buf: bytes, mark: nat, i: nat): Mode
      reads this
    {
      if state.SHeaderField? && mark <= i <= |buf| then Field(buf[mark..i]) else CurrentMode()
    }

    /** Everything reported, or held to be reported, for the bytes before i. */
    ghost function Account(buf: bytes, mark: nat, i: nat): seq<Atom>
      reads this
    {
      told + Held(state, buf, mark, i)
    }

    constructor (boundary: bytes)
      requires boundary != []
      ensures Valid() && this.boundary == boundary && CurrentMode() == Opening(0) && told == []
      ensures fresh(lookbehind)
    {
      this.boundary := boundary;
      lookbehind := new byte[|boundary| + 8](i => 0);
      index, state, told := 0, SStart, [];
    }

    /** A callback is called. */
    method Notify(e: Event)
      modifies `told
      ensures told == old(told) + AtomsOf(e)
    {
      told := told + AtomsOf(e);
    }

    /** s_start and s_start_boundary. */
    method OpeningByte(c: byte) returns (ok: bool)
      requires Valid() && (state.SStart? || state.SStartBoundary?)
      modifies this
      ensures Valid()
      ensures match Step(boundary, old(CurrentMode()), c)
              case Reject => !ok && CurrentMode() == old(CurrentMode()) && told == old(told)
              case To(mode, atoms) => ok && CurrentMode() == mode && told == old(told) + atoms
      ensures !state.SPartData? && !state.SHeaderValue? && !state.SHeaderField?
    {
      if state.SStart? {
        index := 0;
        state := SStartBoundary;
      }
      ok := true;
      if index == |boundary| {
        if c != CR { return false; }
        index := index + 1;
      } else if index == |boundary| + 1 {
        if c != LF { return false; }
        index := 0;
        Notify(PartBegin);
        state := SHeaderFieldStart;
      } else {
        if c != boundary[index] { return false; }
        index := index + 1;
      }
    }

    /** s_header_field_start and s_header_field. */
    method FieldByte(buf: bytes, i: nat, mark: nat) returns (ok: bool, mark': nat)
      requires Valid() && (state.SHeaderFieldStart? || state.SHeaderField?) && mark <= i < |buf|
      modifies this
      ensures Valid() && mark' <= i
      ensures match Step(boundary, old(ModeAt(buf, mark, i)), buf[i])
              case Reject => !ok && ModeAt(buf, mark', i) == old(ModeAt(buf, mark, i)) && told == old(told)
              case To(mode, atoms) =>
                ok && ModeAt(buf, mark', i + 1) == mode && told == old(told) + atoms + Spill(state, buf, mark', i + 1)
      ensures !state.SPartData? && !state.SHeaderValue?
    {
      mark' := mark;
      if state.SHeaderFieldStart? {
        mark' := i;
        state := SHeaderField;
      }
      var c := buf[i];
      ok := true;
      NothingHeld(told);
      if c == CR {
        state := SHeadersAlmostDone;
      } else if c == COLON {
        Notify(HeaderField(buf[mark'..i]));
        state := SHeaderValueStart;
        NothingHeld(told);
      } else {
        var cl := if 65 <= c <= 90 then c + 32 else c;
        if c != HYPHEN && (cl < 97 || cl > 122) { return false, mark'; }
        assert buf[mark'..i + 1] == buf[mark'..i] + [c];
        if i == |buf| - 1 { Notify(HeaderField(buf[mark'..i + 1])); }
      }
    }

    /** s_header_value. */
    method ScanValue(buf: bytes, i: nat, mark: nat, ghost held: bytes)
      requires Valid() && state.SHeaderValue? && mark <= i < |buf| && held == buf[mark..i]
      modifies this
      ensures Valid() && (state.SHeaderValueAlmostDone? || state.SHeaderValue?)
      ensures state.SHeaderValueAlmostDone? <==> buf[i] == CR
      ensures told + Held(state, buf, mark, i + 1)
           == old(told) + ValueBytes(held) + (if buf[i] == CR then [] else [ValueByte(buf[i])])
    {
      var c := buf[i];
      HoldOneMore(buf, mark, i, held, told);
      if c == CR {
        Notify(HeaderValue(buf[mark..i]));
        state := SHeaderValueAlmostDone;
      } else if i == |buf| - 1 {
        Notify(HeaderValue(buf[mark..i + 1]));
      }
    }

    /** s_header_value_start and s_header_value. */
    method ValueByteAt(buf: bytes, i: nat, mark: nat) returns (mark': nat)
      requires Valid() && (state.SHeaderValueStart? || state.SHeaderValue?) && mark <= i < |buf|
      modifies this
      ensures Valid() && mark' <= i
      ensures var step := Step(boundary, old(CurrentMode()), buf[i]);
              && step.To? && CurrentMode() == step.mode
              && Account(buf, mark', i + 1) == old(Account(buf, mark, i)) + step.atoms
    {
      mark' := mark;
      if state.SHeaderValueStart? {
        if buf[i] == SPACE { return; }
        mark' := i;
        state := SHeaderValue;
      }
      ScanValue(buf, i, mark', buf[mark'..i]);
    }

    /** s_part_data. */
    method ScanData(buf: bytes, i: nat, mark: nat, ghost held: bytes) returns (mark': nat)
      requires Valid() && state.SPartData? && mark <= i < |buf| && held == buf[mark..i]
      modifies this, lookbehind
      ensures Valid() && mark' <= i
      ensures if buf[i] == CR then state.SPartDataAlmostBoundary? else state.SPartData?
      ensures told + Held(state, buf, mark', i + 1)
           == old(told) + DataBytes(held) + (if buf[i] == CR then [] else [DataByte(buf[i])])
    {
      var c := buf[i];
      mark' := mark;
      HoldOneMore(buf, mark, i, held, told);
      if c == CR {
        Notify(PartData(buf[mark..i]));
        mark' := i;
        state := SPartDataAlmostBoundary;
        lookbehind[0] := CR;
        DelimParts(boundary);
        assert lookbehind[..1] == [CR];
      } else if i == |buf| - 1 {
        Notify(PartData(buf[mark..i + 1]));
      }
    }

    /** s_part_data_start and s_part_data. */
    method DataByteAt(buf: bytes, i: nat, mark: nat) returns (mark': nat)
      requires Valid() && (state.SPartDataStart? || state.SPartData?) && mark <= i < |buf|
      modifies this, lookbehind
      ensures Valid() && mark' <= i
      ensures CurrentMode() == if buf[i] == CR then Data(1) else Data(0)
      ensures Account(buf, mark', i + 1) == old(Account(buf, mark, i))
                + (if old(state).SPartDataStart? then [Complete] else [])
                + (if buf[i] == CR then [] else [DataByte(buf[i])])
    {
      mark' := mark;
      if state.SPartDataStart? {
        Notify(HeadersComplete);
        mark' := i;
        state := SPartData;
      }
      mark' := ScanData(buf, i, mark', buf[mark'..i]);
    }

    /** s_part_data_almost_boundary: LF goes on with the match, anything else gives the CR back. */
    method AlmostByte(c: byte) returns (again: bool)
      requires Valid() && state.SPartDataAlmostBoundary?
      modifies this, lookbehind
      ensures Valid() && again == (c != LF)
      ensures again ==> state.SPartData? && told == old(told) + DataBytes(Delim(boundary)[..1])
      ensures !again ==> CurrentMode() == Data(2) && state.SPartDataBoundary? && told == old(told)
    {
      if c == LF {
        DelimParts(boundary);
        state := SPartDataBoundary;
        lookbehind[1] := LF;
        index := 0;
        assert lookbehind[..2] == lookbehind[..1] + [LF];
        return false;
      }
      Notify(PartData(lookbehind[..1]));
      state := SPartData;
      again := true;
    }

    /** s_part_data_boundary: the next byte of the boundary goes on with the match, any other gives all matched bytes back. */
    method BoundaryByte(c: byte) returns (again: bool)
      requires Valid() && state.SPartDataBoundary?
      modifies this, lookbehind
      ensures Valid() && again == (c != boundary[old(index)])
      ensures again ==> state.SPartData? && told == old(told) + DataBytes(Delim(boundary)[..2 + old(index)])
      ensures !again && old(index) + 1 < |boundary| ==>
                CurrentMode() == Data(3 + old(index)) && state.SPartDataBoundary? && told == old(told)
      ensures !again && old(index) + 1 == |boundary| ==>
                state.SPartDataAlmostEnd? && told == old(told) + [EndOfPart]
    {
      if boundary[index] != c {
        Notify(PartData(lookbehind[..2 + index]));
        state := SPartData;
        return true;
      }
      DelimGrows(boundary, index);
      lookbehind[2 + index] := c;
      assert lookbehind[..3 + index] == lookbehind[..2 + index] + [c];
      index := index + 1;
      if index == |boundary| {
        Notify(PartEnd);
        state := SPartDataAlmostEnd;
      }
      again := false;
    }

    /** s_headers_almost_done and s_header_value_almost_done: the LF of a line end. */
    method LineEndByte(c: byte) returns (ok: bool)
      requires Valid() && (state.SHeadersAlmostDone? || state.SHeaderValueAlmostDone?)
      modifies this
      ensures Valid() && ok == (c == LF) && told == old(told)
      ensures if !ok then state == old(state) else state == if old(state).SHeadersAlmostDone? then SPartDataStart else SHeaderFieldStart
    {
      if c != LF { return false; }
      state := if state.SHeadersAlmostDone? then SPartDataStart else SHeaderFieldStart;
      ok := true;
    }

    /** What follows a boundary: CRLF and the next part, or two hyphens and the end. */
    method AfterBoundaryByte(c: byte) returns (ok: bool)
      requires Valid() && (state.SPartDataAlmostEnd? || state.SPartDataFinalHyphen? || state.SPartDataEnd?)
      modifies this
      ensures Valid() && !state.SPartData? && !state.SHeaderValue? && !state.SHeaderField?
      ensures match Step(boundary, old(CurrentMode()), c)
              case Reject => !ok && CurrentMode() == old(CurrentMode()) && told == old(told)
              case To(mode, atoms) => ok && CurrentMode() == mode && told == old(told) + atoms
    {
      ok := true;
      if state.SPartDataAlmostEnd? {
        if c == HYPHEN {
          state := SPartDataFinalHyphen;
        } else if c == CR {
          state := SPartDataEnd;
        } else {
          ok := false;
        }
      } else if state.SPartDataFinalHyphen? {
        if c != HYPHEN { return false; }
        Notify(BodyEnd);
        state := SEnd;
      } else {
        if c != LF { return false; }
        state := SHeaderFieldStart;
        Notify(PartBegin);
      }
    }

    /** A byte accepted, with what it makes known. */
    twostate predicate Stepped(buf: bytes, mark: nat, i: nat, mark': nat, atoms: seq<Atom>)
      requires i < |buf|
      reads this
    {
      && Step(boundary, old(ModeAt(buf, mark, i)), buf[i]) == To(ModeAt(buf, mark', i + 1), atoms)
      && Account(buf, mark', i + 1) == old(Account(buf, mark, i)) + atoms + Spill(state, buf, mark', i + 1)
    }

    twostate predicate Refused(buf: bytes, mark: nat, i: nat, mark': nat)
      requires i < |buf|
      reads this
    {
      && Step(boundary, old(ModeAt(buf, mark, i)), buf[i]).Reject?
      && ModeAt(buf, mark', i) == old(ModeAt(buf, mark, i)) && told == old(Account(buf, mark, i))
    }

    /** A broken match given back, with the current byte to be scanned again. */
    twostate predicate GivenBack(buf: bytes, mark: nat, i: nat, mark': nat, back: seq<Atom>)
      requires i < |buf|
      reads this
    {
      && Mismatch(boundary, old(CurrentMode()), buf[i]) && CurrentMode() == Data(0)
      && back == DataBytes(Delim(boundary)[..old(CurrentMode()).matched])
      && Account(buf, mark', i) == old(Account(buf, mark, i)) + back
    }

    /** Part data that is not under suspicion. */
    method PlainByte(buf: bytes, i: nat, mark: nat) returns (mark': nat, ghost atoms: seq<Atom>)
      requires Valid() && mark <= i < |buf| && (state.SPartDataStart? || state.SPartData?)
      modifies this, lookbehind
      ensures Valid() && mark' <= i && Stepped(buf, mark, i, mark', atoms)
    {
      ghost var before, c := Account(buf, mark, i), buf[i];
      ghost var first: seq<Atom> := if state.SPartDataStart? then [Complete] else [];
      ghost var rest: seq<Atom> := if c == CR then [] else [DataByte(c)];
      atoms := first + rest;
      PlainSteps(boundary, c);
      Regroup(before, first, rest);
      mark' := DataByteAt(buf, i, mark);
    }

    /** A CR that may begin the delimiter. */
    method AfterCr(buf: bytes, i: nat, mark: nat) returns (again: bool, mark': nat, ghost atoms: seq<Atom>)
      requires Valid() && mark <= i < |buf| && state.SPartDataAlmostBoundary?
      modifies this, lookbehind
      ensures Valid() && mark' <= i
      ensures if again then GivenBack(buf, mark, i, mark', atoms) else Stepped(buf, mark, i, mark', atoms)
    {
      DelimParts(boundary);
      NothingHeld(told);
      if buf[i] == LF { MatchStep(boundary, 1, LF); }
      mark' := i;
      atoms := if buf[i] == LF then [] else DataBytes(Delim(boundary)[..1]);
      again := AlmostByte(buf[i]);
    }

    /** CRLF and part of the boundary that may be the delimiter. */
    method InBoundary(buf: bytes, i: nat, mark: nat) returns (again: bool, mark': nat, ghost atoms: seq<Atom>)
      requires Valid() && mark <= i < |buf| && state.SPartDataBoundary?
      modifies this, lookbehind
      ensures Valid() && mark' <= i
      ensures if again then GivenBack(buf, mark, i, mark', atoms) else Stepped(buf, mark, i, mark', atoms)
    {
      DelimParts(boundary);
      NothingHeld(told);
      mark' := i;
      if buf[i] != boundary[index] {
        atoms := DataBytes(Delim(boundary)[..2 + index]);
      } else {
        MatchStep(boundary, 2 + index, buf[i]);
        atoms := if index + 1 == |boundary| then [EndOfPart] else [];
      }
      again := BoundaryByte(buf[i]);
    }

    /** One round of the loop. */
    method ScanByte(buf: bytes, i: nat, mark: nat) returns (ok: bool, again: bool, mark': nat, ghost atoms: seq<Atom>)
      requires Valid() && mark <= i < |buf|
      modifies this, lookbehind
      ensures Valid() && mark' <= i
      ensures again ==> ok && GivenBack(buf, mark, i, mark', atoms)
      ensures !again ==> if ok then Stepped(buf, mark, i, mark', atoms) else Refused(buf, mark, i, mark')
    {
      ok, again, mark' := true, false, mark;
      ghost var move := Step(boundary, ModeAt(buf, mark, i), buf[i]);
      atoms := if move.To? then move.atoms else [];
      NothingHeld(told);
      NothingHeld(Account(buf, mark, i) + atoms);
      match state
      case SStart => ok := OpeningByte(buf[i]);
      case SStartBoundary => ok := OpeningByte(buf[i]);
      case SHeaderFieldStart => ok, mark' := FieldByte(buf, i, mark);
      case SHeaderField => ok, mark' := FieldByte(buf, i, mark);
      case SHeadersAlmostDone => ok := LineEndByte(buf[i]);
      case SHeaderValueStart => mark' := ValueByteAt(buf, i, mark);
      case SHeaderValue => mark' := ValueByteAt(buf, i, mark);
      case SHeaderValueAlmostDone => ok := LineEndByte(buf[i]);
      case SPartDataStart => mark', atoms := PlainByte(buf, i, mark);
      case SPartData => mark', atoms := PlainByte(buf, i, mark);
      case SPartDataAlmostBoundary => again, mark', atoms := AfterCr(buf, i, mark);
      case SPartDataBoundary => again, mark', atoms := InBoundary(buf, i, mark);
      case SPartDataAlmostEnd => ok := AfterBoundaryByte(buf[i]);
      case SPartDataEnd => ok := AfterBoundaryByte(buf[i]);
      case SPartDataFinalHyphen => ok := AfterBoundaryByte(buf[i]);
      case SEnd =>
    }

    /** With everything before i accounted for, the rest of the buffer completes the whole. */
    ghost predicate OnTrack(whole: Progress, base: seq<Atom>, acc: seq<Atom>, buf: bytes, mark: nat, i: nat)
      requires i <= |buf|
      reads this
    {
      && Account(buf, mark, i) == base + acc + Spill(state, buf, mark, i)
      && whole == Then(i, acc, Run(boundary, ModeAt(buf, mark, i), buf[i..]))
    }

    /** A matched byte waiting for its re-scan. */
    function Suspicion(): nat
      reads this
    {
      if CurrentMode().Data? && CurrentMode().matched > 0 then 1 else 0
    }

    /** One round: the byte is consumed, or refused, or left for a re-scan with the match given up. */
    method Round(buf: bytes, i: nat, mark: nat, ghost whole: Progress, ghost base: seq<Atom>, ghost acc: seq<Atom>)
      returns (ok: bool, again: bool, mark': nat, ghost acc': seq<Atom>)
      requires Valid() && mark <= i < |buf| && OnTrack(whole, base, acc, buf, mark, i)
      modifies this, lookbehind
      ensures Valid() && mark' <= i
      ensures again ==> ok && OnTrack(whole, base, acc', buf, mark', i) && Suspicion() < old(Suspicion())
      ensures !again && ok ==> OnTrack(whole, base, acc', buf, mark', i + 1)
      ensures !again && !ok ==> whole == Progress(i, ModeAt(buf, mark', i), acc) && told == base + acc
    {
      ghost var mode, before := ModeAt(buf, mark, i), Account(buf, mark, i);
      ghost var atoms;
      ok, again, mark', atoms := ScanByte(buf, i, mark);
      acc' := if ok then acc + atoms else acc;
      NothingHeld(base + acc);
      if again {
        TrackGivesBack(boundary, whole, base, acc, mode, buf, i, before, atoms);
      } else if ok {
        TrackSteps(boundary, whole, base, acc, mode, ModeAt(buf, mark', i + 1), buf, i, before, atoms);
      } else {
        RunRejects(boundary, mode, buf, i, acc);
      }
    }

    /**
     multipart_parser_execute: one buffer. The callbacks report what the automaton reports for these bytes
     as one buffer, and the number returned is how many of them were accepted. A re-scan leaves the
     match first, so the loop ends although it steps back.
     */
    method Execute(buf: bytes) returns (n: nat)
      requires Valid()
      modifies this, lookbehind
      ensures Valid()
      ensures var p := Buffer(boundary, old(CurrentMode()), buf);
              n == p.consumed && CurrentMode() == Bare(p.mode) && told == old(told) + p.atoms
    {
      var i: nat, mark: nat := 0, 0;
      ghost var base, whole := told, Run(boundary, CurrentMode(), buf);
      ghost var acc: seq<Atom> := [];
      NothingHeld(told);
      NothingBefore(whole, buf);
      while i < |buf|
        invariant Valid() && mark <= i <= |buf|
        invariant OnTrack(whole, base, acc, buf, mark, i)
        decreases |buf| - i, Suspicion()
      {
        var ok, again, mark';
        ok, again, mark', acc := Round(buf, i, mark, whole, base, acc);
        if !ok { return i; }
        mark := mark';
        if !again { i := i + 1; }
      }
      assert buf[i..] == [];
      NothingHeld(acc);
      NothingHeld(base + acc);
      Regroup(base, acc, Spill(state, buf, mark, i));
      n := |buf|;
    }
  }

  /** A byte that breaks a match under way. */
  predicate Mismatch(b: bytes, mode: Mode, c: byte) {
    mode.Data? && 0 < mode.matched < |Delim(b)| && c != Delim(b)[mode.matched]
  }

  lemma DelimParts(b: bytes)
    ensures var d := Delim(b);
            |d| == |b| + 2 && d[0] == CR && d[1] == LF && d[..1] == [CR] && d[..2] == [CR, LF] && d[..0] == []
            && forall k :: 0 <= k < |b| ==> d[2 + k] == b[k]
  {
  }

  lemma DelimGrows(b: bytes, k: nat)
    requires k < |b|
    ensures Delim(b)[..3 + k] == Delim(b)[..2 + k] + [b[k]]
  {
  }

  lemma MatchStep(b: bytes, m: nat, c: byte)
    requires 0 < m < |Delim(b)| && c == Delim(b)[m]
    ensures Step(b, Data(m), c) == if m + 1 == |Delim(b)| then To(AlmostEnd, [EndOfPart]) else To(Data(m + 1), [])
  {
  }

  lemma NothingHeld(told: seq<Atom>)
    ensures told + [] == told && DataBytes([]) == []
  {
  }

  lemma PlainData(b: bytes, c: byte)
    requires b != []
    ensures Step(b, Data(0), c) == if c == CR then To(Data(1), []) else To(Data(0), [DataByte(c)])
  {
    assert Delim(b)[..0] + [c] == [c];
    assert DataBytes([c]) == [DataByte(c)];
  }

  lemma PlainSteps(b: bytes, c: byte)
    requires b != []
    ensures var mode := if c == CR then Data(1) else Data(0);
            var rest: seq<Atom> := if c == CR then [] else [DataByte(c)];
            && Step(b, Data(0), c) == To(mode, [] + rest)
            && Step(b, DataStart, c) == To(mode, [Complete] + rest)
  {
    PlainData(b, c);
    assert [] + [DataByte(c)] == [DataByte(c)];
  }

  lemma HoldOneMore(buf: bytes, mark: nat, i: nat, held: bytes, told: seq<Atom>)
    requires mark <= i < |buf| && held == buf[mark..i]
    ensures told + ValueBytes(buf[mark..i + 1]) == told + ValueBytes(held) + [ValueByte(buf[i])]
    ensures told + DataBytes(buf[mark..i + 1]) == told + DataBytes(held) + [DataByte(buf[i])]
    ensures forall x: seq<Atom> :: x + [] == x
  {
    assert buf[mark..i + 1] == held + [buf[i]];
  }

  lemma NothingBefore(p: Progress, buf: bytes)
    ensures p == Then(0, [], p) && buf[0..] == buf
  {
    assert [] + p.atoms == p.atoms;
  }

  lemma TrackSteps(b: bytes, whole: Progress, base: seq<Atom>, acc: seq<Atom>, mode: Mode, next: Mode, buf: bytes, i: nat,
                   before: seq<Atom>, atoms: seq<Atom>)
    requires i < |buf| && Step(b, mode, buf[i]) == To(next, atoms)
    requires before == base + acc && whole == Then(i, acc, Run(b, mode, buf[i..]))
    ensures before + atoms == base + (acc + atoms)
    ensures whole == Then(i + 1, acc + atoms, Run(b, next, buf[i + 1..]))
  {
    assert buf[i..][1..] == buf[i + 1..];
    ThenThen(i, acc, 1, atoms, Run(b, next, buf[i + 1..]));
    Regroup(base, acc, atoms);
  }

  lemma RunRejects(b: bytes, mode: Mode, buf: bytes, i: nat, acc: seq<Atom>)
    requires i < |buf| && Step(b, mode, buf[i]).Reject?
    ensures Then(i, acc, Run(b, mode, buf[i..])) == Progress(i, mode, acc)
  {
    assert acc + [] == acc;
  }

  /** Giving the matched bytes back and scanning the byte again is the automaton's one step. */
  lemma RunGivesBack(b: bytes, mode: Mode, s: bytes, i: nat, acc: seq<Atom>, back: seq<Atom>)
    requires s != [] && Mismatch(b, mode, s[0]) && back == DataBytes(Delim(b)[..mode.matched])
    ensures Then(i, acc, Run(b, mode, s)) == Then(i, acc + back, Run(b, Data(0), s))
  {
    MismatchStep(b, mode.matched, s[0], back);
    var next := Step(b, Data(0), s[0]);
    var rest := Run(b, next.mode, s[1..]);
    assert Run(b, mode, s) == Then(1, back + next.atoms, rest);
    assert Run(b, Data(0), s) == Then(1, next.atoms, rest);
    ThenThen(i, acc, 1, back + next.atoms, rest);
    ThenThen(i, acc + back, 1, next.atoms, rest);
    Regroup(acc, back, next.atoms);
  }

  lemma TrackGivesBack(b: bytes, whole: Progress, base: seq<Atom>, acc: seq<Atom>, mode: Mode, buf: bytes, i: nat,
                       before: seq<Atom>, back: seq<Atom>)
    requires i < |buf| && Mismatch(b, mode, buf[i]) && back == DataBytes(Delim(b)[..mode.matched])
    requires before == base + acc && whole == Then(i, acc, Run(b, mode, buf[i..]))
    ensures before + back == base + (acc + back)
    ensures whole == Then(i, acc + back, Run(b, Data(0), buf[i..]))
  {
    RunGivesBack(b, mode, buf[i..], i, acc, back);
    Regroup(base, acc, back);
  }

  lemma MismatchStep(b: bytes, m: nat, c: byte, back: seq<Atom>)
    requires 0 < m < |Delim(b)| && c != Delim(b)[m] && back == DataBytes(Delim(b)[..m])
    ensures Step(b, Data(0), c).To?
    ensures Step(b, Data(m), c) == To(Step(b, Data(0), c).mode, back + Step(b, Data(0), c).atoms)
  {
    var d := Delim(b);
    assert d[..0] + [c] == [c] && d[..0] == [];
    assert DataBytes([]) == [] && back + [] == back;
    assert DataBytes(d[..m] + [c]) == back + DataBytes([c]);
  }

  /** Whatever the cuts, the callbacks report what the automaton reports for these buffers; after a refusal nothing more is parsed. */
  method ParseBody(boundary: bytes, chunks: seq<bytes>) returns (p: Parser, accepted: bool)
    requires boundary != []
    ensures fresh(p) && p.Valid() && p.boundary == boundary
    ensures var whole := Buffers(boundary, chunks);
            && p.told == whole.atoms && p.CurrentMode() == Bare(whole.mode)
            && (accepted <==> whole.consumed == |Joined(chunks)|)
  {
    p := new Parser(boundary);
    accepted := true;
    for k := 0 to |chunks|
      invariant fresh(p) && fresh(p.lookbehind) && p.Valid() && p.boundary == boundary
      invariant var sofar := Buffers(boundary, chunks[..k]);
                && p.told == sofar.atoms && p.CurrentMode() == Bare(sofar.mode)
                && (accepted ==> p.CurrentMode() == sofar.mode)
                && sofar.consumed <= |Joined(chunks[..k])|
                && (accepted <==> sofar.consumed == |Joined(chunks[..k])|)
    {
      assert chunks[..k + 1] == chunks[..k] + [chunks[k]];
      BuffersSnoc(boundary, chunks[..k], chunks[k], Buffers(boundary, chunks[..k]));
      RunApp(boundary, p.CurrentMode(), chunks[k], []);
      if accepted {
        var n := p.Execute(chunks[k]);
        accepted := n == |chunks[k]|;
      }
    }
    assert chunks[..|chunks|] == chunks;
  }

  /** Bodies whose begun header names all reach their colons are reported alike whatever the cuts. */
  method ParseAnyCuts(boundary: bytes, body: bytes, chunks: seq<bytes>) returns (p: Parser, accepted: bool)
    requires boundary != [] && Joined(chunks) == body && !DropsName(boundary, Opening(0), body)
    ensures fresh(p) && p.told == Buffer(boundary, Opening(0), body).atoms
    ensures accepted <==> Run(boundary, Opening(0), body).consumed == |body|
  {
    CutsDoNotMatter(boundary, chunks);
    p, accepted := ParseBody(boundary, chunks);
  }
}
