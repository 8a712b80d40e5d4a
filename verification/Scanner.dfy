/**
 The command scanner: a byte automaton that reads a formatted command, checks its shape against the
 verb's argument class and records where its keys lie. The byte automaton is shown to do, on every
 formatted command, what a much simpler automaton does on the list of arguments.
 */
module Scanner {
  import opened Bytes
  import opened Format
  import Resp

  const WRAP: int := 0x1_0000_0000

  /** The argument classes: no key, a fixed number of arguments, any number, keys, pairs, sub-command, script. */
  datatype Arity = ArgZ | Arg0 | Arg1 | Arg2 | Arg3 | ArgN | ArgX | ArgKvx | ArgSub | ArgEval

  /** A recognised verb by its lower-case name. */
  datatype Verb = Verb(name: string, arity: Arity)

  type VerbTable = bytes -> Option<Verb>

  datatype KeyPos = KeyPos(start: nat, end: nat)

  /** Which argument is being read, and how far. */
  datatype Slot = TypeSlot | KeySlot | Arg1Slot | Arg2Slot | Arg3Slot | ArgNSlot
  datatype Phase = Len | LenLf | Body | BodyLf
  datatype State = Narg | NargLf | Field(slot: Slot, phase: Phase)

  datatype Scan = Scan(state: State, p: nat, token: Option<nat>, rlen: nat, rnarg: nat,
                       narg: nat, verb: Option<Verb>, keys: seq<KeyPos>)

  datatype Verdict = Parsed(verb: Option<Verb>, narg: nat, keys: seq<KeyPos>) | ParseError

  datatype Outcome = Next(scan: Scan) | Stop(result: Verdict)

  datatype Route = Goto(slot: Slot) | Complete | Illegal

  // ----- the automaton -----

  /** What follows a complete argument, by the number of arguments left and, for pairs, the total. */
  function AfterSlot(slot: Slot, a: Arity, left: nat, narg: nat): Route {
    match slot
    case TypeSlot =>
      if a.ArgZ? then Complete else if a.ArgEval? || a.ArgSub? then Goto(Arg1Slot) else Goto(KeySlot)
    case KeySlot =>
      (match a
       case Arg0 => if left != 0 then Illegal else Complete
       case Arg1 => if left != 1 then Illegal else Goto(Arg1Slot)
       case Arg2 => if left != 2 then Illegal else Goto(Arg1Slot)
       case Arg3 => if left != 3 then Illegal else Goto(Arg1Slot)
       case ArgN => if left == 0 then Complete else Goto(Arg1Slot)
       case ArgX => if left == 0 then Complete else Goto(KeySlot)
       case ArgKvx => if left == 0 then Complete else if narg % 2 == 0 then Illegal else Goto(Arg1Slot)
       case ArgEval => if left == 0 then Complete else Goto(ArgNSlot)
       case ArgSub => if left == 0 then Complete else Goto(ArgNSlot)
       case ArgZ => Illegal)
    case Arg1Slot =>
      (match a
       case Arg1 => if left != 0 then Illegal else Complete
       case Arg2 => if left != 1 then Illegal else Goto(Arg2Slot)
       case Arg3 => if left != 2 then Illegal else Goto(Arg2Slot)
       case ArgN => if left == 0 then Complete else Goto(ArgNSlot)
       case ArgEval => if left < 2 then Illegal else Goto(Arg2Slot)
       case ArgSub => if left < 1 then Illegal else Goto(KeySlot)
       case ArgKvx => if left == 0 then Complete else Goto(KeySlot)
       case _ => Illegal)
    case Arg2Slot =>
      (match a
       case Arg2 => if left != 0 then Illegal else Complete
       case Arg3 => if left != 1 then Illegal else Goto(Arg3Slot)
       case ArgN => if left == 0 then Complete else Goto(ArgNSlot)
       case ArgEval => if left < 1 then Illegal else Goto(KeySlot)
       case _ => Illegal)
    case Arg3Slot =>
      (match a
       case Arg3 => if left != 0 then Illegal else Complete
       case ArgN => if left == 0 then Complete else Goto(ArgNSlot)
       case _ => Illegal)
    case ArgNSlot =>
      if a.ArgN? || a.ArgEval? || a.ArgSub? then (if left == 0 then Complete else Goto(ArgNSlot)) else Illegal
  }

  function Accumulate(n: nat, b: byte): nat
    requires IsDigit(b)
  {
    (n * 10 + (b - 48)) % WRAP
  }

  /** The number of keys a script announces, with 32-bit wrap-around. */
  function WrappedValue(s: bytes): nat
    requires AllDigits(s)
  {
    if s == [] then 0 else Accumulate(WrappedValue(s[..|s| - 1]), s[|s| - 1])
  }

  /** The verdict on an argument's content: the verb must be known, a script's key count a positive number. */
  datatype Check = Refuse | Accept(verb: Option<Verb>)

  function CheckBody(verbs: VerbTable, verb: Option<Verb>, slot: Slot, body: bytes): Check {
    match slot
    case TypeSlot => if verbs(body).None? then Refuse else Accept(verbs(body))
    case Arg2Slot =>
      if verb.Some? && verb.value.arity.ArgEval? && !(body != [] && AllDigits(body) && WrappedValue(body) != 0)
      then Refuse else Accept(verb)
    case _ => Accept(verb)
  }

  /** "*", digits, CR. */
  function StepCount(s: Scan, ch: byte): Outcome {
    if s.token.None? then
      if ch != 42 then Stop(ParseError) else Next(s.(token := Some(s.p), rnarg := 0, p := s.p + 1))
    else if IsDigit(ch) then Next(s.(rnarg := Accumulate(s.rnarg, ch), p := s.p + 1))
    else if ch == CR && s.rnarg != 0 then
      Next(s.(narg := s.rnarg, token := None, state := NargLf, p := s.p + 1))
    else Stop(ParseError)
  }

  /** "$", digits, CR. */
  function StepLength(s: Scan, slot: Slot, ch: byte): Outcome {
    if s.token.None? then
      if ch != 36 then Stop(ParseError) else Next(s.(token := Some(s.p), rlen := 0, p := s.p + 1))
    else if IsDigit(ch) then Next(s.(rlen := Accumulate(s.rlen, ch), p := s.p + 1))
    else if ch == CR && s.rnarg != 0 && LengthOk(s, slot) then
      Next(s.(rnarg := s.rnarg - 1, token := None, state := Field(slot, LenLf), p := s.p + 1))
    else Stop(ParseError)
  }

  function StepLf(s: Scan, next: State, ch: byte): Outcome {
    if ch == LF then Next(s.(state := next, p := s.p + 1)) else Stop(ParseError)
  }

  /** The argument's bytes, skipped by their length; the token is always unset on entry, so they start here. */
  function StepBody(verbs: VerbTable, cmd: bytes, s: Scan, slot: Slot): Outcome
    requires s.p < |cmd|
  {
    var m := s.p + s.rlen;
    if m >= |cmd| || cmd[m] != CR then Stop(ParseError)
    else match CheckBody(verbs, s.verb, slot, cmd[s.p..m])
      case Refuse => Stop(ParseError)
      case Accept(verb) =>
        Next(Scan(Field(slot, BodyLf), m + 1, None, 0, s.rnarg, s.narg, verb,
                  if slot.KeySlot? then s.keys + [KeyPos(s.p, m)] else s.keys))
  }

  /** The LF after an argument: what its place in the command allows next. */
  function StepTrailer(s: Scan, slot: Slot, ch: byte): Outcome {
    if ch != LF || s.verb.None? then Stop(ParseError)
    else match AfterSlot(slot, s.verb.value.arity, s.rnarg, s.narg)
      case Goto(next) => Next(s.(state := Field(next, Len), p := s.p + 1))
      case Complete => Stop(Parsed(s.verb, s.narg, s.keys))
      case Illegal => Stop(ParseError)
  }

  /** One round of the scanning loop. */
  function Step(verbs: VerbTable, cmd: bytes, s: Scan): (o: Outcome)
    requires s.p < |cmd|
    ensures o.Next? ==> s.p < o.scan.p <= |cmd|
  {
    match s.state
    case Narg => StepCount(s, cmd[s.p])
    case NargLf => StepLf(s, Field(TypeSlot, Len), cmd[s.p])
    case Field(slot, phase) =>
      match phase
      case Len => StepLength(s, slot, cmd[s.p])
      case LenLf => StepLf(s, Field(slot, Body), cmd[s.p])
      case Body => StepBody(verbs, cmd, s, slot)
      case BodyLf => StepTrailer(s, slot, cmd[s.p])
  }

  /** A length line needs a non-zero length for the verb, any length for a key, and a digit for the others. */
  predicate LengthOk(s: Scan, slot: Slot) {
    match slot
    case TypeSlot => s.rlen != 0
    case KeySlot => true
    case _ => s.token.Some? && s.p - s.token.value > 1
  }

  /** The loop from a given position on; input that runs out leaves the initial verdict "parsed". */
  function Run(verbs: VerbTable, cmd: bytes, s: Scan): Verdict
    requires s.p <= |cmd|
    decreases |cmd| - s.p
  {
    if s.p == |cmd| then Parsed(s.verb, s.narg, s.keys)
    else match Step(verbs, cmd, s)
      case Next(t) => Run(verbs, cmd, t)
      case Stop(r) => r
  }

  const START: Scan := Scan(Narg, 0, None, 0, 0, 0, None, [])

  /** redis_parse_cmd. */
  method ScanCommand(verbs: VerbTable, cmd: bytes) returns (r: Verdict)
    ensures r == Run(verbs, cmd, START)
  {
    var s := START;
    while s.p < |cmd|
      invariant s.p <= |cmd| && Run(verbs, cmd, s) == Run(verbs, cmd, START)
      decreases |cmd| - s.p
    {
      match Step(verbs, cmd, s)
      case Next(t) => s := t;
      case Stop(result) => return result;
    }
    return Parsed(s.verb, s.narg, s.keys);
  }

  // ----- the automaton on arguments -----

  /** Where argument i's bytes lie in the formatted command. */
  function Span(argv: seq<bytes>, i: nat): KeyPos
    requires i < |argv|
  {
    var start := ArgStart(argv, i) + 1 + |Decimal(|argv[i]|)| + 2;
    KeyPos(start, start + |argv[i]|)
  }

  function ArgStart(argv: seq<bytes>, i: nat): nat
    requires i <= |argv|
  {
    |FormatHeader(|argv|)| + |FormatArgs(argv[..i])|
  }

  /** Reading arguments i, i+1, ... with argument i going to the given slot. */
  function ScanArgs(verbs: VerbTable, argv: seq<bytes>, i: nat, slot: Slot, verb: Option<Verb>, keys: seq<KeyPos>): Verdict
    requires i <= |argv|
    decreases |argv| - i
  {
    if i == |argv| then Parsed(verb, |argv|, keys)
    else if slot.TypeSlot? && argv[i] == [] then ParseError
    else
      match CheckBody(verbs, verb, slot, argv[i])
      case Refuse => ParseError
      case Accept(v) =>
        var keys' := if slot.KeySlot? then keys + [Span(argv, i)] else keys;
        if v.None? then ParseError
        else match AfterSlot(slot, v.value.arity, |argv| - i - 1, |argv|)
          case Goto(next) => ScanArgs(verbs, argv, i + 1, next, v, keys')
          case Complete => Parsed(v, |argv|, keys')
          case Illegal => ParseError
  }

  // ----- bytes refine arguments -----

  /** The digits of a length or count, read from a known position. */
  ghost predicate DigitsAt(cmd: bytes, at: nat, digits: bytes) {
    at + |digits| <= |cmd| && cmd[at..at + |digits|] == digits
  }

  /** A digit string that stands for a number the 32-bit counters can hold. */
  ghost predicate Denotes(digits: bytes, n: nat) {
    digits != [] && AllDigits(digits) && Value(digits) == n < WRAP
  }

  lemma NextDigit(cmd: bytes, at: nat, digits: bytes, n: nat, k: nat)
    requires DigitsAt(cmd, at, digits) && Denotes(digits, n) && k < |digits|
    ensures cmd[at + k] == digits[k] && IsDigit(digits[k])
    ensures Accumulate(Value(digits[..k]), digits[k]) == Value(digits[..k + 1])
  {
    assert cmd[at + k] == cmd[at..at + |digits|][k];
    ValueStep(digits, k);
    ValueGrows(digits, k + 1);
  }

  lemma {:induction false} ReadLength(verbs: VerbTable, cmd: bytes, s: Scan, at: nat, digits: bytes, n: nat, k: nat)
    requires DigitsAt(cmd, at, digits) && Denotes(digits, n) && k <= |digits| && s.state.Field? && s.state.phase.Len?
    requires s.token.Some? && s.p == at + k && s.rlen == Value(digits[..k])
    ensures Run(verbs, cmd, s) == Run(verbs, cmd, s.(p := at + |digits|, rlen := n))
    decreases |digits| - k
  {
    if k == |digits| {
      assert digits[..k] == digits;
    } else {
      NextDigit(cmd, at, digits, n, k);
      var t := s.(p := s.p + 1, rlen := Value(digits[..k + 1]));
      assert Step(verbs, cmd, s) == Next(t);
      ReadLength(verbs, cmd, t, at, digits, n, k + 1);
    }
  }

  lemma {:induction false} ReadCount(verbs: VerbTable, cmd: bytes, s: Scan, at: nat, digits: bytes, n: nat, k: nat)
    requires DigitsAt(cmd, at, digits) && Denotes(digits, n) && k <= |digits| && s.state.Narg?
    requires s.token.Some? && s.p == at + k && s.rnarg == Value(digits[..k])
    ensures Run(verbs, cmd, s) == Run(verbs, cmd, s.(p := at + |digits|, rnarg := n))
    decreases |digits| - k
  {
    if k == |digits| {
      assert digits[..k] == digits;
    } else {
      NextDigit(cmd, at, digits, n, k);
      var t := s.(p := s.p + 1, rnarg := Value(digits[..k + 1]));
      assert Step(verbs, cmd, s) == Next(t);
      ReadCount(verbs, cmd, t, at, digits, n, k + 1);
    }
  }

  /** Where the parts of one formatted argument lie. */
  ghost predicate ArgAt(cmd: bytes, at: nat, digits: bytes, arg: bytes) {
    && at + 5 + |digits| + |arg| <= |cmd|
    && cmd[at] == 36 && DigitsAt(cmd, at + 1, digits)
    && var b := at + 1 + |digits|;
       && cmd[b] == CR && cmd[b + 1] == LF
       && cmd[b + 2..b + 2 + |arg|] == arg
       && cmd[b + 2 + |arg|] == CR && cmd[b + 3 + |arg|] == LF
  }

  /** The "$<len>CRLF" of an argument, from the slot's first byte to the argument's. */
  lemma ReadArgHeader(verbs: VerbTable, cmd: bytes, s: Scan, digits: bytes, arg: bytes)
    requires s.p < |cmd| && s.state.Field? && s.state.phase.Len? && s.token.None? && s.rnarg > 0
    requires ArgAt(cmd, s.p, digits, arg) && Denotes(digits, |arg|) && (s.state.slot.TypeSlot? ==> arg != [])
    ensures Run(verbs, cmd, s)
         == Run(verbs, cmd, s.(state := Field(s.state.slot, Body), p := s.p + 3 + |digits|, rlen := |arg|, rnarg := s.rnarg - 1))
  {
    var at, slot := s.p, s.state.slot;
    var s1 := s.(token := Some(at), rlen := 0, p := at + 1);
    assert digits[..0] == [];
    ReadLength(verbs, cmd, s1, at + 1, digits, |arg|, 0);
    var s2 := s1.(p := at + 1 + |digits|, rlen := |arg|);
    var s3 := s2.(rnarg := s.rnarg - 1, token := None, state := Field(slot, LenLf), p := s2.p + 1);
    assert Step(verbs, cmd, s2) == Next(s3);
    assert Step(verbs, cmd, s3) == Next(s3.(state := Field(slot, Body), p := s3.p + 1));
  }

  /** What one whole argument leads to: content check, key recording, and what its place in the command allows next. */
  function AfterArg(verbs: VerbTable, cmd: bytes, s: Scan, start: nat, arg: bytes): Verdict
    requires s.state.Field? && s.rnarg > 0 && start + |arg| + 2 <= |cmd|
  {
    match CheckBody(verbs, s.verb, s.state.slot, arg)
    case Refuse => ParseError
    case Accept(v) =>
      var keys := if s.state.slot.KeySlot? then s.keys + [KeyPos(start, start + |arg|)] else s.keys;
      if v.None? then ParseError
      else match AfterSlot(s.state.slot, v.value.arity, s.rnarg - 1, s.narg)
        case Goto(next) =>
          Run(verbs, cmd, Scan(Field(next, Len), start + |arg| + 2, None, 0, s.rnarg - 1, s.narg, v, keys))
        case Complete => Parsed(v, s.narg, keys)
        case Illegal => ParseError
  }

  /** The argument's bytes: skipped by their length, with the CR after them checked. */
  lemma ReadBody(verbs: VerbTable, cmd: bytes, b: Scan, slot: Slot, arg: bytes)
    requires b.state == Field(slot, Body) && b.token.None? && b.rlen == |arg|
    requires b.p + |arg| + 2 <= |cmd| && cmd[b.p..b.p + |arg|] == arg && cmd[b.p + |arg|] == CR
    ensures var m, c := b.p + |arg|, CheckBody(verbs, b.verb, slot, arg);
            Run(verbs, cmd, b) ==
              if c.Refuse? then ParseError
              else Run(verbs, cmd, Scan(Field(slot, BodyLf), m + 1, None, 0, b.rnarg, b.narg, c.verb,
                                        if slot.KeySlot? then b.keys + [KeyPos(b.p, m)] else b.keys))
  {
  }

  lemma ReadTrailer(verbs: VerbTable, cmd: bytes, s: Scan, slot: Slot)
    requires s.state == Field(slot, BodyLf) && s.token.None? && s.rlen == 0 && s.p < |cmd| && cmd[s.p] == LF
    ensures Run(verbs, cmd, s) ==
              if s.verb.None? then ParseError
              else match AfterSlot(slot, s.verb.value.arity, s.rnarg, s.narg)
                case Goto(next) => Run(verbs, cmd, s.(state := Field(next, Len), p := s.p + 1))
                case Complete => Parsed(s.verb, s.narg, s.keys)
                case Illegal => ParseError
  {
  }

  lemma ReadRest(verbs: VerbTable, cmd: bytes, s: Scan, start: nat, arg: bytes)
    requires s.state.Field? && s.rnarg > 0 && start + |arg| + 2 <= |cmd|
    requires cmd[start..start + |arg|] == arg && cmd[start + |arg|] == CR && cmd[start + |arg| + 1] == LF
    ensures Run(verbs, cmd, Scan(Field(s.state.slot, Body), start, None, |arg|, s.rnarg - 1, s.narg, s.verb, s.keys))
         == AfterArg(verbs, cmd, s, start, arg)
  {
    var slot, m, c := s.state.slot, start + |arg|, CheckBody(verbs, s.verb, s.state.slot, arg);
    ReadBody(verbs, cmd, Scan(Field(slot, Body), start, None, |arg|, s.rnarg - 1, s.narg, s.verb, s.keys), slot, arg);
    if c.Accept? {
      var keys := if slot.KeySlot? then s.keys + [KeyPos(start, m)] else s.keys;
      ReadTrailer(verbs, cmd, Scan(Field(slot, BodyLf), m + 1, None, 0, s.rnarg - 1, s.narg, c.verb, keys), slot);
    }
  }

  lemma ReadArg(verbs: VerbTable, cmd: bytes, s: Scan, digits: bytes, arg: bytes)
    requires s.p < |cmd| && s.state.Field? && s.state.phase.Len? && s.token.None? && s.rnarg > 0
    requires ArgAt(cmd, s.p, digits, arg) && Denotes(digits, |arg|) && (s.state.slot.TypeSlot? ==> arg != [])
    ensures Run(verbs, cmd, s) == AfterArg(verbs, cmd, s, s.p + 3 + |digits|, arg)
  {
    ReadArgHeader(verbs, cmd, s, digits, arg);
    ReadRest(verbs, cmd, s, s.p + 3 + |digits|, arg);
  }

  /** A formatted argument in its place. */
  lemma PlaceArg(cmd: bytes, before: bytes, digits: bytes, arg: bytes, rest: bytes)
    requires cmd == before + ([36] + digits + CRLF + arg + CRLF) + rest
    ensures ArgAt(cmd, |before|, digits, arg)
  {
    var at, b := |before|, |before| + 1 + |digits|;
    assert cmd[at + 1..at + 1 + |digits|] == digits;
    assert cmd[b + 2..b + 2 + |arg|] == arg;
  }

  /** Commands that fit the scanner's 32-bit counters. */
  predicate Fits(argv: seq<bytes>) {
    |argv| < WRAP && forall i :: 0 <= i < |argv| ==> |argv[i]| < WRAP
  }

  ghost function Before(argv: seq<bytes>, i: nat): bytes
    requires i <= |argv|
  {
    FormatHeader(|argv|) + FormatArgs(argv[..i])
  }

  lemma CommandAround(argv: seq<bytes>, i: nat)
    requires i < |argv|
    ensures FormatCommand(argv) == Before(argv, i) + FormatArg(argv[i]) + Resp.EncodeAll(Bulks(argv)[i + 1..])
    ensures |Before(argv, i)| == ArgStart(argv, i) && ArgStart(argv, i + 1) == Span(argv, i).end + 2
  {
    ArgsAreBulks(argv, i + 1);
    ArgsLength(argv, i);
    var rest := Resp.EncodeAll(Bulks(argv)[i + 1..]);
    assert FormatArgs(argv) == FormatArgs(argv[..i]) + FormatArg(argv[i]) + rest;
    Regroup4(FormatHeader(|argv|), FormatArgs(argv[..i]), FormatArg(argv[i]), rest);
  }

  lemma ArgInCommand(argv: seq<bytes>, i: nat)
    requires i < |argv|
    ensures ArgAt(FormatCommand(argv), ArgStart(argv, i), Decimal(|argv[i]|), argv[i])
    ensures ArgStart(argv, i + 1) == Span(argv, i).end + 2
  {
    CommandAround(argv, i);
    var cmd, before, rest := FormatCommand(argv), Before(argv, i), Resp.EncodeAll(Bulks(argv)[i + 1..]);
    PlaceFormatted(cmd, before, argv[i], rest, ArgStart(argv, i), Decimal(|argv[i]|));
  }

  lemma PlaceFormatted(cmd: bytes, before: bytes, arg: bytes, rest: bytes, at: nat, digits: bytes)
    requires cmd == before + FormatArg(arg) + rest && at == |before| && digits == Decimal(|arg|)
    ensures ArgAt(cmd, at, digits, arg)
  {
    PlaceArg(cmd, before, digits, arg, rest);
  }

  /** The scanner about to read argument i. */
  function AtArg(argv: seq<bytes>, i: nat, slot: Slot, verb: Option<Verb>, keys: seq<KeyPos>): Scan
    requires i <= |argv|
  {
    Scan(Field(slot, Len), ArgStart(argv, i), None, 0, |argv| - i, |argv|, verb, keys)
  }

  lemma ArgStartInside(argv: seq<bytes>, i: nat)
    requires i <= |argv|
    ensures ArgStart(argv, i) <= |FormatCommand(argv)|
    ensures i == |argv| ==> ArgStart(argv, i) == |FormatCommand(argv)|
  {
    ArgsGrow(argv, i);
    assert argv[..|argv|] == argv;
  }

  /** Reading an argument as the byte automaton does, with the span it takes. */
  lemma ArgStep(verbs: VerbTable, cmd: bytes, s: Scan, digits: bytes, arg: bytes, span: KeyPos)
    requires s.p < |cmd| && s.state.Field? && s.state.phase.Len? && s.token.None? && s.rnarg > 0
    requires ArgAt(cmd, s.p, digits, arg) && Denotes(digits, |arg|) && (s.state.slot.TypeSlot? ==> arg != [])
    requires span.start == s.p + 3 + |digits| && span.end == span.start + |arg|
    ensures span.end + 2 <= |cmd|
    ensures Run(verbs, cmd, s) == AfterArg(verbs, cmd, s, span.start, arg)
  {
    ReadArg(verbs, cmd, s, digits, arg);
  }

  lemma ArgDigits(argv: seq<bytes>, i: nat)
    requires Fits(argv) && i < |argv|
    ensures Denotes(Decimal(|argv[i]|), |argv[i]|)
  {
    ValueOfDecimal(|argv[i]|);
  }

  /** At the start of argument i the byte automaton and the argument automaton reach the same verdict. */
  ghost predicate Agrees(verbs: VerbTable, argv: seq<bytes>, cmd: bytes, i: nat, slot: Slot,
                         verb: Option<Verb>, keys: seq<KeyPos>)
  {
    && i <= |argv| && ArgStart(argv, i) <= |cmd|
    && Run(verbs, cmd, AtArg(argv, i, slot, verb, keys)) == ScanArgs(verbs, argv, i, slot, verb, keys)
  }

  lemma {:induction false} RunArgs(verbs: VerbTable, argv: seq<bytes>, cmd: bytes, i: nat, slot: Slot,
                                   verb: Option<Verb>, keys: seq<KeyPos>)
    requires Fits(argv) && i <= |argv| && cmd == FormatCommand(argv)
    ensures Agrees(verbs, argv, cmd, i, slot, verb, keys)
    decreases |argv| - i
  {
    ArgStartInside(argv, i);
    if i < |argv| {
      ArgInCommand(argv, i);
      ArgDigits(argv, i);
      if slot.TypeSlot? && argv[i] == [] {
        EmptyVerb(verbs, cmd, AtArg(argv, i, slot, verb, keys), Decimal(0));
      } else {
        ArgStep(verbs, cmd, AtArg(argv, i, slot, verb, keys), Decimal(|argv[i]|), argv[i], Span(argv, i));
        var n := i + 1;
        forall next, v, k ensures Agrees(verbs, argv, cmd, n, next, v, k) {
          RunArgs(verbs, argv, cmd, n, next, v, k);
        }
        AfterArgMatches(verbs, argv, cmd, i, n, slot, verb, keys);
      }
    }
  }

  lemma AfterArgMatches(verbs: VerbTable, argv: seq<bytes>, cmd: bytes, i: nat, n: nat, slot: Slot,
                        verb: Option<Verb>, keys: seq<KeyPos>)
    requires i < |argv| && n == i + 1 && !(slot.TypeSlot? && argv[i] == [])
    requires ArgStart(argv, n) == Span(argv, i).end + 2 <= |cmd|
    requires forall next, v, k :: Agrees(verbs, argv, cmd, n, next, v, k)
    ensures AfterArg(verbs, cmd, AtArg(argv, i, slot, verb, keys), Span(argv, i).start, argv[i])
         == ScanArgs(verbs, argv, i, slot, verb, keys)
  {
    var c := CheckBody(verbs, verb, slot, argv[i]);
    if c.Accept? && c.verb.Some? {
      var route := AfterSlot(slot, c.verb.value.arity, |argv| - i - 1, |argv|);
      if route.Goto? {
        var keys' := if slot.KeySlot? then keys + [Span(argv, i)] else keys;
        assert Agrees(verbs, argv, cmd, n, route.slot, c.verb, keys');
      }
    }
  }

  lemma EmptyVerb(verbs: VerbTable, cmd: bytes, s: Scan, digits: bytes)
    requires s.p < |cmd| && s.state == Field(TypeSlot, Len) && s.token.None?
    requires ArgAt(cmd, s.p, digits, []) && Denotes(digits, 0)
    ensures Run(verbs, cmd, s) == ParseError
  {
    var s1 := s.(token := Some(s.p), rlen := 0, p := s.p + 1);
    assert digits[..0] == [];
    ReadLength(verbs, cmd, s1, s.p + 1, digits, 0, 0);
    assert Step(verbs, cmd, s1.(p := s1.p + |digits|, rlen := 0)) == Stop(ParseError);
  }

  lemma PlaceCount(cmd: bytes, digits: bytes, rest: bytes)
    requires cmd == [42] + digits + CRLF + rest
    ensures 3 + |digits| <= |cmd| && cmd[0] == 42 && cmd[1..1 + |digits|] == digits
    ensures cmd[1 + |digits|] == CR && cmd[2 + |digits|] == LF
  {
  }

  /** Reading "*<argc>CRLF". */
  lemma RunHeader(verbs: VerbTable, cmd: bytes, digits: bytes, n: nat, rest: bytes)
    requires cmd == [42] + digits + CRLF + rest && Denotes(digits, n)
    ensures Run(verbs, cmd, START) ==
              if n == 0 then ParseError
              else Run(verbs, cmd, Scan(Field(TypeSlot, Len), 3 + |digits|, None, 0, n, n, None, []))
  {
    PlaceCount(cmd, digits, rest);
    var s1 := START.(token := Some(0), p := 1);
    assert Step(verbs, cmd, START) == Next(s1);
    assert digits[..0] == [];
    ReadCount(verbs, cmd, s1, 1, digits, n, 0);
    var s2 := s1.(p := 1 + |digits|, rnarg := n);
    if n != 0 {
      var s3 := s2.(narg := n, token := None, state := NargLf, p := 2 + |digits|);
      assert Step(verbs, cmd, s2) == Next(s3);
      assert Step(verbs, cmd, s3) == Next(s3.(state := Field(TypeSlot, Len), p := 3 + |digits|));
    }
  }

  /** On every formatted command the byte automaton agrees with the argument automaton. */
  lemma ScanRefinesArgs(verbs: VerbTable, argv: seq<bytes>)
    requires Fits(argv)
    ensures Run(verbs, FormatCommand(argv), START)
         == if argv == [] then ParseError else ScanArgs(verbs, argv, 0, TypeSlot, None, [])
  {
    ValueOfDecimal(|argv|);
    RunHeader(verbs, FormatCommand(argv), Decimal(|argv|), |argv|, FormatArgs(argv));
    assert FormatArgs(argv[..0]) == [];
    RunArgs(verbs, argv, FormatCommand(argv), 0, TypeSlot, None, []);
  }
}
