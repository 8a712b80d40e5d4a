/** The command formatter: argument lists as arrays of bulk strings, built in a buffer of pre-computed length. */
module Format {
  import opened Bytes
  import opened Integers
  import opened Resp

  /** "$<len>CRLF<arg>CRLF". */
  function FormatArg(arg: bytes): bytes { [36] + Decimal(|arg|) + CRLF + arg + CRLF }

  function FormatArgs(args: seq<bytes>): bytes {
    if args == [] then [] else FormatArgs(args[..|args| - 1]) + FormatArg(args[|args| - 1])
  }

  /** "*<argc>CRLF". */
  function FormatHeader(argc: nat): bytes { [42] + Decimal(argc) + CRLF }

  /** A command as it goes over the wire. */
  function FormatCommand(argv: seq<bytes>): bytes { FormatHeader(|argv|) + FormatArgs(argv) }

  /** bulklen: the bytes one argument takes. */
  method BulkLen(len: nat) returns (n: nat)
    ensures n == 5 + |Decimal(len)| + len
  {
    var digits := CountDigits(len);
    n := 1 + digits + 2 + len + 2;
  }

  /** memcpy of a text at an offset. */
  method Put(cmd: array<byte>, pos: nat, s: bytes) returns (next: nat)
    requires pos + |s| <= cmd.Length
    modifies cmd
    ensures next == pos + |s| && cmd[..next] == old(cmd[..pos]) + s
  {
    for i := 0 to |s|
      invariant cmd[..pos + i] == old(cmd[..pos]) + s[..i]
    {
      cmd[pos + i] := s[i];
      assert cmd[..pos + i + 1] == cmd[..pos + i] + [s[i]];
    }
    assert s[..|s|] == s;
    next := pos + |s|;
  }

  lemma ArgsLength(argv: seq<bytes>, j: nat)
    requires j < |argv|
    ensures |FormatArgs(argv[..j + 1])| == |FormatArgs(argv[..j])| + 5 + |Decimal(|argv[j]|)| + |argv[j]|
    ensures FormatArgs(argv[..j + 1]) == FormatArgs(argv[..j]) + FormatArg(argv[j])
  {
    assert argv[..j + 1][..j] == argv[..j];
  }

  /** The first pass of the formatter. */
  method TotalLength(argv: seq<bytes>) returns (totlen: nat)
    ensures totlen == |FormatCommand(argv)|
  {
    var digits := CountDigits(|argv|);
    totlen := 1 + digits + 2;
    for j := 0 to |argv|
      invariant totlen == 3 + |Decimal(|argv|)| + |FormatArgs(argv[..j])|
    {
      ArgsLength(argv, j);
      var n := BulkLen(|argv[j]|);
      totlen := totlen + n;
    }
    assert argv[..|argv|] == argv;
  }

  /** One argument of the second pass. */
  method PutArg(cmd: array<byte>, pos: nat, arg: bytes) returns (next: nat)
    requires pos + |FormatArg(arg)| <= cmd.Length
    modifies cmd
    ensures next == pos + |FormatArg(arg)| && cmd[..next] == old(cmd[..pos]) + FormatArg(arg)
  {
    var header := [36] + Decimal(|arg|) + CRLF;
    ghost var before := cmd[..pos];
    next := Put(cmd, pos, header);
    next := Put(cmd, next, arg);
    next := Put(cmd, next, CRLF);
    assert before + header + arg + CRLF == before + (header + arg + CRLF);
  }

  /** redisFormatCommandArgv: the first pass computes the length, the second fills exactly that many bytes. */
  method FormatCommandArgv(argv: seq<bytes>) returns (cmd: array<byte>, totlen: nat)
    ensures fresh(cmd) && cmd.Length == totlen + 1
    ensures cmd[..totlen] == FormatCommand(argv) && cmd[totlen] == 0
  {
    totlen := TotalLength(argv);
    cmd := new byte[totlen + 1](i => 0);
    var header := FormatHeader(|argv|);
    var pos := Put(cmd, 0, header);
    pos := PutArgs(cmd, pos, header, argv);
    assert pos == totlen;
    cmd[pos] := 0;
    assert cmd[..totlen] == header + FormatArgs(argv);
  }

  /** The loop of the second pass. */
  method PutArgs(cmd: array<byte>, start: nat, ghost header: bytes, argv: seq<bytes>) returns (pos: nat)
    requires start == |header| && start + |FormatArgs(argv)| <= cmd.Length && cmd[..start] == header
    modifies cmd
    ensures pos == start + |FormatArgs(argv)| && cmd[..pos] == header + FormatArgs(argv)
  {
    pos := start;
    assert FormatArgs(argv[..0]) == [];
    for j := 0 to |argv|
      invariant pos == start + |FormatArgs(argv[..j])| <= cmd.Length
      invariant cmd[..pos] == header + FormatArgs(argv[..j])
    {
      ArgsLength(argv, j);
      ArgsGrow(argv, j + 1);
      ghost var args, arg := FormatArgs(argv[..j]), FormatArg(argv[j]);
      pos := PutArg(cmd, pos, argv[j]);
      assert header + args + arg == header + (args + arg);
    }
    assert argv[..|argv|] == argv;
  }

  lemma {:induction false} ArgsGrow(argv: seq<bytes>, j: nat)
    requires j <= |argv|
    ensures |FormatArgs(argv[..j])| <= |FormatArgs(argv)|
    decreases |argv| - j
  {
    if j == |argv| {
      assert argv[..j] == argv;
    } else {
      ArgsLength(argv, j);
      ArgsGrow(argv, j + 1);
    }
  }

  // ----- what a reader makes of it -----

  /** The reply tree whose elements are the arguments. */
  function Bulks(argv: seq<bytes>): (es: seq<Reply>)
    ensures |es| == |argv|
    ensures forall i :: 0 <= i < |argv| ==> es[i] == Text(StringType, argv[i])
  {
    seq(|argv|, i requires 0 <= i < |argv| => Text(StringType, argv[i]))
  }

  lemma EncodeAllStep(es: seq<Reply>, i: nat)
    requires i < |es|
    ensures EncodeAll(es[i..]) == Encode(es[i]) + EncodeAll(es[i + 1..])
  {
    var rest := es[i..];
    assert rest[1..] == es[i + 1..];
  }

  lemma {:induction false} ArgsAreBulks(argv: seq<bytes>, i: nat)
    requires i <= |argv|
    ensures FormatArgs(argv) == FormatArgs(argv[..i]) + EncodeAll(Bulks(argv)[i..])
    decreases |argv| - i
  {
    if i == |argv| {
      assert argv[..i] == argv;
    } else {
      ArgsAreBulks(argv, i + 1);
      ArgsLength(argv, i);
      EncodeAllStep(Bulks(argv), i);
      Regroup(FormatArgs(argv[..i]), FormatArg(argv[i]), EncodeAll(Bulks(argv)[i + 1..]));
    }
  }

  lemma ArgsAreAllBulks(argv: seq<bytes>)
    ensures FormatArgs(argv) == EncodeAll(Bulks(argv))
  {
    ArgsAreBulks(argv, 0);
    assert argv[..0] == [] && Bulks(argv)[0..] == Bulks(argv);
  }

  lemma BulksAreSendable(cfg: Config, argv: seq<bytes>)
    requires forall i :: 0 <= i < |argv| ==> |argv[i]| <= LLONG_MAX
    ensures forall i :: 0 <= i < |argv| ==> Sendable(cfg, Bulks(argv)[i])
  {
  }

  /** Reading a formatted command gives an array of exactly its arguments, whatever bytes they contain. */
  lemma ReadFormatted(cfg: Config, argv: seq<bytes>, rest: bytes)
    requires |argv| <= LLONG_MAX && (cfg.maxElements > 0 ==> |argv| <= cfg.maxElements)
    requires forall i :: 0 <= i < |argv| ==> |argv[i]| <= LLONG_MAX
    ensures DecodeItem(cfg, FormatCommand(argv) + rest) == Done(Aggregate(ArrayType, Bulks(argv)), rest)
  {
    var n, es := |argv|, Bulks(argv);
    ArgsAreAllBulks(argv);
    DigitsHaveNoCr(Decimal(n));
    LengthParses(n);
    BulksAreSendable(cfg, argv);
    DecodeEncodeAll(cfg, es, rest);
    ReadItems(cfg, n, Decimal(n), es, FormatArgs(argv), FormatCommand(argv), rest);
  }

  lemma ReadItems(cfg: Config, n: nat, line: bytes, es: seq<Reply>, body: bytes, cmd: bytes, rest: bytes)
    requires n == |es| && CR !in line && ParseLongLong(line) == Some(n) && (cfg.maxElements > 0 ==> n <= cfg.maxElements)
    requires DecodeMany(cfg, n, body + rest) == Done(es, rest) && cmd == [42] + line + CRLF + body
    ensures DecodeItem(cfg, cmd + rest) == Done(Aggregate(ArrayType, es), rest)
  {
    DecodeAggregateItem(cfg, ArrayType, n, line, es, body, rest);
  }
}
