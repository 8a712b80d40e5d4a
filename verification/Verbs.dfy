/** The verb table: every command the cluster client recognises, by its argument class. */
module Verbs {
  import opened Bytes
  import opened Format
  import opened Scanner
  import opened ScannerKeys

  function LowerByte(b: byte): byte { if 65 <= b <= 90 then b + 32 else b }

  /** Case-folded text of a verb. */
  function LowerText(m: bytes): (s: string)
    ensures |s| == |m|
  {
    seq(|m|, i requires 0 <= i < |m| => LowerByte(m[i]) as char)
  }

  function ArityOf(name: string): Option<Arity> {
    if name in {"ping", "quit"} then Some(ArgZ)
    else if name in {"exists", "mget", "del"} then Some(ArgX)
    else if name in {"mset"} then Some(ArgKvx)
    else if name in {"xgroup", "xinfo"} then Some(ArgSub)
    else if name in {"eval", "evalsha"} then Some(ArgEval)
    else if name in {"linsert"} then Some(Arg3)
    else if name in {"persist", "pttl", "sort", "ttl", "type", "dump", "decr", "get", "incr", "strlen",
                     "hgetall", "hkeys", "hlen", "hvals", "llen", "lpop", "rpop", "scard", "smembers",
                     "spop", "xlen", "zcard", "pfcount", "auth"} then Some(Arg0)
    else if name in {"expire", "expireat", "pexpire", "pexpireat", "append", "decrby", "getbit", "getset",
                     "incrby", "incrbyfloat", "setnx", "hexists", "hget", "lindex", "lpushx", "rpoplpush",
                     "rpushx", "sismember", "zrank", "zrevrank", "zscore"} then Some(Arg1)
    else if name in {"getrange", "psetex", "setbit", "setex", "setrange", "hincrby", "hincrbyfloat", "hset",
                     "hsetnx", "lrange", "lrem", "lset", "ltrim", "smove", "zcount", "zlexcount", "zincrby",
                     "zremrangebylex", "zremrangebyrank", "zremrangebyscore", "restore"} then Some(Arg2)
    else if name in {"bitcount", "set", "hdel", "hmget", "hmset", "hscan", "lpush", "rpush", "sadd", "sdiff",
                     "sdiffstore", "sinter", "sinterstore", "srem", "sunion", "sunionstore", "srandmember",
                     "sscan", "pfadd", "pfmerge", "xack", "xadd", "xautoclaim", "xclaim", "xdel", "xpending",
                     "xrange", "xrevrange", "xtrim", "zadd", "zinterstore", "zrange", "zrangebyscore", "zrem",
                     "zrevrange", "zrangebylex", "zrevrangebyscore", "zunionstore", "zscan"} then Some(ArgN)
    else None
  }

  /** redis_parse_cmd_verb. */
  function Classify(m: bytes): Option<Verb> {
    var name := LowerText(m);
    match ArityOf(name)
    case None => None
    case Some(a) => Some(Verb(name, a))
  }

  /** The verbs whose argument class lets them have several keys. */
  lemma MultiKeyVerbs(m: bytes)
    ensures Classify(m).Some? && (Classify(m).value.arity.ArgX? || Classify(m).value.arity.ArgKvx?)
            <==> LowerText(m) in {"mget", "del", "exists", "mset"}
    ensures Classify(m).Some? && Classify(m).value.arity.ArgKvx? <==> LowerText(m) == "mset"
  {
  }

  lemma LegalKeyCount(a: Arity, argv: seq<bytes>)
    requires argv != []
    ensures LegalKeys(a, argv).Some? && |LegalKeys(a, argv).value| > 1 <==>
              (a.ArgX? && |argv| > 2) || (a.ArgKvx? && |argv| > 4 && |argv| % 2 == 1)
  {
    FromIndices(1, |argv|);
    EveryOtherIndices(1, |argv|);
  }

  /**
   The scanner finds several keys in a formatted command exactly when it is MGET, DEL or EXISTS with
   several arguments or MSET with several pairs, so the splitter meets no other command.
   */
  lemma SeveralKeysIff(argv: seq<bytes>)
    requires Fits(argv)
    ensures var v := Run(Classify, FormatCommand(argv), START);
            v.Parsed? && |v.keys| > 1 <==>
              argv != [] && ((LowerText(argv[0]) in {"mget", "del", "exists"} && |argv| > 2)
                             || (LowerText(argv[0]) == "mset" && |argv| > 4 && |argv| % 2 == 1))
  {
    ScanInvertsFormat(Classify, argv);
    if argv != [] {
      MultiKeyVerbs(argv[0]);
      if argv[0] != [] && Classify(argv[0]).Some? {
        LegalKeysAreIndices(Classify(argv[0]).value.arity, argv);
        LegalKeyCount(Classify(argv[0]).value.arity, argv);
      }
    }
  }

  /** Upper-case letters count as their lower-case ones. */
  lemma CaseDoesNotMatter(m: bytes, l: bytes)
    requires |l| == |m| && forall i :: 0 <= i < |m| ==> l[i] == if 65 <= m[i] <= 90 then m[i] + 32 else m[i]
    ensures LowerText(m) == LowerText(l) && Classify(m) == Classify(l)
    ensures |LowerText(m)| == |l| && forall i :: 0 <= i < |l| ==> LowerText(m)[i] == l[i] as char
  {
    assert forall i :: 0 <= i < |m| ==> LowerByte(m[i]) == l[i] && LowerByte(l[i]) == l[i];
    assert LowerText(m) == LowerText(l);
  }

  /** The verdict on a formatted command whose verb has some class. */
  lemma VerdictOf(argv: seq<bytes>, a: Arity) returns (v: Verdict)
    requires Fits(argv) && argv != [] && argv[0] != [] && ArityOf(LowerText(argv[0])) == Some(a)
    ensures v == Run(Classify, FormatCommand(argv), START)
    ensures if LegalKeys(a, argv).None? then v.ParseError?
            else Indices(LegalKeys(a, argv).value, |argv|) && v.Parsed? && v.keys == Spans(argv, LegalKeys(a, argv).value)
  {
    ScanInvertsFormat(Classify, argv);
    LegalKeysAreIndices(a, argv);
    v := Run(Classify, FormatCommand(argv), START);
  }

  /** Exactly one key, the argument at index i. */
  predicate OneKey(v: Verdict, argv: seq<bytes>, i: nat) { i < |argv| && v.Parsed? && v.keys == [Span(argv, i)] }

  /** Verbs followed by a key and nothing else. */
  lemma OneArgument()
    ensures ArityOf("get") == Some(Arg0) && ArityOf("incr") == Some(Arg0) && ArityOf("ttl") == Some(Arg0) && ArityOf("hgetall") == Some(Arg0)
  {
  }

  /** Verbs followed by a key and one more argument. */
  lemma TwoArguments()
    ensures ArityOf("getset") == Some(Arg1) && ArityOf("expire") == Some(Arg1) && ArityOf("hget") == Some(Arg1) && ArityOf("sismember") == Some(Arg1)
  {
  }

  /** Verbs followed by a key and two more arguments. */
  lemma ThreeArguments()
    ensures ArityOf("setex") == Some(Arg2) && ArityOf("hset") == Some(Arg2) && ArityOf("lrange") == Some(Arg2) && ArityOf("smove") == Some(Arg2)
  {
  }

  /** The verb followed by a key and three more arguments. */
  lemma FourArguments()
    ensures ArityOf("linsert") == Some(Arg3)
  {
  }

  /** Verbs followed by a key and any number of arguments. */
  lemma ManyArguments()
    ensures ArityOf("set") == Some(ArgN) && ArityOf("sadd") == Some(ArgN) && ArityOf("zadd") == Some(ArgN) && ArityOf("hmget") == Some(ArgN)
  {
  }

  /** Verbs with a sub-command before the key. */
  lemma SubCommands()
    ensures ArityOf("xgroup") == Some(ArgSub) && ArityOf("xinfo") == Some(ArgSub)
  {
  }

  /** Verbs with a script and a key count before the key. */
  lemma Scripts()
    ensures ArityOf("eval") == Some(ArgEval) && ArityOf("evalsha") == Some(ArgEval)
  {
  }

  /** Verbs without keys. */
  lemma Keyless()
    ensures ArityOf("ping") == Some(ArgZ) && ArityOf("quit") == Some(ArgZ)
  {
  }

  /** Verbs that are not known. */
  lemma Unknown()
    ensures ArityOf("multi") == None && ArityOf("subscribe") == None && ArityOf("gets") == None && ArityOf("") == None
  {
  }

  /** Commands with a fixed number of arguments are accepted with that number, or with none, and then have one key. */
  lemma FixedCommands(argv: seq<bytes>, a: Arity, n: nat) returns (v: Verdict)
    requires Fits(argv) && argv != [] && argv[0] != [] && ArityOf(LowerText(argv[0])) == Some(a)
    requires (a.Arg0? && n == 2) || (a.Arg1? && n == 3) || (a.Arg2? && n == 4) || (a.Arg3? && n == 5)
    ensures v == Run(Classify, FormatCommand(argv), START)
    ensures v.Parsed? <==> |argv| in {1, n}
    ensures |argv| == n ==> OneKey(v, argv, 1)
  {
    v := VerdictOf(argv, a);
  }

  /** Open-ended commands, commands with sub-commands, scripts, and commands without keys. */
  lemma OpenCommands(argv: seq<bytes>, a: Arity) returns (v: Verdict)
    requires Fits(argv) && |argv| > 1 && argv[0] != [] && ArityOf(LowerText(argv[0])) == Some(a)
    ensures v == Run(Classify, FormatCommand(argv), START)
    ensures a.ArgN? ==> OneKey(v, argv, 1)
    ensures a.ArgSub? ==> if |argv| == 2 then v.ParseError? else OneKey(v, argv, 2)
    ensures a.ArgEval? ==>
              if |argv| >= 4 && argv[2] != [] && AllDigits(argv[2]) && WrappedValue(argv[2]) != 0 then OneKey(v, argv, 3)
              else v.ParseError?
    ensures a.ArgZ? ==> v.Parsed? && v.keys == []
  {
    v := VerdictOf(argv, a);
  }

  /** A verb that is not known is refused. */
  lemma UnknownVerb(argv: seq<bytes>)
    requires Fits(argv) && argv != [] && (argv[0] == [] || ArityOf(LowerText(argv[0])) == None)
    ensures Run(Classify, FormatCommand(argv), START) == ParseError
  {
    ScanInvertsFormat(Classify, argv);
  }
}
