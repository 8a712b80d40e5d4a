/**
 What scanning a formatted command yields, in closed form: which argument lists are accepted and
 which of their arguments are keys, for every argument class.
 */
module ScannerKeys {
  import opened Bytes
  import opened Format
  import opened Scanner

  /** The arguments that are keys, or None when the scanner rejects the command; argv[0] is a known verb. */
  function LegalKeys(a: Arity, argv: seq<bytes>): Option<seq<nat>>
    requires argv != []
  {
    var n := |argv|;
    if a.ArgZ? || n == 1 then Some([])
    else match a
      case Arg0 => if n == 2 then Some([1]) else None
      case Arg1 => if n == 3 then Some([1]) else None
      case Arg2 => if n == 4 then Some([1]) else None
      case Arg3 => if n == 5 then Some([1]) else None
      case ArgN => Some([1])
      case ArgX => Some(From(1, n))
      case ArgKvx => if n == 2 then Some([1]) else if n % 2 == 0 then None else Some(EveryOther(1, n))
      case ArgSub => if n == 2 then None else Some([2])
      case ArgEval => if n < 4 || !ScriptKeyCount(argv[2]) then None else Some([3])
      case ArgZ => Some([])
  }

  /** The key count of a script: a digit string that is not zero in 32 bits. */
  predicate ScriptKeyCount(s: bytes) { s != [] && AllDigits(s) && WrappedValue(s) != 0 }

  function From(i: nat, n: nat): (s: seq<nat>)
    decreases n - i
  {
    if i >= n then [] else [i] + From(i + 1, n)
  }

  function EveryOther(i: nat, n: nat): (s: seq<nat>)
    decreases n - i
  {
    if i >= n then [] else [i] + EveryOther(i + 2, n)
  }

  predicate Indices(ks: seq<nat>, n: nat) { forall j :: 0 <= j < |ks| ==> ks[j] < n }

  function Spans(argv: seq<bytes>, ks: seq<nat>): (s: seq<KeyPos>)
    requires Indices(ks, |argv|)
    ensures |s| == |ks|
  {
    seq(|ks|, j requires 0 <= j < |ks| => Span(argv, ks[j]))
  }

  lemma {:induction false} FromIndices(i: nat, n: nat)
    ensures Indices(From(i, n), n) && (i < n ==> |From(i, n)| == n - i)
    ensures forall j :: 0 <= j < |From(i, n)| ==> From(i, n)[j] == i + j
    decreases n - i
  {
    if i < n { FromIndices(i + 1, n); }
  }

  lemma {:induction false} EveryOtherIndices(i: nat, n: nat)
    ensures Indices(EveryOther(i, n), n)
    ensures forall j :: 0 <= j < |EveryOther(i, n)| ==> EveryOther(i, n)[j] == i + 2 * j
    ensures i <= n && (n - i) % 2 == 0 ==> 2 * |EveryOther(i, n)| == n - i
    decreases n - i
  {
    if i < n { EveryOtherIndices(i + 2, n); }
  }

  lemma LegalKeysAreIndices(a: Arity, argv: seq<bytes>)
    requires argv != []
    ensures LegalKeys(a, argv).Some? ==> Indices(LegalKeys(a, argv).value, |argv|)
  {
    FromIndices(1, |argv|);
    EveryOtherIndices(1, |argv|);
  }

  /** Trailing arguments carry no keys. */
  lemma {:induction false} RestHasNoKeys(verbs: VerbTable, argv: seq<bytes>, i: nat, v: Verb, keys: seq<KeyPos>)
    requires i <= |argv| && (v.arity.ArgN? || v.arity.ArgEval? || v.arity.ArgSub?)
    ensures ScanArgs(verbs, argv, i, ArgNSlot, Some(v), keys) == Parsed(Some(v), |argv|, keys)
    decreases |argv| - i
  {
    if i < |argv| { RestHasNoKeys(verbs, argv, i + 1, v, keys); }
  }

  lemma SpansCons(argv: seq<bytes>, i: nat, ks: seq<nat>, keys: seq<KeyPos>)
    requires i < |argv| && Indices(ks, |argv|)
    ensures Indices([i] + ks, |argv|)
    ensures keys + Spans(argv, [i] + ks) == keys + [Span(argv, i)] + Spans(argv, ks)
  {
  }

  lemma KeyStep(verbs: VerbTable, argv: seq<bytes>, i: nat, v: Verb, keys: seq<KeyPos>)
    requires i < |argv| && v.arity.ArgX?
    ensures ScanArgs(verbs, argv, i, KeySlot, Some(v), keys)
         == ScanArgs(verbs, argv, i + 1, KeySlot, Some(v), keys + [Span(argv, i)])
  {
  }

  /** Every remaining argument of MGET, DEL and EXISTS is a key. */
  lemma {:induction false} RestIsKeys(verbs: VerbTable, argv: seq<bytes>, i: nat, v: Verb, keys: seq<KeyPos>)
    requires i <= |argv| && v.arity.ArgX?
    ensures Indices(From(i, |argv|), |argv|)
    ensures ScanArgs(verbs, argv, i, KeySlot, Some(v), keys)
         == Parsed(Some(v), |argv|, keys + Spans(argv, From(i, |argv|)))
    decreases |argv| - i
  {
    if i == |argv| {
      assert keys + Spans(argv, []) == keys;
    } else {
      KeyStep(verbs, argv, i, v, keys);
      RestIsKeys(verbs, argv, i + 1, v, keys + [Span(argv, i)]);
      SpansCons(argv, i, From(i + 1, |argv|), keys);
    }
  }

  lemma PairStep(verbs: VerbTable, argv: seq<bytes>, i: nat, v: Verb, keys: seq<KeyPos>)
    requires i + 1 < |argv| && |argv| % 2 == 1 && v.arity.ArgKvx?
    ensures ScanArgs(verbs, argv, i, KeySlot, Some(v), keys)
         == ScanArgs(verbs, argv, i + 2, KeySlot, Some(v), keys + [Span(argv, i)])
  {
    assert ScanArgs(verbs, argv, i, KeySlot, Some(v), keys)
        == ScanArgs(verbs, argv, i + 1, Arg1Slot, Some(v), keys + [Span(argv, i)]);
  }

  /** Keys and values of MSET alternate. */
  lemma {:induction false} RestIsPairs(verbs: VerbTable, argv: seq<bytes>, i: nat, v: Verb, keys: seq<KeyPos>)
    requires i <= |argv| && i % 2 == 1 && |argv| % 2 == 1 && v.arity.ArgKvx?
    ensures Indices(EveryOther(i, |argv|), |argv|)
    ensures ScanArgs(verbs, argv, i, KeySlot, Some(v), keys)
         == Parsed(Some(v), |argv|, keys + Spans(argv, EveryOther(i, |argv|)))
    decreases |argv| - i
  {
    if i == |argv| {
      assert keys + Spans(argv, []) == keys;
    } else {
      PairStep(verbs, argv, i, v, keys);
      RestIsPairs(verbs, argv, i + 2, v, keys + [Span(argv, i)]);
      SpansCons(argv, i, EveryOther(i + 2, |argv|), keys);
    }
  }

  /** A key argument followed by n - 2 plain ones. */
  lemma FixedArity(verbs: VerbTable, argv: seq<bytes>, v: Verb)
    requires |argv| >= 2
    requires v.arity.Arg0? || v.arity.Arg1? || v.arity.Arg2? || v.arity.Arg3?
    ensures ScanArgs(verbs, argv, 1, KeySlot, Some(v), []) ==
              if LegalKeys(v.arity, argv).None? then ParseError else Parsed(Some(v), |argv|, [Span(argv, 1)])
  {
    var keys := [Span(argv, 1)];
    assert [] + keys == keys;
    if v.arity.Arg3? && |argv| == 5 {
      assert ScanArgs(verbs, argv, 4, Arg3Slot, Some(v), keys) == Parsed(Some(v), |argv|, keys);
    }
    if |argv| >= 4 && (v.arity.Arg2? || v.arity.Arg3?) {
      assert ScanArgs(verbs, argv, 3, Arg2Slot, Some(v), keys) ==
        if v.arity.Arg2? then (if |argv| == 4 then Parsed(Some(v), |argv|, keys) else ParseError)
        else if |argv| == 5 then Parsed(Some(v), |argv|, keys) else ParseError;
    }
  }

  lemma ScriptArity(verbs: VerbTable, argv: seq<bytes>, v: Verb)
    requires |argv| >= 2 && v.arity.ArgEval?
    ensures ScanArgs(verbs, argv, 1, Arg1Slot, Some(v), []) ==
              if LegalKeys(v.arity, argv).None? then ParseError else Parsed(Some(v), |argv|, [Span(argv, 3)])
  {
    if |argv| >= 4 && ScriptKeyCount(argv[2]) {
      var keys := [Span(argv, 3)];
      assert [] + keys == keys;
      if |argv| > 4 { RestHasNoKeys(verbs, argv, 4, v, keys); }
      assert ScanArgs(verbs, argv, 3, KeySlot, Some(v), []) == Parsed(Some(v), |argv|, keys);
      assert ScanArgs(verbs, argv, 2, Arg2Slot, Some(v), []) == ScanArgs(verbs, argv, 3, KeySlot, Some(v), []);
    }
  }

  lemma SubCommandArity(verbs: VerbTable, argv: seq<bytes>, v: Verb)
    requires |argv| >= 2 && v.arity.ArgSub?
    ensures ScanArgs(verbs, argv, 1, Arg1Slot, Some(v), []) ==
              if LegalKeys(v.arity, argv).None? then ParseError else Parsed(Some(v), |argv|, [Span(argv, 2)])
  {
    if |argv| >= 3 {
      var keys := [Span(argv, 2)];
      assert [] + keys == keys;
      if |argv| > 3 { RestHasNoKeys(verbs, argv, 3, v, keys); }
      assert ScanArgs(verbs, argv, 2, KeySlot, Some(v), []) == Parsed(Some(v), |argv|, keys);
    }
  }

  lemma OpenArity(verbs: VerbTable, argv: seq<bytes>, v: Verb)
    requires |argv| >= 2 && v.arity.ArgN?
    ensures ScanArgs(verbs, argv, 1, KeySlot, Some(v), []) == Parsed(Some(v), |argv|, [Span(argv, 1)])
  {
    var keys := [Span(argv, 1)];
    assert [] + keys == keys;
    if |argv| > 3 { RestHasNoKeys(verbs, argv, 3, v, keys); }
    if |argv| > 2 {
      assert ScanArgs(verbs, argv, 2, Arg1Slot, Some(v), keys) == Parsed(Some(v), |argv|, keys);
    }
  }

  lemma PairArity(verbs: VerbTable, argv: seq<bytes>, v: Verb)
    requires |argv| >= 2 && v.arity.ArgKvx?
    ensures Indices(EveryOther(1, |argv|), |argv|)
    ensures ScanArgs(verbs, argv, 1, KeySlot, Some(v), []) ==
              if |argv| == 2 then Parsed(Some(v), |argv|, [Span(argv, 1)])
              else if |argv| % 2 == 0 then ParseError
              else Parsed(Some(v), |argv|, Spans(argv, EveryOther(1, |argv|)))
  {
    EveryOtherIndices(1, |argv|);
    assert [] + [Span(argv, 1)] == [Span(argv, 1)];
    if |argv| % 2 == 1 {
      RestIsPairs(verbs, argv, 1, v, []);
      assert [] + Spans(argv, EveryOther(1, |argv|)) == Spans(argv, EveryOther(1, |argv|));
    }
  }

  /** The verdict on an argument list whose verb is known. */
  function Expected(v: Verb, argv: seq<bytes>): Verdict
    requires argv != []
  {
    LegalKeysAreIndices(v.arity, argv);
    match LegalKeys(v.arity, argv)
    case None => ParseError
    case Some(ks) => Parsed(Some(v), |argv|, Spans(argv, ks))
  }

  lemma ArgsInClosedForm(verbs: VerbTable, argv: seq<bytes>, v: Verb)
    requires argv != [] && argv[0] != [] && verbs(argv[0]) == Some(v)
    ensures ScanArgs(verbs, argv, 0, TypeSlot, None, []) == Expected(v, argv)
  {
    LegalKeysAreIndices(v.arity, argv);
    var slot := if v.arity.ArgEval? || v.arity.ArgSub? then Arg1Slot else KeySlot;
    var ks := LegalKeys(v.arity, argv);
    if ks.Some? && |ks.value| == 1 { assert Spans(argv, ks.value) == [Span(argv, ks.value[0])]; }
    if !v.arity.ArgZ? {
      assert ScanArgs(verbs, argv, 0, TypeSlot, None, []) == ScanArgs(verbs, argv, 1, slot, Some(v), []);
      if |argv| > 1 { ClassInClosedForm(verbs, argv, v, slot); }
    }
  }

  lemma ClassInClosedForm(verbs: VerbTable, argv: seq<bytes>, v: Verb, slot: Slot)
    requires |argv| > 1 && !v.arity.ArgZ?
    requires slot == if v.arity.ArgEval? || v.arity.ArgSub? then Arg1Slot else KeySlot
    ensures ScanArgs(verbs, argv, 1, slot, Some(v), []) == Expected(v, argv)
  {
    LegalKeysAreIndices(v.arity, argv);
    var ks := LegalKeys(v.arity, argv);
    if ks.Some? && |ks.value| == 1 { assert Spans(argv, ks.value) == [Span(argv, ks.value[0])]; }
    if v.arity.ArgN? {
      OpenArity(verbs, argv, v);
    } else if v.arity.ArgX? {
      RestIsKeys(verbs, argv, 1, v, []);
      assert [] + Spans(argv, From(1, |argv|)) == Spans(argv, From(1, |argv|));
    } else if v.arity.ArgKvx? {
      PairArity(verbs, argv, v);
    } else if v.arity.ArgSub? {
      SubCommandArity(verbs, argv, v);
    } else if v.arity.ArgEval? {
      ScriptArity(verbs, argv, v);
    } else {
      FixedArity(verbs, argv, v);
    }
  }

  /**
   Scanning a formatted command inverts the formatter: the verdict, the argument count and the key
   spans are those of the argument list, for every list of arguments and every verb.
   */
  lemma ScanInvertsFormat(verbs: VerbTable, argv: seq<bytes>)
    requires Fits(argv)
    ensures Run(verbs, FormatCommand(argv), START) ==
              if argv == [] || argv[0] == [] || verbs(argv[0]).None? then ParseError
              else Expected(verbs(argv[0]).value, argv)
  {
    ScanRefinesArgs(verbs, argv);
    if argv != [] && argv[0] != [] && verbs(argv[0]).Some? {
      ArgsInClosedForm(verbs, argv, verbs(argv[0]).value);
    }
  }

  /** A key span denotes exactly the argument it came from. */
  lemma SpanDenotesArg(argv: seq<bytes>, i: nat)
    requires i < |argv|
    ensures var k, cmd := Span(argv, i), FormatCommand(argv);
            k.end + 2 <= |cmd| && cmd[k.start..k.end] == argv[i] && cmd[k.end] == CR && cmd[k.end + 1] == LF
  {
    ArgInCommand(argv, i);
  }
}
