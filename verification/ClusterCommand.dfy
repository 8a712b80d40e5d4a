/**
 A multi-key command from end to end: formatted, scanned for its keys, split by slot, re-encoded,
 executed piece by piece by servers that read the protocol, and its replies merged.
 */
module ClusterCommand {
  import opened Bytes
  import opened Format
  import opened Resp
  import opened Sharding
  import opened Encoding
  import opened Fragment
  import opened ScannerKeys
  import opened Merging
  import Scanner
  import Verbs

  // ----- the server's side -----

  /** A server reads any number of elements; doubles never occur in requests. */
  const SERVER: Config := Config(0, s => true)

  function KindOf(verb: bytes): Option<Kind> {
    var name := Verbs.LowerText(verb);
    if name == "mget" then Some(MGet)
    else if name == "del" then Some(Del)
    else if name == "exists" then Some(Exists)
    else if name == "mset" then Some(MSet)
    else None
  }

  /** The items an argument list stands for; MSET needs a value for every key. */
  function ItemsOf(kind: Kind, args: seq<bytes>): Option<seq<Item>> {
    var n := |args|;
    if n == 0 then Some([])
    else if !kind.MSet? then
      match ItemsOf(kind, args[..n - 1])
      case None => None
      case Some(items) => Some(items + [Item(args[n - 1], [])])
    else if n == 1 then None
    else
      match ItemsOf(kind, args[..n - 2])
      case None => None
      case Some(items) => Some(items + [Item(args[n - 2], args[n - 1])])
  }

  /** Only MSET's items carry values. */
  predicate Plain(kind: Kind, items: seq<Item>) {
    kind.MSet? || forall i :: 0 <= i < |items| ==> items[i].value == []
  }

  /** The argument list a request array holds. */
  function ArgvOf(r: Reply): Option<seq<bytes>> {
    if r.Aggregate? && r.kind.ArrayType? && forall i :: 0 <= i < |r.elements| ==> r.elements[i].Text? && r.elements[i].kind.StringType?
    then Some(seq(|r.elements|, i requires 0 <= i < |r.elements| => r.elements[i].text))
    else None
  }

  /** What a server makes of an argument list: None stands for its error replies. */
  function Obey(argv: seq<bytes>, store: Store): Option<Outcome> {
    if argv == [] then None
    else match KindOf(argv[0])
      case None => None
      case Some(kind) =>
        match ItemsOf(kind, argv[1..])
        case None => None
        case Some(items) => if items == [] then None else Some(Execute(kind, items, store))
  }

  /** A server reading one request and executing it. */
  function Serve(request: bytes, store: Store): Option<Outcome> {
    match DecodeItem(SERVER, request)
    case Done(r, rest) =>
      (match ArgvOf(r)
       case None => None
       case Some(argv) => if rest == [] then Obey(argv, store) else None)
    case More => None
    case Bad(_) => None
  }

  lemma ItemsOfSnoc(kind: Kind, before: seq<bytes>, init: seq<Item>, last: Item)
    requires ItemsOf(kind, before) == Some(init) && (kind.MSet? || last.value == [])
    ensures ItemsOf(kind, before + (if kind.MSet? then [last.key, last.value] else [last.key])) == Some(init + [last])
  {
    if kind.MSet? {
      var args := before + [last.key, last.value];
      assert args[..|args| - 2] == before && args[|args| - 2] == last.key && args[|args| - 1] == last.value;
    } else {
      var args := before + [last.key];
      assert args[..|args| - 1] == before;
    }
  }

  lemma {:induction false} ItemsOfArgs(kind: Kind, items: seq<Item>)
    requires Plain(kind, items)
    ensures ItemsOf(kind, Args(kind, items)) == Some(items)
  {
    if items != [] {
      var init, last := items[..|items| - 1], items[|items| - 1];
      ItemsOfArgs(kind, init);
      ItemsOfSnoc(kind, Args(kind, init), init, last);
      assert init + [last] == items;
    }
  }

  /** Every argument list a server accepts is some items' argument list. */
  lemma {:induction false} ArgsOfItems(kind: Kind, args: seq<bytes>, items: seq<Item>)
    requires ItemsOf(kind, args) == Some(items)
    ensures Plain(kind, items) && Args(kind, items) == args
  {
    var n := |args|;
    if n > 0 {
      var m := if kind.MSet? then n - 2 else n - 1;
      var init := items[..|items| - 1];
      ArgsOfItems(kind, args[..m], init);
      assert args == args[..m] + args[m..];
    }
  }

  predicate ArgsFit(argv: seq<bytes>) { |argv| < INT_LIMIT && forall i :: 0 <= i < |argv| ==> |argv[i]| < INT_LIMIT }

  lemma {:induction false} ArgsFitItems(kind: Kind, items: seq<Item>)
    requires SizesFit(items)
    ensures forall i :: 0 <= i < |Args(kind, items)| ==> |Args(kind, items)[i]| < INT_LIMIT
  {
    if items != [] { ArgsFitItems(kind, items[..|items| - 1]); }
  }

  lemma ArgvFits(kind: Kind, verb: bytes, items: seq<Item>)
    requires SizesFit(items) && KindOf(verb) == Some(kind)
    ensures ArgsFit(Argv(kind, verb, items))
  {
    ArgsCount(kind, items);
    ArgsFitItems(kind, items);
  }

  lemma ServeArgv(argv: seq<bytes>, store: Store)
    requires ArgsFit(argv)
    ensures Serve(FormatCommand(argv), store) == Obey(argv, store)
  {
    ReadFormatted(SERVER, argv, []);
    assert FormatCommand(argv) + [] == FormatCommand(argv);
    assert ArgvOf(Aggregate(ArrayType, Bulks(argv))).value == argv;
  }

  /** A formatted command is executed as the command it denotes. */
  lemma ServeCommand(kind: Kind, verb: bytes, items: seq<Item>, store: Store)
    requires KindOf(verb) == Some(kind) && items != [] && Plain(kind, items) && SizesFit(items)
    ensures Serve(FormatCommand(Argv(kind, verb, items)), store) == Some(Execute(kind, items, store))
  {
    var argv := Argv(kind, verb, items);
    ArgvFits(kind, verb, items);
    ServeArgv(argv, store);
    ItemsOfArgs(kind, items);
    assert argv[1..] == Args(kind, items);
  }

  lemma LowerVerb(kind: Kind)
    ensures KindOf(VerbOf(kind)) == Some(kind)
  {
    match kind
    case MGet => assert Verbs.LowerText(VerbOf(kind)) == "mget";
    case Del => assert Verbs.LowerText(VerbOf(kind)) == "del";
    case Exists => assert Verbs.LowerText(VerbOf(kind)) == "exists";
    case MSet => assert Verbs.LowerText(VerbOf(kind)) == "mset";
  }

  // ----- the client's side -----

  /** Where item i's key, and for MSET its value, are in the argument list. */
  function KeyIndex(kind: Kind, i: nat): nat { if kind.MSet? then 1 + 2 * i else 1 + i }

  lemma {:induction false} ArgsAt(kind: Kind, items: seq<Item>, i: nat)
    requires i < |items|
    ensures KeyIndex(kind, i) < |Args(kind, items)| + 1
    ensures Args(kind, items)[KeyIndex(kind, i) - 1] == items[i].key
    ensures kind.MSet? ==> KeyIndex(kind, i) < |Args(kind, items)| && Args(kind, items)[KeyIndex(kind, i)] == items[i].value
  {
    ArgsCount(kind, items[..|items| - 1]);
    if i < |items| - 1 { ArgsAt(kind, items[..|items| - 1], i); }
  }

  lemma ValueFollowsKey(argv: seq<bytes>, j: nat)
    requires j + 1 < |argv|
    ensures var k, cmd, tail := Scanner.Span(argv, j), FormatCommand(argv), CRLF + FormatArg(argv[j + 1]);
            k.end + |tail| <= |cmd| && cmd[k.end..k.end + |tail|] == tail
  {
    SpanDenotesArg(argv, j);
    Scanner.ArgInCommand(argv, j);
    Scanner.CommandAround(argv, j + 1);
    var k, cmd, arg := Scanner.Span(argv, j), FormatCommand(argv), FormatArg(argv[j + 1]);
    var before, rest := Scanner.Before(argv, j + 1), EncodeAll(Bulks(argv)[j + 2..]);
    PartOf(cmd, before, arg, rest, k.end);
  }

  lemma PartOf(cmd: bytes, before: bytes, arg: bytes, rest: bytes, end: nat)
    requires cmd == before + arg + rest && |before| == end + 2
    requires cmd[end] == CR && cmd[end + 1] == LF
    ensures end + 2 + |arg| <= |cmd| && cmd[end..end + |CRLF + arg|] == CRLF + arg
  {
    assert cmd[end + 2..end + 2 + |arg|] == arg;
    assert cmd[end..end + 2] == CRLF;
    assert cmd[end..end + 2 + |arg|] == cmd[end..end + 2] + cmd[end + 2..end + 2 + |arg|];
  }

  lemma ItemStands(kind: Kind, verb: bytes, items: seq<Item>, i: nat, argv: seq<bytes>, k: KeyPos)
    requires i < |items| && argv == Argv(kind, verb, items)
    requires KeyIndex(kind, i) < |argv| && k == Scanner.Span(argv, KeyIndex(kind, i))
    ensures StandsAt(kind, FormatCommand(argv), k.start, k.end, items[i])
  {
    var j := KeyIndex(kind, i);
    ArgsAt(kind, items, i);
    assert argv[j] == items[i].key;
    SpanDenotesArg(argv, j);
    if kind.MSet? {
      assert argv[j + 1] == items[i].value;
      ValueFollowsKey(argv, j);
    }
  }

  function ArityOf(kind: Kind): Scanner.Arity { if kind.MSet? then Scanner.ArgKvx else Scanner.ArgX }

  /** Item i's key is the argument the scanner's closed form names. */
  lemma KeyIndices(kind: Kind, n: nat, argc: nat, argv: seq<bytes>, ks: seq<nat>)
    requires n > 0 && argc == Narg(kind, n) == |argv| && LegalKeys(ArityOf(kind), argv) == Some(ks)
    ensures |ks| == n && forall i :: 0 <= i < n ==> ks[i] == KeyIndex(kind, i) < argc
  {
    if kind.MSet? {
      EveryOtherIndices(1, argc);
    } else {
      FromIndices(1, argc);
    }
  }

  /** The scanner finds every item's key where it stands, followed by what belongs to it. */
  lemma ScannedKeysStand(kind: Kind, verb: bytes, items: seq<Item>, argv: seq<bytes>, ks: seq<nat>, keys: seq<KeyPos>)
    requires items != [] && argv == Argv(kind, verb, items)
    requires LegalKeys(ArityOf(kind), argv) == Some(ks) && Indices(ks, |argv|) && keys == Spans(argv, ks)
    ensures KeysStand(kind, FormatCommand(argv), keys, items)
  {
    ArgsCount(kind, items);
    KeyIndices(kind, |items|, |argv|, argv, ks);
    forall i | 0 <= i < |items| ensures StandsAt(kind, FormatCommand(argv), keys[i].start, keys[i].end, items[i]) {
      ItemStands(kind, verb, items, i, argv, keys[i]);
    }
  }

  lemma KeysAreLegal(kind: Kind, verb: bytes, items: seq<Item>, argv: seq<bytes>)
    requires items != [] && argv == Argv(kind, verb, items)
    ensures LegalKeys(ArityOf(kind), argv).Some? && Indices(LegalKeys(ArityOf(kind), argv).value, |argv|)
  {
    ArgsCount(kind, items);
    LegalKeysAreIndices(ArityOf(kind), argv);
  }

  /** The scan of a formatted multi-key command, with its key spans where the splitter needs them. */
  lemma ScanOfCommand(kind: Kind, verb: bytes, items: seq<Item>, argv: seq<bytes>, cmd: bytes, v: Scanner.Verdict)
    requires KindOf(verb) == Some(kind) && items != [] && SizesFit(items)
    requires argv == Argv(kind, verb, items) && cmd == FormatCommand(argv)
    requires v == Scanner.Run(Verbs.Classify, cmd, Scanner.START)
    ensures v.Parsed? && KeysStand(kind, cmd, v.keys, items)
  {
    ArgvFits(kind, verb, items);
    ScanInvertsFormat(Verbs.Classify, argv);
    Verbs.MultiKeyVerbs(verb);
    KeysAreLegal(kind, verb, items, argv);
    var ks := LegalKeys(ArityOf(kind), argv).value;
    ScannedKeysStand(kind, verb, items, argv, ks, Spans(argv, ks));
  }

  /** Sending the sub-commands one after the other. */
  function ServeAll(commands: seq<Encoded>, store: Store): Option<(seq<Answer>, Store)> {
    if commands == [] then Some(([], store))
    else
      var last := commands[|commands| - 1];
      match ServeAll(commands[..|commands| - 1], store)
      case None => None
      case Some(before) =>
        match Serve(last.cmd, before.1)
        case None => None
        case Some(o) => Some((before.0 + [Answer(last.slot, o.reply)], o.store))
  }

  lemma ServeOne(commands: seq<Encoded>, last: Encoded, store: Store, before: (seq<Answer>, Store), o: Outcome)
    requires ServeAll(commands, store) == Some(before) && Serve(last.cmd, before.1) == Some(o)
    ensures ServeAll(commands + [last], store) == Some((before.0 + [Answer(last.slot, o.reply)], o.store))
  {
    assert (commands + [last])[..|commands|] == commands;
  }

  lemma {:induction false} PieceIsPlain(kind: Kind, slotOf: SlotFn, items: seq<Item>, s: nat)
    requires Plain(kind, items)
    ensures Plain(kind, Piece(slotOf, items, s))
  {
    if items != [] { PieceIsPlain(kind, slotOf, items[..|items| - 1], s); }
  }

  /** The servers execute exactly the pieces. */
  lemma {:induction false} ServedPieces(kind: Kind, slotOf: SlotFn, items: seq<Item>, n: nat, store: Store,
                                        f: nat -> Option<Encoded>)
    requires Plain(kind, items) && SizesFit(items) && f == CommandOf(kind, slotOf, items)
    ensures ServeAll(Gather(f, n), store) == Some(RunPieces(kind, slotOf, items, n, store))
  {
    if n > 0 {
      var s := n - 1;
      ServedPieces(kind, slotOf, items, s, store, f);
      var before, piece := RunPieces(kind, slotOf, items, s, store), Piece(slotOf, items, s);
      var o := Execute(kind, piece, before.1);
      RunOnePiece(kind, slotOf, items, s, store, before, piece, o);
      if piece != [] {
        PieceIsPlain(kind, slotOf, items, s);
        PieceSizes(slotOf, items, s);
        LowerVerb(kind);
        ServeCommand(kind, VerbOf(kind), piece, before.1);
        ServeOne(Gather(f, s), f(s).value, store, before, o);
      }
    }
  }

  lemma ServedSplit(kind: Kind, slotOf: SlotFn, items: seq<Item>, n: nat, store: Store, commands: seq<Encoded>)
    requires Plain(kind, items) && SizesFit(items) && forall k :: slotOf(k) < n
    requires commands == Gather(CommandOf(kind, slotOf, items), n)
    ensures ServeAll(commands, store)
         == Some((Gather(AnswerOf(kind, slotOf, items, store), n), Execute(kind, items, store).store))
  {
    ServedPieces(kind, slotOf, items, n, store, CommandOf(kind, slotOf, items));
    PiecesReachFinalStore(kind, slotOf, items, n, store, AnswerOf(kind, slotOf, items, store));
  }

  /** The loop over the sub-commands; None when a server's reply ends the command early. */
  method SendAll(commands: seq<Encoded>, store: Store) returns (r: Option<(seq<Answer>, Store)>)
    ensures r == ServeAll(commands, store)
  {
    var answers, now := [], store;
    for i := 0 to |commands|
      invariant ServeAll(commands[..i], store) == Some((answers, now))
    {
      assert commands[..i + 1][..i] == commands[..i];
      ServeAllStops(commands, i + 1, store);
      match Serve(commands[i].cmd, now)
      case None => return None;
      case Some(o) => answers, now := answers + [Answer(commands[i].slot, o.reply)], o.store;
    }
    assert commands[..|commands|] == commands;
    r := Some((answers, now));
  }

  lemma {:induction false} ServeAllStops(commands: seq<Encoded>, i: nat, store: Store)
    requires i <= |commands|
    ensures ServeAll(commands[..i], store).None? ==> ServeAll(commands, store).None?
    decreases |commands|
  {
    if i == |commands| {
      assert commands[..i] == commands;
    } else {
      var init := commands[..|commands| - 1];
      assert init[..i] == commands[..i];
      ServeAllStops(init, i, store);
    }
  }

  datatype Sent = Sent(result: Merge, store: Store)

  /** The command sent whole, when its keys share one slot. */
  method SendWhole(kind: Kind, ghost verb: bytes, cmd: bytes, ghost items: seq<Item>, store: Store) returns (s: Sent)
    requires KindOf(verb) == Some(kind) && items != [] && Plain(kind, items) && SizesFit(items)
    requires cmd == FormatCommand(Argv(kind, verb, items))
    ensures s == Sent(Merged(Execute(kind, items, store).reply), Execute(kind, items, store).store)
  {
    ServeCommand(kind, verb, items, store);
    var o := Serve(cmd, store).value;
    s := Sent(Merged(o.reply), o.store);
  }

  /** The command split, its pieces sent in slot order and the replies merged. */
  method SendSplit(kind: Kind, slotOf: SlotFn, commands: seq<Encoded>, items: seq<Item>, store: Store, ghost n: nat)
    returns (s: Sent)
    requires Plain(kind, items) && SizesFit(items) && forall k :: slotOf(k) < n
    requires commands == Gather(CommandOf(kind, slotOf, items), n)
    ensures s == Sent(Merged(Execute(kind, items, store).reply), Execute(kind, items, store).store)
  {
    ServedSplit(kind, slotOf, items, n, store, commands);
    var r := SendAll(commands, store);
    var m := MergePieces(kind, slotOf, items, r.value.0, store, n);
    s := Sent(m, r.value.1);
  }

  /**
   A multi-key command given to the cluster client leaves the store and gives the reply that one
   server holding all keys would, for every list of keys and values, repeated keys included; the
   only condition is that no empty key meets stale number text.
   */
  method RunCommand(slotOf: SlotFn, kind: Kind, verb: bytes, items: seq<Item>, store: Store) returns (s: Sent)
    requires KindOf(verb) == Some(kind) && items != [] && Plain(kind, items) && SizesFit(items)
    requires NeverStale(kind, slotOf, items)
    ensures s == Sent(Merged(Execute(kind, items, store).reply), Execute(kind, items, store).store)
  {
    var argv := Argv(kind, verb, items);
    var buffer, len := FormatCommandArgv(argv);
    var cmd := buffer[..len];
    var verdict := Scanner.ScanCommand(Verbs.Classify, cmd);
    ScanOfCommand(kind, verb, items, argv, cmd, verdict);
    if |verdict.keys| == 1 {
      s := SendWhole(kind, verb, cmd, items, store);
    } else {
      var commands, frag, slotNum := PreFragment(kind, slotOf, cmd, verdict.keys, items);
      if commands == [] {
        s := SendWhole(kind, verb, cmd, items, store);
      } else {
        s := SendSplit(kind, slotOf, commands, items, store, SLOTS);
      }
    }
  }
}
