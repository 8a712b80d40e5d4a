/**
 Writing one slot's command: the text the header and key loops of the splitter produce, with the
 number buffer that a printed zero leaves unterminated, against the command formatter.
 */
module Encoding {
  import opened Bytes
  import opened Integers
  import opened Format
  import opened Sharding

  /** The lower-case verb a sub-command is written with. */
  function VerbOf(kind: Kind): bytes {
    match kind
    case MGet => [109, 103, 101, 116]
    case Del => [100, 101, 108]
    case Exists => [101, 120, 105, 115, 116, 115]
    case MSet => [109, 115, 101, 116]
  }

  /** The constant text between the argument count and the first key. */
  function VerbText(kind: Kind): bytes {
    match kind
    case MGet => [13, 10, 36, 52, 13, 10, 109, 103, 101, 116, 13, 10]
    case Del => [13, 10, 36, 51, 13, 10, 100, 101, 108, 13, 10]
    case Exists => [13, 10, 36, 54, 13, 10, 101, 120, 105, 115, 116, 115, 13, 10]
    case MSet => [13, 10, 36, 52, 13, 10, 109, 115, 101, 116, 13, 10]
  }

  lemma VerbTextIsArg(kind: Kind)
    ensures VerbText(kind) == CRLF + FormatArg(VerbOf(kind))
  {
    assert Decimal(4) == [52] && Decimal(3) == [51] && Decimal(6) == [54];
  }

  /** The arguments after the verb. */
  function Args(kind: Kind, items: seq<Item>): seq<bytes> {
    if items == [] then []
    else
      var last := items[|items| - 1];
      Args(kind, items[..|items| - 1]) + (if kind.MSet? then [last.key, last.value] else [last.key])
  }

  /** A whole command. */
  function Argv(kind: Kind, verb: bytes, items: seq<Item>): seq<bytes> { [verb] + Args(kind, items) }

  function Narg(kind: Kind, n: nat): nat { if kind.MSet? then 2 * n + 1 else n + 1 }

  lemma {:induction false} ArgsCount(kind: Kind, items: seq<Item>)
    ensures |Args(kind, items)| + 1 == Narg(kind, |items|)
  {
    if items != [] { ArgsCount(kind, items[..|items| - 1]); }
  }

  /** What follows a key's bytes: its CRLF and, for MSET, the value argument. */
  function Tail(kind: Kind, item: Item): bytes {
    if kind.MSet? then CRLF + FormatArg(item.value) else CRLF
  }

  function FormatItem(kind: Kind, item: Item): bytes {
    [36] + Decimal(|item.key|) + CRLF + item.key + Tail(kind, item)
  }

  function FormatItems(kind: Kind, items: seq<Item>): bytes {
    if items == [] then [] else FormatItems(kind, items[..|items| - 1]) + FormatItem(kind, items[|items| - 1])
  }

  lemma FormatArgsSnoc(args: seq<bytes>, a: bytes)
    ensures FormatArgs(args + [a]) == FormatArgs(args) + FormatArg(a)
  {
    assert (args + [a])[..|args|] == args;
  }

  lemma {:induction false} FormatArgsCons(a: bytes, args: seq<bytes>)
    ensures FormatArgs([a] + args) == FormatArg(a) + FormatArgs(args)
  {
    if args == [] {
      assert [a] + args == [] + [a];
      FormatArgsSnoc([], a);
      assert [] + FormatArg(a) == FormatArg(a) + [];
    } else {
      var init, last := args[..|args| - 1], args[|args| - 1];
      assert args == init + [last] && [a] + args == ([a] + init) + [last];
      FormatArgsCons(a, init);
      FormatArgsSnoc(init, last);
      FormatArgsSnoc([a] + init, last);
      Regroup(FormatArg(a), FormatArgs(init), FormatArg(last));
    }
  }

  lemma ItemIsArgs(kind: Kind, args: seq<bytes>, item: Item)
    ensures FormatArgs(args + (if kind.MSet? then [item.key, item.value] else [item.key]))
         == FormatArgs(args) + FormatItem(kind, item)
  {
    var k, v, before := FormatArg(item.key), FormatArg(item.value), FormatArgs(args);
    var header := [36] + Decimal(|item.key|) + CRLF + item.key;
    FormatArgsSnoc(args, item.key);
    if kind.MSet? {
      FormatArgsSnoc(args + [item.key], item.value);
      assert args + [item.key] + [item.value] == args + [item.key, item.value];
      assert header + CRLF + v == header + (CRLF + v);
      Regroup(before, k, v);
    }
  }

  lemma {:induction false} ItemsAreArgs(kind: Kind, items: seq<Item>)
    ensures FormatArgs(Args(kind, items)) == FormatItems(kind, items)
  {
    if items != [] {
      ItemsAreArgs(kind, items[..|items| - 1]);
      ItemIsArgs(kind, Args(kind, items[..|items| - 1]), items[|items| - 1]);
    }
  }

  /** The count, the verb and the items, piece by piece. */
  lemma CommandByItems(kind: Kind, items: seq<Item>)
    ensures FormatCommand(Argv(kind, VerbOf(kind), items))
         == [42] + Decimal(Narg(kind, |items|)) + VerbText(kind) + FormatItems(kind, items)
  {
    ArgsCount(kind, items);
    ItemsAreArgs(kind, items);
    FormatArgsCons(VerbOf(kind), Args(kind, items));
    VerbTextIsArg(kind);
    var count := [42] + Decimal(Narg(kind, |items|));
    assert count + CRLF + (FormatArg(VerbOf(kind)) + FormatItems(kind, items))
        == count + (CRLF + FormatArg(VerbOf(kind))) + FormatItems(kind, items);
  }

  // ----- the pre-computed length -----

  /** What the grouping pass adds to clen for one key. */
  function KeyBytes(kind: Kind, item: Item): nat {
    |item.key| + |Decimal(|item.key|)| + (if kind.MSet? then |Tail(kind, item)| else 0)
  }

  function AllKeyBytes(kind: Kind, items: seq<Item>): nat {
    if items == [] then 0
    else AllKeyBytes(kind, items[..|items| - 1]) + KeyBytes(kind, items[|items| - 1])
  }

  /** clen as the encoder completes it: constant bytes per key, and the header. */
  function CompleteLength(kind: Kind, keyBytes: nat, n: nat): nat {
    keyBytes + (if kind.MSet? then 3 else 5) * n + 1 + |VerbText(kind)| + |Decimal(Narg(kind, n))|
  }

  lemma {:induction false} ItemsLength(kind: Kind, items: seq<Item>)
    ensures |FormatItems(kind, items)| == AllKeyBytes(kind, items) + (if kind.MSet? then 3 else 5) * |items|
  {
    if items != [] { ItemsLength(kind, items[..|items| - 1]); }
  }

  lemma LengthIsExact(kind: Kind, items: seq<Item>)
    ensures CompleteLength(kind, AllKeyBytes(kind, items), |items|)
         == |FormatCommand(Argv(kind, VerbOf(kind), items))|
  {
    ItemsLength(kind, items);
    CommandByItems(kind, items);
  }

  // ----- the number buffer -----

  /** The C string in the number buffer after printing n over prev. */
  function Printed(prev: bytes, n: nat): bytes
    requires prev != []
  {
    if n == 0 then prev[0 := 48] else Decimal(n)
  }

  /** The number buffer after the count and then each key's length have been printed. */
  function NumberText(narg: nat, items: seq<Item>): (t: bytes)
    ensures t != []
  {
    if items == [] then Decimal(narg)
    else Printed(NumberText(narg, items[..|items| - 1]), |items[|items| - 1].key|)
  }

  /** One key written with a text in place of its length. */
  function WrittenItem(kind: Kind, text: bytes, item: Item): bytes {
    [36] + text + CRLF + item.key + Tail(kind, item)
  }

  /** The keys as written, each with the text then in the number buffer as its length. */
  function WrittenItems(kind: Kind, narg: nat, items: seq<Item>): bytes {
    if items == [] then []
    else
      WrittenItems(kind, narg, items[..|items| - 1])
      + WrittenItem(kind, NumberText(narg, items), items[|items| - 1])
  }

  /** All bytes the encoder writes for one slot. */
  function Written(kind: Kind, items: seq<Item>): bytes {
    var narg := Narg(kind, |items|);
    [42] + Decimal(narg) + VerbText(kind) + WrittenItems(kind, narg, items)
  }

  /** The number printed last that was not zero: a key length, or else the argument count. */
  function LastPrinted(narg: nat, items: seq<Item>): nat {
    if items == [] then narg
    else if items[|items| - 1].key == [] then LastPrinted(narg, items[..|items| - 1])
    else |items[|items| - 1].key|
  }

  /** No empty key comes while the number buffer holds a text of several digits. */
  predicate NoStaleText(narg: nat, items: seq<Item>) {
    forall j :: 0 <= j < |items| ==> items[j].key == [] ==> LastPrinted(narg, items[..j]) < 10
  }

  lemma {:induction false} TextLength(narg: nat, items: seq<Item>)
    requires narg > 0
    ensures |NumberText(narg, items)| == |Decimal(LastPrinted(narg, items))|
  {
    if items != [] { TextLength(narg, items[..|items| - 1]); }
  }

  lemma NoStaleInit(narg: nat, items: seq<Item>)
    requires items != []
    ensures NoStaleText(narg, items) <==>
              && NoStaleText(narg, items[..|items| - 1])
              && (items[|items| - 1].key == [] ==> LastPrinted(narg, items[..|items| - 1]) < 10)
  {
    var init := items[..|items| - 1];
    forall j | 0 <= j < |init| ensures init[j] == items[j] && init[..j] == items[..j] {}
  }

  /** The number buffer holds the last key's own length, unless the key is empty and the text was longer. */
  lemma TextIsRight(narg: nat, items: seq<Item>)
    requires narg > 0 && items != []
    ensures var key := items[|items| - 1].key;
            && |NumberText(narg, items)| >= |Decimal(|key|)|
            && (NumberText(narg, items) == Decimal(|key|) <==> |NumberText(narg, items)| == |Decimal(|key|)|)
            && (NumberText(narg, items) == Decimal(|key|) <==> key == [] ==> LastPrinted(narg, items[..|items| - 1]) < 10)
  {
    var init, key := items[..|items| - 1], items[|items| - 1].key;
    TextLength(narg, init);
    if key == [] {
      assert Decimal(0) == [48];
      var t := NumberText(narg, init);
      if |t| == 1 { assert t[0 := 48] == [48]; }
    }
  }

  lemma WrittenItemLength(kind: Kind, text: bytes, item: Item)
    ensures |WrittenItem(kind, text, item)| - |text| == |FormatItem(kind, item)| - |Decimal(|item.key|)|
    ensures text == Decimal(|item.key|) ==> WrittenItem(kind, text, item) == FormatItem(kind, item)
  {
  }

  /** Key by key: never shorter than the formatter's text, and equal exactly without stale text. */
  lemma {:induction false} WrittenItemsExact(kind: Kind, narg: nat, items: seq<Item>)
    requires narg > 0
    ensures |WrittenItems(kind, narg, items)| >= |FormatItems(kind, items)|
    ensures NoStaleText(narg, items) ==> WrittenItems(kind, narg, items) == FormatItems(kind, items)
    ensures !NoStaleText(narg, items) ==> |WrittenItems(kind, narg, items)| > |FormatItems(kind, items)|
  {
    if items != [] {
      var text := NumberText(narg, items);
      WrittenItemsExact(kind, narg, items[..|items| - 1]);
      NoStaleInit(narg, items);
      TextIsRight(narg, items);
      WrittenItemLength(kind, text, items[|items| - 1]);
    }
  }

  /**
   A slot's command is the formatter's text for its arguments, and fills the pre-computed length,
   if and only if no empty key follows a printed number of ten or more.
   */
  lemma EncodingIsExact(kind: Kind, items: seq<Item>)
    ensures var narg, cmd := Narg(kind, |items|), FormatCommand(Argv(kind, VerbOf(kind), items));
            && (NoStaleText(narg, items) <==> Written(kind, items) == cmd)
            && (NoStaleText(narg, items) <==> |Written(kind, items)| == CompleteLength(kind, AllKeyBytes(kind, items), |items|))
            && |Written(kind, items)| >= CompleteLength(kind, AllKeyBytes(kind, items), |items|)
  {
    var narg := Narg(kind, |items|);
    WrittenItemsExact(kind, narg, items);
    CommandByItems(kind, items);
    LengthIsExact(kind, items);
  }

  /** Commands without empty keys are always encoded exactly. */
  lemma NonEmptyKeysAreExact(kind: Kind, items: seq<Item>)
    requires forall i :: 0 <= i < |items| ==> items[i].key != []
    ensures Written(kind, items) == FormatCommand(Argv(kind, VerbOf(kind), items))
  {
    EncodingIsExact(kind, items);
  }

  /** MGET of a ten-byte key and an empty key in one slot: the empty key's length is written as "00". */
  lemma StaleLength()
    ensures var ten, none := Item([120, 120, 120, 120, 120, 120, 120, 120, 120, 120], []), Item([], []);
            && |Written(MGet, [ten, none])| == |FormatCommand(Argv(MGet, VerbOf(MGet), [ten, none]))| + 1
            && NumberText(3, [ten, none]) == [48, 48]
  {
    var ten, none := Item([120, 120, 120, 120, 120, 120, 120, 120, 120, 120], []), Item([], []);
    var one, both := [ten], [ten, none];
    assert both[..1] == one && one[..0] == [];
    assert Decimal(10) == [49, 48] && Decimal(0) == [48];
    assert NumberText(3, one) == [49, 48];
    assert [49, 48][0 := 48] == [48, 48];
    CommandByItems(MGet, both);
    assert |WrittenItems(MGet, 3, both)| == |WrittenItems(MGet, 3, one)| + 7;
    assert |FormatItems(MGet, both)| == |FormatItems(MGet, one)| + 6;
    assert |WrittenItems(MGet, 3, one)| == |FormatItems(MGet, one)|;
  }
}
