/**
 Multi-key commands over a sharded store: what MGET, DEL, EXISTS and MSET mean, what the per-slot
 pieces of such a command are, and why running the pieces one after the other and merging their
 replies is running the command.
 */
module Sharding {
  import opened Bytes
  import opened Resp

  const SLOTS: nat := 16384

  datatype Kind = MGet | Del | Exists | MSet

  /** A key with, for MSET, its value. */
  datatype Item = Item(key: bytes, value: bytes)

  type Store = map<bytes, bytes>

  /** The slot of a key; any function below SLOTS will do here. */
  type SlotFn = f: bytes -> nat | forall k :: f(k) < SLOTS witness (k => 0)

  datatype Outcome = Outcome(reply: Reply, store: Store)

  /** The reply of one slot's command. */
  datatype Answer = Answer(slot: nat, reply: Reply)

  // ----- the commands -----

  function Lookup(store: Store, key: bytes): Reply {
    if key in store then Text(StringType, store[key]) else Nil
  }

  function Lookups(items: seq<Item>, store: Store): (es: seq<Reply>)
    ensures |es| == |items|
    ensures forall i :: 0 <= i < |items| ==> es[i] == Lookup(store, items[i].key)
  {
    seq(|items|, i requires 0 <= i < |items| => Lookup(store, items[i].key))
  }

  /** How many of the items' keys exist, repeated keys counted each time. */
  function CountPresent(items: seq<Item>, store: Store): nat {
    if items == [] then 0
    else CountPresent(items[..|items| - 1], store) + (if items[|items| - 1].key in store then 1 else 0)
  }

  /** Keys removed one after the other: a repeated key is gone the second time. */
  function Remove(items: seq<Item>, store: Store): (nat, Store) {
    if items == [] then (0, store)
    else
      var (n, st) := Remove(items[..|items| - 1], store);
      var k := items[|items| - 1].key;
      if k in st then (n + 1, st - {k}) else (n, st)
  }

  /** Pairs stored one after the other: the last value of a repeated key stays. */
  function Assign(items: seq<Item>, store: Store): Store {
    if items == [] then store
    else Assign(items[..|items| - 1], store)[items[|items| - 1].key := items[|items| - 1].value]
  }

  const OK_TEXT: bytes := [79, 75]

  /** What one server does with a whole command. */
  function Execute(kind: Kind, items: seq<Item>, store: Store): Outcome {
    match kind
    case MGet => Outcome(Aggregate(ArrayType, Lookups(items, store)), store)
    case Exists => Outcome(Integer(CountPresent(items, store)), store)
    case Del => Outcome(Integer(Remove(items, store).0), Remove(items, store).1)
    case MSet => Outcome(Text(StatusType, OK_TEXT), Assign(items, store))
  }

  // ----- pieces -----

  /** The items of one slot, in their original order. */
  function Piece(slotOf: SlotFn, items: seq<Item>, s: nat): seq<Item> {
    if items == [] then []
    else
      var last := items[|items| - 1];
      Piece(slotOf, items[..|items| - 1], s) + (if slotOf(last.key) == s then [last] else [])
  }

  lemma PieceSnoc(slotOf: SlotFn, init: seq<Item>, last: Item, s: nat)
    ensures Piece(slotOf, init + [last], s) == Piece(slotOf, init, s) + (if slotOf(last.key) == s then [last] else [])
  {
    var all := init + [last];
    assert all[..|all| - 1] == init && all[|all| - 1] == last;
  }

  /** The slot of each item. */
  function SlotsOf(slotOf: SlotFn, items: seq<Item>): (frag: seq<nat>)
    ensures |frag| == |items|
    ensures forall i :: 0 <= i < |items| ==> frag[i] == slotOf(items[i].key)
  {
    seq<nat>(|items|, i requires 0 <= i < |items| => slotOf(items[i].key))
  }

  /** Running the pieces of the slots below n in slot order; slots without keys get no command. */
  function RunPieces(kind: Kind, slotOf: SlotFn, items: seq<Item>, n: nat, store: Store): (seq<Answer>, Store) {
    if n == 0 then ([], store)
    else
      var (answers, now) := RunPieces(kind, slotOf, items, n - 1, store);
      var piece := Piece(slotOf, items, n - 1);
      if piece == [] then (answers, now)
      else
        var o := Execute(kind, piece, now);
        (answers + [Answer(n - 1, o.reply)], o.store)
  }

  /** The values f has below n, in order. */
  function Gather<T>(f: nat -> Option<T>, n: nat): seq<T> {
    if n == 0 then []
    else match f(n - 1)
      case None => Gather(f, n - 1)
      case Some(v) => Gather(f, n - 1) + [v]
  }

  // ----- what each key sees -----

  lemma {:induction false} RemoveByKey(items: seq<Item>, store: Store, k: bytes)
    ensures var after := Remove(items, store).1;
            && (k in after <==> k in store && !HasKey(items, k))
            && (k in after ==> after[k] == store[k])
  {
    if items != [] { RemoveByKey(items[..|items| - 1], store, k); HasKeySnoc(items, k); }
  }

  predicate HasKey(items: seq<Item>, k: bytes) { exists i :: 0 <= i < |items| && items[i].key == k }

  lemma HasKeySnoc(items: seq<Item>, k: bytes)
    requires items != []
    ensures HasKey(items, k) <==> HasKey(items[..|items| - 1], k) || items[|items| - 1].key == k
  {
    var init := items[..|items| - 1];
    if HasKey(items, k) && items[|items| - 1].key != k {
      var i :| 0 <= i < |items| && items[i].key == k;
      assert init[i].key == k;
    }
    if HasKey(init, k) {
      var i :| 0 <= i < |init| && init[i].key == k;
      assert items[i].key == k;
    }
  }

  /** The last value given to a key, if any. */
  function LastValue(items: seq<Item>, k: bytes): Option<bytes> {
    if items == [] then None
    else if items[|items| - 1].key == k then Some(items[|items| - 1].value)
    else LastValue(items[..|items| - 1], k)
  }

  lemma {:induction false} AssignByKey(items: seq<Item>, store: Store, k: bytes)
    ensures var after, v := Assign(items, store), LastValue(items, k);
            && (k in after <==> k in store || v.Some?)
            && (k in after ==> after[k] == if v.Some? then v.value else store[k])
  {
    if items != [] { AssignByKey(items[..|items| - 1], store, k); }
  }

  lemma {:induction false} PieceHasKey(slotOf: SlotFn, items: seq<Item>, s: nat, k: bytes)
    ensures HasKey(Piece(slotOf, items, s), k) <==> slotOf(k) == s && HasKey(items, k)
  {
    if items != [] {
      var piece, init, last := Piece(slotOf, items, s), items[..|items| - 1], items[|items| - 1];
      PieceHasKey(slotOf, init, s, k);
      HasKeySnoc(items, k);
      if slotOf(last.key) == s {
        assert piece[..|piece| - 1] == Piece(slotOf, init, s);
        HasKeySnoc(piece, k);
      } else {
        assert piece == Piece(slotOf, init, s);
      }
    }
  }

  /** An item's slot has a piece. */
  lemma PieceOfItem(slotOf: SlotFn, items: seq<Item>, i: nat)
    requires i < |items|
    ensures Piece(slotOf, items, slotOf(items[i].key)) != []
  {
    var k := items[i].key;
    assert HasKey(items, k);
    PieceHasKey(slotOf, items, slotOf(k), k);
  }

  lemma {:induction false} PieceLastValue(slotOf: SlotFn, items: seq<Item>, s: nat, k: bytes)
    ensures LastValue(Piece(slotOf, items, s), k) == if slotOf(k) == s then LastValue(items, k) else None
  {
    if items != [] {
      var piece, init, last := Piece(slotOf, items, s), items[..|items| - 1], items[|items| - 1];
      PieceLastValue(slotOf, init, s, k);
      if slotOf(last.key) == s {
        assert piece[..|piece| - 1] == Piece(slotOf, init, s);
      } else {
        assert piece == Piece(slotOf, init, s);
      }
    }
  }

  /** A key sees the same in both stores. */
  predicate SameAt(a: Store, b: Store, k: bytes) {
    (k in a <==> k in b) && (k in a ==> a[k] == b[k])
  }

  /** A piece changes the keys of its own slot exactly as the whole command would, and no others. */
  lemma PieceIsLocal(kind: Kind, slotOf: SlotFn, items: seq<Item>, s: nat, before: Store, original: Store, k: bytes)
    requires slotOf(k) == s ==> SameAt(before, original, k)
    ensures var after := Execute(kind, Piece(slotOf, items, s), before).store;
            SameAt(after, if slotOf(k) == s then Execute(kind, items, original).store else before, k)
  {
    var piece := Piece(slotOf, items, s);
    match kind
    case MGet =>
    case Exists =>
    case Del =>
      RemoveByKey(piece, before, k);
      RemoveByKey(items, original, k);
      PieceHasKey(slotOf, items, s, k);
    case MSet =>
      AssignByKey(piece, before, k);
      AssignByKey(items, original, k);
      PieceLastValue(slotOf, items, s, k);
  }

  /** After slots below s have run, their keys are final and all other keys are untouched. */
  ghost predicate HalfDone(kind: Kind, slotOf: SlotFn, items: seq<Item>, s: nat, original: Store, now: Store) {
    forall k :: SameAt(now, if slotOf(k) < s then Execute(kind, items, original).store else original, k)
  }

  lemma PieceAdvances(kind: Kind, slotOf: SlotFn, items: seq<Item>, s: nat, original: Store, now: Store)
    requires HalfDone(kind, slotOf, items, s, original, now)
    ensures HalfDone(kind, slotOf, items, s + 1, original, Execute(kind, Piece(slotOf, items, s), now).store)
  {
    var final, after := Execute(kind, items, original).store, Execute(kind, Piece(slotOf, items, s), now).store;
    forall k ensures SameAt(after, if slotOf(k) < s + 1 then final else original, k) {
      assert SameAt(now, if slotOf(k) < s then final else original, k);
      PieceIsLocal(kind, slotOf, items, s, now, original, k);
    }
  }

  lemma EmptyPieceChangesNothing(kind: Kind, store: Store)
    ensures Execute(kind, [], store).store == store
  {
  }

  /** The reply of slot s when it runs in its turn is the reply it would give on the original store. */
  lemma PieceReply(kind: Kind, slotOf: SlotFn, items: seq<Item>, s: nat, original: Store, now: Store)
    requires HalfDone(kind, slotOf, items, s, original, now)
    ensures var piece := Piece(slotOf, items, s);
            Execute(kind, piece, now).reply == Execute(kind, piece, original).reply
  {
    var piece := Piece(slotOf, items, s);
    forall i | 0 <= i < |piece| ensures SameAt(now, original, piece[i].key) {
      assert HasKey(piece, piece[i].key);
      PieceHasKey(slotOf, items, s, piece[i].key);
      assert SameAt(now, if slotOf(piece[i].key) < s then Execute(kind, items, original).store else original, piece[i].key);
    }
    match kind
    case MGet => assert Lookups(piece, now) == Lookups(piece, original);
    case Exists => CountAgrees(piece, now, original);
    case Del => RemoveAgrees(piece, now, original);
    case MSet =>
  }

  lemma {:induction false} CountAgrees(items: seq<Item>, a: Store, b: Store)
    requires forall i :: 0 <= i < |items| ==> SameAt(a, b, items[i].key)
    ensures CountPresent(items, a) == CountPresent(items, b)
  {
    if items != [] {
      var init := items[..|items| - 1];
      assert forall i :: 0 <= i < |init| ==> init[i] == items[i];
      CountAgrees(init, a, b);
    }
  }

  lemma {:induction false} RemoveAgrees(items: seq<Item>, a: Store, b: Store)
    requires forall i :: 0 <= i < |items| ==> SameAt(a, b, items[i].key)
    ensures Remove(items, a).0 == Remove(items, b).0
  {
    if items != [] {
      var init, k := items[..|items| - 1], items[|items| - 1].key;
      assert forall i :: 0 <= i < |init| ==> init[i] == items[i];
      RemoveAgrees(init, a, b);
      RemoveByKey(init, a, k);
      RemoveByKey(init, b, k);
    }
  }

  /** What a slot with items would reply if its piece ran on the original store. */
  function AnswerOf(kind: Kind, slotOf: SlotFn, items: seq<Item>, original: Store): nat -> Option<Answer> {
    (s: nat) =>
      var piece := Piece(slotOf, items, s);
      if piece == [] then None else Some(Answer(s, Execute(kind, piece, original).reply))
  }

  /** One slot of RunPieces, with the outcomes so far named. */
  lemma RunOnePiece(kind: Kind, slotOf: SlotFn, items: seq<Item>, n: nat, store: Store,
                    before: (seq<Answer>, Store), piece: seq<Item>, o: Outcome)
    requires before == RunPieces(kind, slotOf, items, n, store)
    requires piece == Piece(slotOf, items, n) && o == Execute(kind, piece, before.1)
    ensures RunPieces(kind, slotOf, items, n + 1, store)
         == (if piece == [] then before.0 else before.0 + [Answer(n, o.reply)], o.store)
  {
    if piece == [] { EmptyPieceChangesNothing(kind, before.1); }
  }

  /** After the pieces below n the store is half done, and every slot has replied as on the original store. */
  lemma {:induction false} PiecesSoFar(kind: Kind, slotOf: SlotFn, items: seq<Item>, n: nat, store: Store,
                                       f: nat -> Option<Answer>)
    requires f == AnswerOf(kind, slotOf, items, store)
    ensures RunPieces(kind, slotOf, items, n, store).0 == Gather(f, n)
    ensures HalfDone(kind, slotOf, items, n, store, RunPieces(kind, slotOf, items, n, store).1)
  {
    if n > 0 {
      var s := n - 1;
      PiecesSoFar(kind, slotOf, items, s, store, f);
      var before := RunPieces(kind, slotOf, items, s, store);
      var piece := Piece(slotOf, items, s);
      var o := Execute(kind, piece, before.1);
      RunOnePiece(kind, slotOf, items, s, store, before, piece, o);
      PieceAdvances(kind, slotOf, items, s, store, before.1);
      PieceReply(kind, slotOf, items, s, store, before.1);
      assert f(s) == if piece == [] then None else Some(Answer(s, o.reply));
    }
  }

  lemma AllSlotsDone(kind: Kind, slotOf: SlotFn, items: seq<Item>, n: nat, original: Store, now: Store)
    requires HalfDone(kind, slotOf, items, n, original, now) && forall k :: slotOf(k) < n
    ensures now == Execute(kind, items, original).store
  {
    var final := Execute(kind, items, original).store;
    forall k ensures SameAt(now, final, k) {
      assert SameAt(now, if slotOf(k) < n then final else original, k);
    }
    StoresEqual(now, final);
  }

  lemma StoresEqual(a: Store, b: Store)
    requires forall k :: SameAt(a, b, k)
    ensures a == b
  {
    forall k ensures k in a <==> k in b { assert SameAt(a, b, k); }
    forall k | k in a ensures a[k] == b[k] { assert SameAt(a, b, k); }
  }

  /** All pieces run: the store is the direct one and every slot replied as on the original store. */
  lemma PiecesReachFinalStore(kind: Kind, slotOf: SlotFn, items: seq<Item>, n: nat, store: Store, f: nat -> Option<Answer>)
    requires f == AnswerOf(kind, slotOf, items, store) && forall k :: slotOf(k) < n
    ensures RunPieces(kind, slotOf, items, n, store) == (Gather(f, n), Execute(kind, items, store).store)
  {
    PiecesSoFar(kind, slotOf, items, n, store, f);
    AllSlotsDone(kind, slotOf, items, n, store, RunPieces(kind, slotOf, items, n, store).1);
  }
}
