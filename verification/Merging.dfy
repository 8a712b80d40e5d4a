/** Merging the replies of a command's pieces: sums for DEL and EXISTS, the backwards element transfer for MGET. */
module Merging {
  import opened Bytes
  import opened Resp
  import opened Sharding

  /** A sub-command with the reply it got, NULL if none. */
  datatype SubCommand = SubCommand(slot: nat, reply: Option<Reply>)

  datatype MergeError = ReplyTypeError | SubReplyIsNull | SubReplyElements

  datatype Merge = Merged(reply: Reply) | SubError(reply: Reply) | NoReply | MergeFailed(error: MergeError)

  // ----- the checks of the first pass -----

  predicate IsError(r: Reply) { r.Text? && r.kind.ErrorType? }

  /** The reply type a sub-command must have. */
  predicate FitsKind(kind: Kind, r: Reply) {
    match kind
    case MGet => r.Aggregate? && r.kind.ArrayType?
    case Del => r.Integer?
    case Exists => r.Integer?
    case MSet => r == Text(StatusType, OK_TEXT)
  }

  /** What the first unfit reply, in list order, makes of the merge. */
  function FirstUnfit(kind: Kind, commands: seq<SubCommand>): Option<Merge> {
    if commands == [] then None
    else match FirstUnfit(kind, commands[..|commands| - 1])
      case Some(m) => Some(m)
      case None =>
        match commands[|commands| - 1].reply
        case None => Some(NoReply)
        case Some(r) =>
          if IsError(r) then Some(SubError(r))
          else if !FitsKind(kind, r) then Some(MergeFailed(ReplyTypeError))
          else None
  }

  lemma {:induction false} FirstUnfitOfPrefix(kind: Kind, commands: seq<SubCommand>, j: nat)
    requires j <= |commands|
    ensures FirstUnfit(kind, commands[..j]).Some? ==> FirstUnfit(kind, commands) == FirstUnfit(kind, commands[..j])
    ensures FirstUnfit(kind, commands).None? ==>
              forall i :: j <= i < |commands| ==> commands[i].reply.Some? && FitsKind(kind, commands[i].reply.value)
    decreases |commands| - j
  {
    if j == |commands| {
      assert commands[..j] == commands;
    } else {
      assert commands[..j + 1][..j] == commands[..j];
      FirstUnfitOfPrefix(kind, commands, j + 1);
    }
  }

  /** A reply of the kind's own type: an array, an integer, or the status OK. */
  predicate Fit(kind: Kind, c: SubCommand) {
    c.reply.Some? &&
    var r := c.reply.value;
    match kind
    case MGet => r.Aggregate? && r.kind == ArrayType
    case Del => r.Integer?
    case Exists => r.Integer?
    case MSet => r == Text(StatusType, [79, 75])
  }

  /** What an unfit reply makes of the whole: no reply, the error passed on, or a type error. */
  function Unfit(c: SubCommand): Merge {
    match c.reply
    case None => NoReply
    case Some(r) => if r.Text? && r.kind == ErrorType then SubError(r) else MergeFailed(ReplyTypeError)
  }

  ghost predicate FirstUnfitAt(kind: Kind, commands: seq<SubCommand>, j: nat) {
    j < |commands| && !Fit(kind, commands[j]) && forall i :: 0 <= i < j ==> Fit(kind, commands[i])
  }

  /** The first unfit reply in list order decides; there is none exactly when all fit. */
  lemma {:induction false} FirstUnfitIs(kind: Kind, commands: seq<SubCommand>)
    ensures forall j: nat :: FirstUnfitAt(kind, commands, j) ==> FirstUnfit(kind, commands) == Some(Unfit(commands[j]))
    ensures FirstUnfit(kind, commands).None? <==> forall i :: 0 <= i < |commands| ==> Fit(kind, commands[i])
  {
    if commands != [] {
      var init, last := commands[..|commands| - 1], commands[|commands| - 1];
      FirstUnfitIs(kind, init);
      assert forall i :: 0 <= i < |init| ==> commands[i] == init[i];
      forall j: nat | FirstUnfitAt(kind, commands, j) ensures FirstUnfit(kind, commands) == Some(Unfit(commands[j])) {
        if j < |init| { assert FirstUnfitAt(kind, init, j); }
      }
    }
  }

  function Total(commands: seq<SubCommand>): int {
    if commands == [] then 0
    else
      var last := commands[|commands| - 1].reply;
      Total(commands[..|commands| - 1]) + (if last.Some? && last.value.Integer? then last.value.value else 0)
  }

  // ----- the element transfer -----

  /** How many of the first i keys went to slot s. */
  function Rank(frag: seq<nat>, i: nat, s: nat): nat
    requires i <= |frag|
  {
    if i == 0 then 0 else Rank(frag, i - 1, s) + (if frag[i - 1] == s then 1 else 0)
  }

  lemma {:induction false} RankGrows(frag: seq<nat>, i: nat, j: nat, s: nat)
    requires i <= j <= |frag|
    ensures Rank(frag, i, s) <= Rank(frag, j, s)
    ensures i < j && frag[i] == s ==> Rank(frag, i, s) < Rank(frag, j, s)
    decreases j - i
  {
    if i < j { RankGrows(frag, i + 1, j, s); }
  }

  /** The elements each slot's array reply still owns. */
  type Ownership = map<nat, seq<Reply>>

  /** Every key's slot has a reply with enough elements for all its keys. */
  ghost predicate Enough(frag: seq<nat>, owned: Ownership) {
    forall i :: 0 <= i < |frag| ==> frag[i] in owned && Rank(frag, |frag|, frag[i]) <= |owned[frag[i]]|
  }

  function OwnedBy(commands: seq<SubCommand>): Ownership {
    if commands == [] then map[]
    else
      var c := commands[|commands| - 1];
      OwnedBy(commands[..|commands| - 1])[c.slot := if c.reply.Some? && c.reply.value.Aggregate? then c.reply.value.elements else []]
  }

  /** Key j's slot has an element for it after serving the later keys. */
  ghost predicate Supplied(frag: seq<nat>, owned: Ownership, j: nat)
    requires j < |frag|
  {
    frag[j] in owned && 1 <= Rank(frag, |frag|, frag[j]) - Rank(frag, j, frag[j]) <= |owned[frag[j]]|
  }

  /** The element key j receives: the one before those given to the later keys of its slot. */
  ghost function Share(frag: seq<nat>, owned: Ownership, j: nat): Reply
    requires j < |frag| && Supplied(frag, owned, j)
  {
    var all := owned[frag[j]];
    all[|all| - (Rank(frag, |frag|, frag[j]) - Rank(frag, j, frag[j]))]
  }

  /** Slot s has given one element to each of its keys among i, i + 1, ... and still owns the others. */
  ghost predicate TakenFrom(frag: seq<nat>, owned: Ownership, left: Ownership, i: nat, s: nat)
    requires i <= |frag| && s in owned && s in left
  {
    var given := Rank(frag, |frag|, s) - Rank(frag, i, s);
    0 <= given <= |owned[s]| && left[s] == owned[s][..|owned[s]| - given]
  }

  ghost predicate Taken(frag: seq<nat>, owned: Ownership, left: Ownership, i: nat)
    requires i <= |frag|
  {
    left.Keys == owned.Keys && forall s :: s in owned ==> TakenFrom(frag, owned, left, i, s)
  }

  /**
   The MGET loop of command_post_fragment, from the last key to the first: each step moves the last
   element a slot still owns to the key's place. With enough elements every key gets its own share
   and exactly the shares have left their owners; otherwise the merge fails.
   */
  method TransferElements(frag: seq<nat>, owned: Ownership) returns (element: array<Option<Reply>>, left: Ownership, ok: bool)
    ensures fresh(element) && element.Length == |frag|
    ensures ok <==> Enough(frag, owned)
    ensures ok ==> forall i :: 0 <= i < |frag| ==> Supplied(frag, owned, i) && element[i] == Some(Share(frag, owned, i))
    ensures ok ==> Taken(frag, owned, left, 0)
  {
    element := new Option<Reply>[|frag|](i => None);
    left := owned;
    var i := |frag|;
    while i > 0
      invariant 0 <= i <= |frag| && fresh(element) && element.Length == |frag|
      invariant Taken(frag, owned, left, i)
      invariant forall j :: i <= j < |frag| ==> Supplied(frag, owned, j) && element[j] == Some(Share(frag, owned, j))
    {
      i := i - 1;
      var s := frag[i];
      if s !in left || |left[s]| == 0 {
        ShortOfElements(frag, owned, left, i);
        return element, left, false;
      }
      TakeOne(frag, owned, left, i);
      element[i] := Some(left[s][|left[s]| - 1]);
      left := left[s := left[s][..|left[s]| - 1]];
    }
    ok := true;
    AllSupplied(frag, owned);
  }

  lemma TakeOne(frag: seq<nat>, owned: Ownership, left: Ownership, i: nat)
    requires i < |frag| && Taken(frag, owned, left, i + 1)
    requires frag[i] in left && |left[frag[i]]| > 0
    ensures var s := frag[i];
            && Supplied(frag, owned, i) && left[s][|left[s]| - 1] == Share(frag, owned, i)
            && Taken(frag, owned, left[s := left[s][..|left[s]| - 1]], i)
  {
    var s := frag[i];
    assert TakenFrom(frag, owned, left, i + 1, s);
    RankGrows(frag, i + 1, |frag|, s);
    var after := left[s := left[s][..|left[s]| - 1]];
    forall t | t in owned ensures TakenFrom(frag, owned, after, i, t) {
      assert TakenFrom(frag, owned, left, i + 1, t);
    }
  }

  lemma ShortOfElements(frag: seq<nat>, owned: Ownership, left: Ownership, i: nat)
    requires i < |frag| && Taken(frag, owned, left, i + 1)
    requires frag[i] !in left || |left[frag[i]]| == 0
    ensures !Enough(frag, owned)
  {
    var s := frag[i];
    if s in owned {
      assert TakenFrom(frag, owned, left, i + 1, s);
      RankGrows(frag, 0, i, s);
    }
  }

  lemma AllSupplied(frag: seq<nat>, owned: Ownership)
    requires forall j :: 0 <= j < |frag| ==> Supplied(frag, owned, j)
    ensures Enough(frag, owned)
  {
    forall i | 0 <= i < |frag| ensures frag[i] in owned && Rank(frag, |frag|, frag[i]) <= |owned[frag[i]]| {
      assert Supplied(frag, owned, i);
      var f := FirstOf(frag, i);
      assert Supplied(frag, owned, f);
    }
  }

  /** The first key of a slot. */
  lemma {:induction false} FirstOf(frag: seq<nat>, i: nat) returns (f: nat)
    requires i < |frag|
    ensures f <= i && frag[f] == frag[i] && Rank(frag, f, frag[i]) == 0
  {
    f := i;
    while Rank(frag, f, frag[i]) != 0
      invariant f <= i && frag[f] == frag[i]
      decreases f
    {
      f := PreviousOf(frag, f);
    }
  }

  lemma {:induction false} PreviousOf(frag: seq<nat>, i: nat) returns (p: nat)
    requires i < |frag| && Rank(frag, i, frag[i]) > 0
    ensures p < i && frag[p] == frag[i]
  {
    p := i - 1;
    while frag[p] != frag[i]
      invariant p < i && Rank(frag, p + 1, frag[i]) > 0
      decreases p
    {
      p := p - 1;
    }
  }

  // ----- command_post_fragment -----

  method PostFragment(kind: Kind, frag: seq<nat>, commands: seq<SubCommand>) returns (m: Merge, left: Ownership)
    ensures forall j: nat :: FirstUnfitAt(kind, commands, j) ==> m == Unfit(commands[j])
    ensures var unfit := FirstUnfit(kind, commands); unfit.Some? ==> m == unfit.value
    ensures FirstUnfit(kind, commands).None? ==>
              match kind
              case MGet =>
                var owned := OwnedBy(commands);
                if Enough(frag, owned) then
                  && Taken(frag, owned, left, 0)
                  && m.Merged? && m.reply.Aggregate? && m.reply.kind.ArrayType? && |m.reply.elements| == |frag|
                  && forall i :: 0 <= i < |frag| ==> Supplied(frag, owned, i) && m.reply.elements[i] == Share(frag, owned, i)
                else m == MergeFailed(SubReplyElements)
              case Del => m == Merged(Integer(Total(commands)))
              case Exists => m == Merged(Integer(Total(commands)))
              case MSet => m == Merged(Text(StatusType, OK_TEXT))
  {
    FirstUnfitIs(kind, commands);
    left := map[];
    var count := 0;
    for j := 0 to |commands|
      invariant FirstUnfit(kind, commands[..j]).None?
      invariant kind.Del? || kind.Exists? ==> count == Total(commands[..j])
    {
      assert commands[..j + 1][..j] == commands[..j];
      FirstUnfitOfPrefix(kind, commands, j + 1);
      match commands[j].reply
      case None => return NoReply, left;
      case Some(r) =>
        if IsError(r) { return SubError(r), left; }
        if !FitsKind(kind, r) { return MergeFailed(ReplyTypeError), left; }
        if kind.Del? || kind.Exists? { count := count + r.value; }
    }
    assert commands[..|commands|] == commands;
    match kind
    case MGet =>
      var element, rest, ok := TransferElements(frag, OwnedBy(commands));
      left := rest;
      if !ok { return MergeFailed(SubReplyElements), left; }
      m := Merged(Aggregate(ArrayType, seq(|frag|, i requires 0 <= i < |frag| reads element requires element[i].Some? => element[i].value)));
    case Del => m := Merged(Integer(count));
    case Exists => m := Merged(Integer(count));
    case MSet => m := Merged(Text(StatusType, OK_TEXT));
  }

  // ----- merging what the pieces replied -----

  /** Item i is element Rank(i) of its slot's piece. */
  lemma {:induction false} PlaceInPiece(slotOf: SlotFn, items: seq<Item>, frag: seq<nat>, n: nat, s: nat)
    requires frag == SlotsOf(slotOf, items) && n <= |items|
    ensures |Piece(slotOf, items[..n], s)| == Rank(frag, n, s)
    ensures forall i :: 0 <= i < n && frag[i] == s ==>
              Rank(frag, i, s) < Rank(frag, n, s) && Piece(slotOf, items[..n], s)[Rank(frag, i, s)] == items[i]
  {
    if n > 0 {
      PlaceInPiece(slotOf, items, frag, n - 1, s);
      var part := items[..n];
      assert part[..n - 1] == items[..n - 1] && part[n - 1] == items[n - 1];
      forall i | 0 <= i < n && frag[i] == s
        ensures Rank(frag, i, s) < Rank(frag, n, s) && Piece(slotOf, part, s)[Rank(frag, i, s)] == items[i]
      {
        if i < n - 1 { RankGrows(frag, i, n - 1, s); }
      }
    }
  }

  /** The integer a piece contributes. */
  function Amount(kind: Kind, items: seq<Item>, store: Store): nat {
    if kind.Del? then Remove(items, store).0 else CountPresent(items, store)
  }

  /** What each slot's piece contributes. */
  function AmountOf(kind: Kind, slotOf: SlotFn, items: seq<Item>, store: Store): nat -> nat {
    (s: nat) => Amount(kind, Piece(slotOf, items, s), store)
  }

  function Sum(amount: nat -> nat, n: nat): nat {
    if n == 0 then 0 else Sum(amount, n - 1) + amount(n - 1)
  }

  /** Two sums that differ in one slot only. */
  lemma {:induction false} SumDiffersAt(a: nat -> nat, b: nat -> nat, t: nat, n: nat)
    requires forall u :: u != t ==> a(u) == b(u)
    ensures Sum(a, n) - Sum(b, n) == if t < n then a(t) - b(t) else 0
  {
    if n > 0 { SumDiffersAt(a, b, t, n - 1); }
  }

  /** What the last item adds to the whole count, it adds to its own slot's count. */
  lemma LastItemCounts(kind: Kind, slotOf: SlotFn, init: seq<Item>, last: Item, store: Store)
    ensures Amount(kind, Piece(slotOf, init, slotOf(last.key)) + [last], store) - Amount(kind, Piece(slotOf, init, slotOf(last.key)), store)
         == Amount(kind, init + [last], store) - Amount(kind, init, store)
  {
    var s, k := slotOf(last.key), last.key;
    var piece := Piece(slotOf, init, s);
    assert (piece + [last])[..|piece|] == piece && (init + [last])[..|init|] == init;
    PieceHasKey(slotOf, init, s, k);
    RemoveByKey(piece, store, k);
    RemoveByKey(init, store, k);
  }

  lemma SumSnoc(kind: Kind, slotOf: SlotFn, init: seq<Item>, last: Item, store: Store, n: nat)
    requires slotOf(last.key) < n
    ensures Sum(AmountOf(kind, slotOf, init + [last], store), n) - Sum(AmountOf(kind, slotOf, init, store), n)
         == Amount(kind, init + [last], store) - Amount(kind, init, store)
  {
    var a, b := AmountOf(kind, slotOf, init + [last], store), AmountOf(kind, slotOf, init, store);
    var t := slotOf(last.key);
    forall u: nat | u != t ensures a(u) == b(u) {
      PieceSnoc(slotOf, init, last, u);
      assert Piece(slotOf, init, u) + [] == Piece(slotOf, init, u);
    }
    SumDiffersAt(a, b, t, n);
    PieceSnoc(slotOf, init, last, t);
    LastItemCounts(kind, slotOf, init, last, store);
  }

  lemma {:induction false} SumOfNothing(amount: nat -> nat, n: nat)
    requires forall t :: amount(t) == 0
    ensures Sum(amount, n) == 0
  {
    if n > 0 { SumOfNothing(amount, n - 1); }
  }

  /** The pieces' counts add up to the command's count, repeated keys included. */
  lemma {:induction false} SumIsAmount(kind: Kind, slotOf: SlotFn, items: seq<Item>, store: Store, n: nat)
    requires forall k :: slotOf(k) < n
    ensures Sum(AmountOf(kind, slotOf, items, store), n) == Amount(kind, items, store)
    decreases |items|
  {
    if items == [] {
      SumOfNothing(AmountOf(kind, slotOf, items, store), n);
    } else {
      var init, last := items[..|items| - 1], items[|items| - 1];
      assert items == init + [last];
      SumIsAmount(kind, slotOf, init, store, n);
      SumSnoc(kind, slotOf, init, last, store, n);
    }
  }

  // ----- the pieces' answers, merged -----

  /** The sub-commands after each got its answer. */
  function Answered(answers: seq<Answer>): (cs: seq<SubCommand>)
    ensures |cs| == |answers|
    ensures forall i :: 0 <= i < |cs| ==> cs[i] == SubCommand(answers[i].slot, Some(answers[i].reply))
  {
    seq(|answers|, i requires 0 <= i < |answers| => SubCommand(answers[i].slot, Some(answers[i].reply)))
  }

  lemma {:induction false} GatheredAnswers(f: nat -> Option<Answer>, n: nat)
    requires forall s :: f(s).Some? ==> f(s).value.slot == s
    ensures forall i :: 0 <= i < |Gather(f, n)| ==> f(Gather(f, n)[i].slot) == Some(Gather(f, n)[i])
  {
    if n > 0 { GatheredAnswers(f, n - 1); }
  }

  lemma {:induction false} AnswerIsGathered(f: nat -> Option<Answer>, n: nat, t: nat) returns (i: nat)
    requires t < n && f(t).Some?
    ensures i < |Gather(f, n)| && Gather(f, n)[i] == f(t).value
  {
    if t == n - 1 {
      i := |Gather(f, n)| - 1;
    } else {
      i := AnswerIsGathered(f, n - 1, t);
    }
  }

  /** The first pass is silent when every reply fits. */
  lemma {:induction false} FitWithoutError(kind: Kind, commands: seq<SubCommand>)
    requires forall i :: 0 <= i < |commands| ==> commands[i].reply.Some? && FitsKind(kind, commands[i].reply.value)
    ensures FirstUnfit(kind, commands).None?
  {
    if commands != [] {
      var init := commands[..|commands| - 1];
      assert forall i :: 0 <= i < |init| ==> init[i] == commands[i];
      FitWithoutError(kind, init);
    }
  }

  lemma AnsweredSnoc(answers: seq<Answer>, a: Answer)
    requires a.reply.Integer?
    ensures Total(Answered(answers + [a])) == Total(Answered(answers)) + a.reply.value
  {
    var all := Answered(answers + [a]);
    assert all[..|all| - 1] == Answered(answers);
  }

  /** What a DEL or EXISTS piece replies. */
  lemma ReplyIsAmount(kind: Kind, items: seq<Item>, store: Store)
    requires kind.Del? || kind.Exists?
    ensures Execute(kind, items, store).reply == Integer(Amount(kind, items, store))
    ensures items == [] ==> Amount(kind, items, store) == 0
  {
  }

  lemma {:induction false} TotalOfGathered(f: nat -> Option<Answer>, amount: nat -> nat, n: nat)
    requires forall t :: f(t).None? ==> amount(t) == 0
    requires forall t :: f(t).Some? ==> f(t).value.reply == Integer(amount(t))
    ensures Total(Answered(Gather(f, n))) == Sum(amount, n)
  {
    if n > 0 {
      TotalOfGathered(f, amount, n - 1);
      if f(n - 1).Some? { AnsweredSnoc(Gather(f, n - 1), f(n - 1).value); }
    }
  }

  lemma TotalIsSum(kind: Kind, slotOf: SlotFn, items: seq<Item>, store: Store, n: nat, f: nat -> Option<Answer>)
    requires (kind.Del? || kind.Exists?) && f == AnswerOf(kind, slotOf, items, store)
    ensures Total(Answered(Gather(f, n))) == Sum(AmountOf(kind, slotOf, items, store), n)
  {
    var amount := AmountOf(kind, slotOf, items, store);
    forall t: nat ensures if f(t).None? then amount(t) == 0 else f(t).value.reply == Integer(amount(t)) {
      ReplyIsAmount(kind, Piece(slotOf, items, t), store);
    }
    TotalOfGathered(f, amount, n);
  }

  lemma {:induction false} OwnedOfSlot(commands: seq<SubCommand>, s: nat, es: seq<Reply>, at: nat)
    requires at < |commands| && commands[at].slot == s
    requires forall i :: 0 <= i < |commands| && commands[i].slot == s ==>
               commands[i].reply == Some(Aggregate(ArrayType, es))
    ensures s in OwnedBy(commands) && OwnedBy(commands)[s] == es
  {
    var init, last := commands[..|commands| - 1], commands[|commands| - 1];
    if last.slot != s {
      assert init[at] == commands[at];
      assert forall i :: 0 <= i < |init| ==> init[i] == commands[i];
      OwnedOfSlot(init, s, es, at);
    }
  }

  /** A slot's reply owns the lookups of its piece. */
  lemma OwnedIsLookups(slotOf: SlotFn, items: seq<Item>, store: Store, s: nat, piece: seq<Item>, es: seq<Reply>,
                       n: nat, f: nat -> Option<Answer>)
    requires piece == Piece(slotOf, items, s) && piece != [] && s < n
    requires f == AnswerOf(MGet, slotOf, items, store) && es == Lookups(piece, store)
    ensures var owned := OwnedBy(Answered(Gather(f, n))); s in owned && owned[s] == es
  {
    var a := Answer(s, Aggregate(ArrayType, es));
    assert f(s) == Some(a);
    var at := AnswerIsGathered(f, n, s);
    GatheredAnswers(f, n);
    var answers := Gather(f, n);
    forall j | 0 <= j < |answers| && answers[j].slot == s ensures answers[j] == a {
      assert f(s) == Some(answers[j]);
    }
    OwnedOfSlot(Answered(answers), s, es, at);
  }

  /** Every key's share is what a lookup of that key gives. */
  lemma ShareIsLookup(slotOf: SlotFn, items: seq<Item>, store: Store, frag: seq<nat>, owned: Ownership, i: nat, s: nat,
                      piece: seq<Item>)
    requires frag == SlotsOf(slotOf, items) && i < |items| && s == frag[i]
    requires piece == Piece(slotOf, items, s) && s in owned && owned[s] == Lookups(piece, store)
    ensures Supplied(frag, owned, i) && Share(frag, owned, i) == Lookup(store, items[i].key)
    ensures frag[i] in owned && Rank(frag, |frag|, frag[i]) <= |owned[frag[i]]|
  {
    assert items[..|items|] == items;
    PlaceInPiece(slotOf, items, frag, |items|, s);
  }

  lemma AnswersFit(kind: Kind, slotOf: SlotFn, items: seq<Item>, store: Store, n: nat, f: nat -> Option<Answer>)
    requires f == AnswerOf(kind, slotOf, items, store)
    ensures FirstUnfit(kind, Answered(Gather(f, n))).None?
  {
    GatheredAnswers(f, n);
    var commands := Answered(Gather(f, n));
    forall i | 0 <= i < |commands| ensures commands[i].reply.Some? && FitsKind(kind, commands[i].reply.value) {
      assert f(commands[i].slot) == Some(Gather(f, n)[i]);
    }
    FitWithoutError(kind, commands);
  }

  /** What the merge of the pieces' answers rests on, command by command. */
  ghost predicate Mergeable(kind: Kind, slotOf: SlotFn, items: seq<Item>, store: Store, commands: seq<SubCommand>) {
    var frag, owned := SlotsOf(slotOf, items), OwnedBy(commands);
    && FirstUnfit(kind, commands).None?
    && (kind.MGet? ==>
          && Enough(frag, owned)
          && forall i :: 0 <= i < |items| ==>
               Supplied(frag, owned, i) && Share(frag, owned, i) == Lookup(store, items[i].key))
    && (kind.Del? || kind.Exists? ==> Total(commands) == Amount(kind, items, store))
  }

  lemma AnswersMerge(kind: Kind, slotOf: SlotFn, items: seq<Item>, store: Store, n: nat, f: nat -> Option<Answer>)
    requires f == AnswerOf(kind, slotOf, items, store) && forall k :: slotOf(k) < n
    ensures Mergeable(kind, slotOf, items, store, Answered(Gather(f, n)))
  {
    AnswersFit(kind, slotOf, items, store, n, f);
    var frag := SlotsOf(slotOf, items);
    if kind.MGet? {
      var owned := OwnedBy(Answered(Gather(f, n)));
      forall i | 0 <= i < |items|
        ensures Supplied(frag, owned, i) && Share(frag, owned, i) == Lookup(store, items[i].key)
        ensures frag[i] in owned && Rank(frag, |frag|, frag[i]) <= |owned[frag[i]]|
      {
        var s := frag[i];
        var piece := Piece(slotOf, items, s);
        PieceOfItem(slotOf, items, i);
        OwnedIsLookups(slotOf, items, store, s, piece, Lookups(piece, store), n, f);
        ShareIsLookup(slotOf, items, store, frag, owned, i, s, piece);
      }
    } else if !kind.MSet? {
      TotalIsSum(kind, slotOf, items, store, n, f);
      SumIsAmount(kind, slotOf, items, store, n);
    }
  }

  method MergePieces(kind: Kind, slotOf: SlotFn, items: seq<Item>, answers: seq<Answer>, ghost store: Store, ghost n: nat)
    returns (m: Merge)
    requires forall k :: slotOf(k) < n
    requires answers == Gather(AnswerOf(kind, slotOf, items, store), n)
    ensures m == Merged(Execute(kind, items, store).reply)
  {
    AnswersMerge(kind, slotOf, items, store, n, AnswerOf(kind, slotOf, items, store));
    var commands := Answered(answers);
    var left: Ownership;
    m, left := PostFragment(kind, SlotsOf(slotOf, items), commands);
    if kind.MGet? {
      assert m.reply.elements == Lookups(items, store);
    }
  }

  /**
   Splitting preserves meaning: the pieces of a command run slot after slot against the store, then
   merged, give the reply of the whole command run at once and leave the same store, for every item
   list, repeated keys included.
   */
  method RunSplit(kind: Kind, slotOf: SlotFn, items: seq<Item>, store: Store, n: nat) returns (m: Merge, final: Store)
    requires forall k :: slotOf(k) < n
    ensures m == Merged(Execute(kind, items, store).reply)
    ensures final == Execute(kind, items, store).store
  {
    var (answers, after) := RunPieces(kind, slotOf, items, n, store);
    final := after;
    PiecesReachFinalStore(kind, slotOf, items, n, store, AnswerOf(kind, slotOf, items, store));
    m := MergePieces(kind, slotOf, items, answers, store, n);
  }
}
