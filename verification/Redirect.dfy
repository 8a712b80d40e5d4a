/** Executing a command with redirects: MOVED, ASK and the transient cluster errors, on one shared retry budget. */
module Redirect {
  import opened Bytes

  /** What ctx_get_by_node yields: no context, one in error, or a usable one. */
  datatype Link = Missing | Broken | Up

  /** The kinds of reply the client tells apart. */
  datatype Status = Fine | ErrorReply | Moved | Ask | TryAgain | CrossSlot | ClusterDown

  /** What one round of the loop meets outside the client. */
  datatype Weather = Weather(
    nodeKnown: bool, link: Link, otherNode: bool, otherLink: Link, appended: bool, reply: Option<Status>,
    routeUpdated: bool, askNode: bool, askLink: Link, askingAnswered: bool)

  type World = nat -> Weather

  datatype Failure = NoNode | NoContext | NoReachableNode | TooManyRetries | NotSent | NoReply | NoRoute | NoAskNode

  datatype Outcome = Replied(status: Status) | Failed(reason: Failure)

  /** What goes over the wire: the user's command with the reply it gets, or ASKING. */
  datatype Wire = Command(reply: Option<Status>) | Asking

  /** How one round ends. */
  datatype Turn = End(outcome: Outcome, wire: seq<Wire>, retry: nat) | Again(asking: bool, wire: seq<Wire>, retry: nat)

  datatype Connection = Connected(retry: nat) | Unconnected(reason: Failure, retry: nat)

  /** A connection for the slot's node, or at the price of a retry for any connected node. */
  function Connect(w: Weather, retry: nat, max: int): Connection {
    if !w.nodeKnown then Unconnected(NoNode, retry)
    else if w.link.Missing? then Unconnected(NoContext, retry)
    else if w.link.Up? then Connected(retry)
    else if !w.otherNode then Unconnected(NoReachableNode, retry)
    else if retry + 1 > max then Unconnected(TooManyRetries, retry + 1)
    else if w.otherLink.Up? then Connected(retry + 1)
    else Unconnected(NoContext, retry + 1)
  }

  predicate IsRedirect(s: Status) { !s.Fine? && !s.ErrorReply? }

  /** After a cluster error within the budget. */
  function Redirected(w: Weather, s: Status, retry: nat): Turn {
    var sent := [Command(Some(s))];
    match s
    case Moved => if w.routeUpdated then Again(false, sent, retry) else End(Failed(NoRoute), sent, retry)
    case Ask =>
      if !w.askNode then End(Failed(NoAskNode), sent, retry)
      else if !w.askLink.Up? then End(Failed(NoContext), sent, retry)
      else if w.askingAnswered then Again(true, sent + [Asking], retry)
      else End(Failed(NoReply), sent + [Asking], retry)
    case _ => Again(false, sent, retry)
  }

  /** One send and what its reply leads to. */
  function SendOnce(w: Weather, retry: nat, max: int): Turn {
    if !w.appended then End(Failed(NotSent), [], retry)
    else match w.reply
      case None => End(Failed(NoReply), [Command(None)], retry)
      case Some(s) =>
        if !IsRedirect(s) then End(Replied(s), [Command(Some(s))], retry)
        else if retry + 1 > max then End(Failed(TooManyRetries), [Command(Some(s))], retry + 1)
        else Redirected(w, s, retry + 1)
  }

  function Round(w: Weather, asking: bool, retry: nat, max: int): (t: Turn)
    ensures t.Again? ==> retry < t.retry <= max
  {
    if asking then SendOnce(w, retry, max)
    else match Connect(w, retry, max)
      case Connected(r) => SendOnce(w, r, max)
      case Unconnected(reason, r) => End(Failed(reason), [], r)
  }

  datatype Run = Run(outcome: Outcome, wire: seq<Wire>, retry: nat, clock: nat)

  /** All rounds of one command. */
  function Execute(world: World, clock: nat, asking: bool, retry: nat, max: int): Run
    decreases max - retry
  {
    match Round(world(clock), asking, retry, max)
    case End(outcome, wire, r) => Run(outcome, wire, r, clock + 1)
    case Again(next, wire, r) =>
      var rest := Execute(world, clock + 1, next, r, max);
      rest.(wire := wire + rest.wire)
  }

  /** How often the user's command was sent. */
  function Sends(wire: seq<Wire>): nat {
    if wire == [] then 0 else Sends(wire[..|wire| - 1]) + (if wire[|wire| - 1].Command? then 1 else 0)
  }

  lemma {:induction false} SendsApp(a: seq<Wire>, b: seq<Wire>)
    ensures Sends(a + b) == Sends(a) + Sends(b)
  {
    if b == [] {
      assert a + b == a;
    } else {
      assert (a + b)[..|a + b| - 1] == a + b[..|b| - 1];
      SendsApp(a, b[..|b| - 1]);
    }
  }

  lemma RoundSendsOnce(w: Weather, asking: bool, retry: nat, max: int)
    ensures var t := Round(w, asking, retry, max);
            && t.retry >= retry
            && Sends(t.wire) <= 1 && (t.Again? ==> Sends(t.wire) == 1)
            && (t.End? && t.outcome.Replied? ==> t.retry == retry || t.retry <= max)
  {
    var t := Round(w, asking, retry, max);
    if t.wire != [] {
      var first := t.wire[0];
      assert Sends([first]) == 1 by { assert [first][..0] == []; }
      assert t.wire == [first] || t.wire == [first, Asking];
      assert [first, Asking][..1] == [first];
    }
  }

  /** Every send beyond the first has consumed a retry, and the budget is never overdrawn by a reply that counts. */
  lemma {:induction false} SendBudget(world: World, clock: nat, asking: bool, retry: nat, max: int)
    ensures var r := Execute(world, clock, asking, retry, max);
            && r.retry >= retry
            && Sends(r.wire) <= 1 + (if max > retry then max - retry else 0)
            && (r.outcome.Replied? ==> Sends(r.wire) <= 1 + r.retry - retry)
            && (r.outcome.Replied? ==> r.retry == retry || r.retry <= max)
    decreases max - retry
  {
    RoundSendsOnce(world(clock), asking, retry, max);
    var t := Round(world(clock), asking, retry, max);
    if t.Again? {
      SendBudget(world, clock + 1, t.asking, t.retry, max);
      SendsApp(t.wire, Execute(world, clock + 1, t.asking, t.retry, max).wire);
    }
  }

  /** What may follow what on the wire: only a redirect is followed by more, and ASK exactly by ASKING. */
  ghost predicate Disciplined(wire: seq<Wire>) {
    forall i, j :: 0 <= i && j == i + 1 < |wire| ==> MayFollow(wire[i], wire[j])
  }

  predicate MayFollow(a: Wire, b: Wire) {
    match a
    case Asking => b.Command?
    case Command(reply) => reply.Some? && IsRedirect(reply.value) && (b.Asking? <==> reply.value.Ask?)
  }

  lemma DisciplinedApp(a: seq<Wire>, b: seq<Wire>)
    requires Disciplined(a) && Disciplined(b) && (a != [] && b != [] ==> MayFollow(a[|a| - 1], b[0]))
    ensures Disciplined(a + b)
  {
    var c := a + b;
    forall i, j | 0 <= i && j == i + 1 < |c| ensures MayFollow(c[i], c[j]) {
      if i >= |a| { assert MayFollow(b[i - |a|], b[j - |a|]); }
    }
  }

  lemma RoundWire(w: Weather, asking: bool, retry: nat, max: int)
    ensures var t := Round(w, asking, retry, max);
            && Disciplined(t.wire) && (t.wire != [] ==> t.wire[0].Command?)
            && (t.Again? ==> t.wire != [] && MayFollow(t.wire[|t.wire| - 1], Command(None)))
            && (t.End? && t.outcome.Replied? ==> t.wire == [Command(Some(t.outcome.status))] && !IsRedirect(t.outcome.status))
  {
  }

  /** A command's replies are redirects up to the last, which is the outcome; each ASK is honoured by ASKING. */
  lemma {:induction false} WireIsDisciplined(world: World, clock: nat, asking: bool, retry: nat, max: int)
    ensures var r := Execute(world, clock, asking, retry, max);
            && Disciplined(r.wire)
            && (r.wire != [] ==> r.wire[0].Command?)
            && (r.outcome.Replied? ==> r.wire != [] && r.wire[|r.wire| - 1] == Command(Some(r.outcome.status))
                                       && !IsRedirect(r.outcome.status))
    decreases max - retry
  {
    var t := Round(world(clock), asking, retry, max);
    RoundWire(world(clock), asking, retry, max);
    if t.Again? {
      WireIsDisciplined(world, clock + 1, t.asking, t.retry, max);
      DisciplinedApp(t.wire, Execute(world, clock + 1, t.asking, t.retry, max).wire);
    }
  }

  // ----- redirects are followed -----

  /** A round in which nothing is lost: the slot's node or, for it, some other node can be reached, and everything is answered. */
  predicate Usable(w: Weather) {
    && w.nodeKnown && (w.link.Up? || (w.link.Broken? && w.otherNode && w.otherLink.Up?))
    && w.appended && w.reply.Some? && w.routeUpdated && w.askNode && w.askLink.Up? && w.askingAnswered
  }

  ghost predicate AlwaysUsable(world: World) { forall t :: Usable(world(t)) }

  predicate RedirectedAt(world: World, t: nat) {
    world(t).reply in {Some(Moved), Some(Ask), Some(TryAgain), Some(CrossSlot), Some(ClusterDown)}
  }

  /** After r redirects a reply comes that is none. */
  predicate RedirectedTimes(world: World, clock: nat, r: nat)
    decreases r
  {
    if r == 0 then !RedirectedAt(world, clock) else RedirectedAt(world, clock) && RedirectedTimes(world, clock + 1, r - 1)
  }

  /** What r redirects cost: one retry each, and one for every round that has to go through another node. */
  function Spent(world: World, clock: nat, asking: bool, r: nat): nat
    decreases r
  {
    (if !asking && world(clock).link.Broken? then 1 else 0)
    + (if r == 0 then 0 else 1 + Spent(world, clock + 1, world(clock).reply == Some(Ask), r - 1))
  }

  /** Everything on the wire: the command once per round, and ASKING after every ASK. */
  function Trace(world: World, clock: nat, r: nat): seq<Wire>
    decreases r
  {
    if r == 0 then [Command(world(clock).reply)]
    else
      [Command(world(clock).reply)] + (if world(clock).reply == Some(Ask) then [Asking] else [])
      + Trace(world, clock + 1, r - 1)
  }

  /** One round on the way: too expensive, the end, or onwards. */
  lemma UsableRound(w: Weather, asking: bool, retry: nat, max: int, paid: nat, s: Status)
    requires Usable(w) && paid == retry + (if !asking && w.link.Broken? then 1 else 0) && w.reply == Some(s)
    ensures var t, sent := Round(w, asking, retry, max), [Command(Some(s))];
            if paid > retry && paid > max then t.End? && t.outcome == Failed(TooManyRetries)
            else if s in {Fine, ErrorReply} then t == End(Replied(s), sent, paid)
            else if paid + 1 > max then t.End? && t.outcome == Failed(TooManyRetries)
            else t == Again(s == Ask, sent + (if s == Ask then [Asking] else []), paid + 1)
  {
    var sent := [Command(Some(s))];
    assert sent + [] == sent;
  }

  /** When a round goes on, and when it yields a reply. */
  lemma RoundIff(w: Weather, asking: bool, retry: nat, max: int, reached: bool, paid: nat)
    requires reached <==> asking || (w.nodeKnown && (w.link.Up? || (w.link.Broken? && w.otherNode && w.otherLink.Up? && retry + 1 <= max)))
    requires paid == retry + (if !asking && w.link.Broken? then 1 else 0)
    ensures Round(w, asking, retry, max).Again? <==>
              && reached && w.appended && paid + 1 <= max
              && w.reply in {Some(Moved), Some(Ask), Some(TryAgain), Some(CrossSlot), Some(ClusterDown)}
              && (w.reply == Some(Moved) ==> w.routeUpdated)
              && (w.reply == Some(Ask) ==> w.askNode && w.askLink.Up? && w.askingAnswered)
    ensures var t := Round(w, asking, retry, max);
            t.End? && t.outcome.Replied? <==> reached && w.appended && w.reply in {Some(Fine), Some(ErrorReply)}
  {
  }

  lemma Ends(world: World, clock: nat, asking: bool, retry: nat, max: int)
    requires Round(world(clock), asking, retry, max).End?
    ensures var t := Round(world(clock), asking, retry, max);
            Execute(world, clock, asking, retry, max) == Run(t.outcome, t.wire, t.retry, clock + 1)
  {
  }

  lemma GoesOn(world: World, clock: nat, asking: bool, retry: nat, max: int, rest: Run)
    requires Round(world(clock), asking, retry, max).Again?
    requires var t := Round(world(clock), asking, retry, max); rest == Execute(world, clock + 1, t.asking, t.retry, max)
    ensures Execute(world, clock, asking, retry, max) == rest.(wire := Round(world(clock), asking, retry, max).wire + rest.wire)
  {
  }

  /** The way's first reply, cost and trace. */
  lemma OneRedirect(world: World, clock: nat, asking: bool, r: nat, s: Status, paid: nat, retry: nat)
    requires Usable(world(clock)) && world(clock).reply == Some(s) && RedirectedTimes(world, clock, r)
    requires paid == retry + (if !asking && world(clock).link.Broken? then 1 else 0)
    ensures r == 0 <==> s in {Fine, ErrorReply}
    ensures r == 0 ==> retry + Spent(world, clock, asking, r) == paid && Trace(world, clock, r) == [Command(Some(s))]
    ensures r > 0 ==>
              && RedirectedTimes(world, clock + 1, r - 1)
              && retry + Spent(world, clock, asking, r) == paid + 1 + Spent(world, clock + 1, s == Ask, r - 1)
              && Trace(world, clock, r)
                 == [Command(Some(s))] + (if s == Ask then [Asking] else []) + Trace(world, clock + 1, r - 1)
  {
  }

  /** The way to the first reply that is no redirect, if the budget suffices for it. */
  ghost predicate Followed(world: World, clock: nat, asking: bool, retry: nat, max: int, r: nat) {
    var run, cost := Execute(world, clock, asking, retry, max), Spent(world, clock, asking, r);
    if cost == 0 || retry + cost <= max
    then world(clock + r).reply.Some?
         && run == Run(Replied(world(clock + r).reply.value), Trace(world, clock, r), retry + cost, clock + r + 1)
    else run.outcome == Failed(TooManyRetries)
  }

  /**
   While nothing is lost, redirects of every kind are followed: the first reply that is no redirect is the
   outcome if the budget suffices for the way there, and otherwise the call fails for too many retries.
   */
  lemma {:induction false} RedirectsAreFollowed(world: World, clock: nat, asking: bool, retry: nat, max: int, r: nat)
    requires AlwaysUsable(world) && RedirectedTimes(world, clock, r)
    ensures Followed(world, clock, asking, retry, max, r)
    decreases r
  {
    var w := world(clock);
    assert Usable(w);
    var paid := retry + (if !asking && w.link.Broken? then 1 else 0);
    var s := w.reply.value;
    UsableRound(w, asking, retry, max, paid, s);
    OneRedirect(world, clock, asking, r, s, paid, retry);
    if Round(w, asking, retry, max).End? {
      Ends(world, clock, asking, retry, max);
    } else {
      RedirectsAreFollowed(world, clock + 1, s == Ask, paid + 1, max, r - 1);
      GoesOn(world, clock, asking, retry, max, Execute(world, clock + 1, s == Ask, paid + 1, max));
    }
  }

  /** A cluster that always redirects: the whole budget is used, and no more. */
  lemma {:induction false} BudgetIsReached(world: World, clock: nat, asking: bool, retry: nat, max: nat)
    requires retry <= max
    requires forall t :: world(t) == Weather(true, Up, true, Up, true, Some(Moved), true, true, Up, true)
    ensures var r := Execute(world, clock, asking, retry, max);
            r.outcome == Failed(TooManyRetries) && Sends(r.wire) == 1 + max - retry
    decreases max - retry
  {
    var sent := [Command(Some(Moved))];
    assert Sends(sent) == 1 by { assert sent[..0] == []; }
    if retry < max {
      BudgetIsReached(world, clock + 1, false, retry + 1, max);
      SendsApp(sent, Execute(world, clock + 1, false, retry + 1, max).wire);
    }
  }

  /** A run that began with some bytes on the wire already. */
  function After(wire: seq<Wire>, r: Run): Run { r.(wire := wire + r.wire) }

  lemma RunStep(world: World, clock: nat, asking: bool, retry: nat, max: int, before: seq<Wire>, t: Turn)
    requires t == Round(world(clock), asking, retry, max)
    ensures After(before, Execute(world, clock, asking, retry, max)) ==
              match t
              case End(outcome, w, r) => Run(outcome, before + w, r, clock + 1)
              case Again(next, w, r) => After(before + w, Execute(world, clock + 1, next, r, max))
  {
    if t.Again? {
      var rest := Execute(world, clock + 1, t.asking, t.retry, max);
      assert before + (t.wire + rest.wire) == (before + t.wire) + rest.wire;
    }
  }

  /** What the sub-commands of one call got, in order, and everything sent for them. */
  datatype Total = Total(replies: seq<Status>, outcome: Outcome, wire: seq<Wire>)

  /** The next k sub-commands, until one gets no reply or an error reply. */
  function ExecuteAll(world: World, clock: nat, k: nat, retry: nat, max: int): Total
    decreases k
  {
    if k == 0 then Total([], Replied(Fine), [])
    else
      var r := Execute(world, clock, false, retry, max);
      if r.outcome != Replied(Fine) then Total(if r.outcome.Replied? then [r.outcome.status] else [], r.outcome, r.wire)
      else
        var rest := ExecuteAll(world, r.clock, k - 1, r.retry, max);
        Total([Fine] + rest.replies, rest.outcome, r.wire + rest.wire)
  }

  function Joined(before: Total, t: Total): Total {
    Total(before.replies + t.replies, t.outcome, before.wire + t.wire)
  }

  lemma EmptyBefore(t: Total)
    ensures Joined(Total([], Replied(Fine), []), t) == t
  {
    assert [] + t.replies == t.replies && [] + t.wire == t.wire;
  }

  /** The replies so far and, with k sub-commands to go, the rest make up the whole. */
  ghost predicate Reached(whole: Total, before: Total, world: World, clock: nat, k: nat, retry: nat, max: int) {
    whole == Joined(before, ExecuteAll(world, clock, k, retry, max))
  }

  function Noted(before: Total, r: Run): Total {
    Total(if r.outcome.Replied? then before.replies + [r.outcome.status] else before.replies, r.outcome, before.wire + r.wire)
  }

  lemma AllStep(whole: Total, world: World, clock: nat, k: nat, retry: nat, max: int, before: Total, r: Run)
    requires k > 0 && r == Execute(world, clock, false, retry, max)
    requires Reached(whole, before, world, clock, k, retry, max)
    ensures r.outcome != Replied(Fine) ==> whole == Noted(before, r)
    ensures r.outcome == Replied(Fine) ==> Reached(whole, Noted(before, r), world, r.clock, k - 1, r.retry, max)
  {
    if r.outcome == Replied(Fine) {
      var rest := ExecuteAll(world, r.clock, k - 1, r.retry, max);
      assert before.replies + ([Fine] + rest.replies) == (before.replies + [Fine]) + rest.replies;
      assert before.wire + (r.wire + rest.wire) == (before.wire + r.wire) + rest.wire;
    } else {
      assert before.replies + [] == before.replies;
    }
  }

  lemma NothingLeft(whole: Total, before: Total, world: World, clock: nat, retry: nat, max: int)
    requires Reached(whole, before, world, clock, 0, retry, max) && before.outcome == Replied(Fine)
    ensures whole == before
  {
    assert before.replies + [] == before.replies && before.wire + [] == before.wire;
  }

  lemma NothingDone(whole: Total, world: World, clock: nat, k: nat, retry: nat, max: int)
    requires whole == ExecuteAll(world, clock, k, retry, max)
    ensures Reached(whole, Total([], Replied(Fine), []), world, clock, k, retry, max)
  {
    EmptyBefore(whole);
  }

  ghost predicate WithinBudget(t: Total, k: nat, retry: nat, max: int) {
    && Sends(t.wire) <= k + (if max > retry then max - retry else 0)
    && |t.replies| <= k
    && (forall i :: 0 <= i < |t.replies| - 1 ==> t.replies[i].Fine?)
    && (forall i :: 0 <= i < |t.replies| ==> !IsRedirect(t.replies[i]))
    && (t.outcome == Replied(Fine) ==> |t.replies| == k)
  }

  lemma BudgetExtends(rest: Total, k: nat, retry: nat, max: int, r: Run)
    requires r.retry >= retry && (r.retry == retry || r.retry <= max) && Sends(r.wire) <= 1 + r.retry - retry
    requires WithinBudget(rest, k, r.retry, max)
    ensures WithinBudget(Total([Fine] + rest.replies, rest.outcome, r.wire + rest.wire), k + 1, retry, max)
  {
    SendsApp(r.wire, rest.wire);
  }

  lemma BudgetOfLast(k: nat, retry: nat, max: int, r: Run)
    requires Sends(r.wire) <= 1 + (if max > retry then max - retry else 0) && r.outcome != Replied(Fine)
    requires r.outcome.Replied? ==> !IsRedirect(r.outcome.status)
    ensures WithinBudget(Total(if r.outcome.Replied? then [r.outcome.status] else [], r.outcome, r.wire), k + 1, retry, max)
  {
  }

  /**
   One retry budget for all sub-commands: a call split into k sub-commands sends at most k commands
   and the remaining budget, whatever the replies; only its last reply can be an error, none is a redirect.
   */
  lemma {:induction false} TotalBudget(world: World, clock: nat, k: nat, retry: nat, max: int)
    ensures WithinBudget(ExecuteAll(world, clock, k, retry, max), k, retry, max)
    decreases k
  {
    if k > 0 {
      var r := Execute(world, clock, false, retry, max);
      SendBudget(world, clock, false, retry, max);
      WireIsDisciplined(world, clock, false, retry, max);
      if r.outcome == Replied(Fine) {
        var rest := ExecuteAll(world, r.clock, k - 1, r.retry, max);
        TotalBudget(world, r.clock, k - 1, r.retry, max);
        BudgetExtends(rest, k - 1, retry, max, r);
        OneMore(world, clock, k, retry, max, r, rest);
      } else {
        BudgetOfLast(k - 1, retry, max, r);
      }
    }
  }

  lemma OneMore(world: World, clock: nat, k: nat, retry: nat, max: int, r: Run, rest: Total)
    requires k > 0 && r == Execute(world, clock, false, retry, max) && r.outcome == Replied(Fine)
    requires rest == ExecuteAll(world, r.clock, k - 1, r.retry, max)
    ensures ExecuteAll(world, clock, k, retry, max) == Total([Fine] + rest.replies, rest.outcome, r.wire + rest.wire)
  {
  }

  /** Where every sub-command is answered at once, all of them are sent and all replies are collected. */
  lemma {:induction false} AllAreSent(world: World, clock: nat, k: nat, retry: nat, max: int)
    requires AlwaysUsable(world) && forall t :: world(t).link.Up? && world(t).reply == Some(Fine)
    ensures var total := ExecuteAll(world, clock, k, retry, max);
            && total.outcome == Replied(Fine) && |total.replies| == k && Sends(total.wire) == k
            && forall i :: 0 <= i < k ==> total.replies[i] == Fine
    decreases k
  {
    if k > 0 {
      RedirectsAreFollowed(world, clock, false, retry, max, 0);
      assert Usable(world(clock));
      var r := Execute(world, clock, false, retry, max);
      assert r == Run(Replied(Fine), [Command(Some(Fine))], retry, clock + 1);
      AllAreSent(world, clock + 1, k - 1, retry, max);
      OneMore(world, clock, k, retry, max, r, ExecuteAll(world, clock + 1, k - 1, retry, max));
      SendsApp(r.wire, ExecuteAll(world, clock + 1, k - 1, retry, max).wire);
      assert Sends([Command(Some(Fine))]) == 1 by { assert [Command(Some(Fine))][..0] == []; }
    }
  }

  class Client {
    var retryCount: nat
    const maxRetry: int

    constructor (max: int)
      ensures retryCount == 0 && maxRetry == max
    {
      retryCount, maxRetry := 0, max;
    }

    /** redis_cluster_command_execute. */
    method ExecuteCommand(world: World, start: nat) returns (outcome: Outcome, wire: seq<Wire>, clock: nat)
      modifies this
      ensures Run(outcome, wire, retryCount, clock) == Execute(world, start, false, old(retryCount), maxRetry)
    {
      var asking := false;
      wire, clock := [], start;
      ghost var whole := Execute(world, start, false, retryCount, maxRetry);
      assert [] + whole.wire == whole.wire;
      while true
        invariant whole == After(wire, Execute(world, clock, asking, retryCount, maxRetry))
        decreases maxRetry - retryCount
      {
        var t := Round(world(clock), asking, retryCount, maxRetry);
        RunStep(world, clock, asking, retryCount, maxRetry, wire, t);
        wire, clock, retryCount := wire + t.wire, clock + 1, t.retry;
        if t.End? { return t.outcome, wire, clock; }
        asking := t.asking;
      }
    }

    method RunAll(world: World, n: nat) returns (total: Total)
      modifies this
      ensures total == ExecuteAll(world, 0, n, old(retryCount), maxRetry)
    {
      total := Total([], Replied(Fine), []);
      var clock, i := 0, 0;
      ghost var whole := ExecuteAll(world, 0, n, retryCount, maxRetry);
      NothingDone(whole, world, 0, n, retryCount, maxRetry);
      while i < n
        invariant i <= n && total.outcome == Replied(Fine)
        invariant Reached(whole, total, world, clock, n - i, retryCount, maxRetry)
      {
        ghost var retry, c := retryCount, clock;
        var outcome, wire;
        outcome, wire, clock := ExecuteCommand(world, clock);
        AllStep(whole, world, c, n - i, retry, maxRetry, total, Run(outcome, wire, retryCount, clock));
        total := Noted(total, Run(outcome, wire, retryCount, clock));
        if outcome != Replied(Fine) { return; }
        i := i + 1;
      }
      NothingLeft(whole, total, world, clock, retryCount, maxRetry);
    }

    /**
     redisClusterFormattedCommand over n sub-commands: the loop stops at the first that gets no reply
     or an error reply, at most n + maxRetry commands are sent in all, and the retry count ends at zero.
     */
    method FormattedCommand(world: World, n: nat) returns (total: Total)
      requires n > 0
      modifies this
      ensures retryCount == 0
      ensures total == ExecuteAll(world, 0, n, old(retryCount), maxRetry)
      ensures Sends(total.wire) <= n + (if maxRetry > 0 then maxRetry else 0)
    {
      TotalBudget(world, 0, n, retryCount, maxRetry);
      total := RunAll(world, n);
      retryCount := 0;
    }
  }
}
