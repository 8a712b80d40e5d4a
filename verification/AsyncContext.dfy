/**
 The asynchronous dispatcher for ordinary commands: the callback queue, the deferred free and
 disconnect flags, and user callbacks that call back into the interface.
 */
module AsyncContext {
  import opened Bytes

  /** A registered callback; without a function its reply is only discarded. */
  datatype Callback = Callback(id: nat, hasFn: bool)

  /** What a user callback does when it runs. */
  datatype Action = Issue(cb: Callback) | Disconnect | Free

  /** What the reader yields: an ordinary reply or an unrequested push message. */
  datatype Incoming = Reply(id: nat, isError: bool) | Push(id: nat)

  /** A callback that has been served, with its reply or with NULL. */
  datatype Delivery = Delivery(cb: Callback, reply: Option<Incoming>)

  /** What the first event on a socket finds out about its connection. */
  datatype Outcome = Established | StillConnecting | NotEstablished

  /** What the user or the event loop does next. */
  datatype Event =
    | CallCommand(cb: Callback)
    | CallDisconnect
    | CallFree
    | Readable(connects: Outcome, readable: bool, arrivals: seq<Incoming>, malformed: bool)
    | Writable(connects: Outcome, writable: bool, sent: nat)

  function Callbacks(ds: seq<Delivery>): (cbs: seq<Callback>)
    ensures |cbs| == |ds| && forall i :: 0 <= i < |ds| ==> cbs[i] == ds[i].cb
  {
    seq(|ds|, i requires 0 <= i < |ds| => ds[i].cb)
  }

  /** Every callback of a queue served with NULL. */
  function Nulls(cbs: seq<Callback>): (ds: seq<Delivery>)
    ensures |ds| == |cbs| && forall i :: 0 <= i < |cbs| ==> ds[i] == Delivery(cbs[i], None)
  {
    seq(|cbs|, i requires 0 <= i < |cbs| => Delivery(cbs[i], None))
  }

  function Ordinary(s: seq<Incoming>): seq<Incoming> {
    if s == [] then []
    else Ordinary(s[..|s| - 1]) + (if s[|s| - 1].Reply? then [s[|s| - 1]] else [])
  }

  lemma OrdinarySnoc(s: seq<Incoming>, x: Incoming)
    ensures Ordinary(s + [x]) == Ordinary(s) + (if x.Reply? then [x] else [])
  {
    assert (s + [x])[..|s|] == s;
  }

  /** The i-th served callback had the i-th reply, and after the replies come only NULLs. */
  ghost predicate InOrder(delivered: seq<Delivery>, received: seq<Incoming>) {
    && |received| <= |delivered|
    && forall i :: 0 <= i < |delivered| ==>
         delivered[i].reply == if i < |received| then Some(received[i]) else None
  }

  predicate Closes(script: seq<Action>) { Disconnect in script || Free in script }

  /** The commands a callback issues that are accepted: those before it closes the context, if it is open at all. */
  function Issued(script: seq<Action>, closing: bool): seq<Callback> {
    if script == [] then []
    else
      var init, last := script[..|script| - 1], script[|script| - 1];
      Issued(init, closing) + (if last.Issue? && !closing && !Closes(init) then [last.cb] else [])
  }

  lemma IssuedSnoc(script: seq<Action>, i: nat, closing: bool)
    requires i < |script|
    ensures script[..i + 1] == script[..i] + [script[i]]
    ensures Issued(script[..i + 1], closing) == Issued(script[..i], closing)
              + (if script[i].Issue? && !closing && !Closes(script[..i]) then [script[i].cb] else [])
  {
    assert script[..i + 1][..i] == script[..i];
  }

  class Context {
    var connected: bool
    var disconnecting: bool
    var freeing: bool
    var inCallback: bool
    var noAutoFree: bool
    var failed: bool          // c->err
    var reported: bool        // ac->err, the copy made on disconnect
    var obuf: nat             // commands not yet written
    var replies: seq<Callback>
    var inbox: seq<Incoming>  // what the reader can still yield
    var malformed: bool       // after the inbox the stream does not parse
    var released: bool
    var trapped: bool         // an assertion of the source has failed
    var farewell: Option<bool> // the disconnect callback ran, with REDIS_OK or not
    var invoked: nat
    const behave: nat -> seq<Action> // what the user's callbacks do, call by call
    const hasPush: bool              // a push callback is set

    ghost var registered: seq<Callback>
    ghost var delivered: seq<Delivery>
    ghost var received: seq<Incoming>
    ghost var consumed: seq<Incoming> // what the reader has yielded
    ghost var arrived: seq<Incoming>  // what the reader has been fed
    ghost var freeMark: nat           // how many callbacks had been served when a push callback freed the context

    /** No callback is lost, served twice or out of order. */
    ghost predicate Valid()
      reads this
    {
      && registered == Callbacks(delivered) + replies
      && InOrder(delivered, received)
      && received <= Ordinary(consumed)
      && consumed + inbox == arrived
      && (released ==> replies == [])
    }

    /** No error and no broken assumption. */
    predicate Sound()
      reads this
    {
      !failed && !trapped
    }

    /** Between replies: nothing has been served with NULL unless the context is gone, and no reply was stray. */
    ghost predicate Settled()
      reads this
    {
      && Valid() && !inCallback
      && (!released ==> |received| == |delivered| && farewell == None)
      && (!released && Sound() ==> received == Ordinary(consumed))
      && (trapped ==> |Ordinary(consumed)| > |registered|)
      && (!released && disconnecting && !failed ==> !noAutoFree)
      && (failed && !released ==> disconnecting)
      && (released && connected ==> farewell == Some(freeing || !failed))
      && (released ==> Closing())
      && FreeIsPending()
    }

    /** Between events: a live context has also taken everything the reader can yield. */
    ghost predicate Steady()
      reads this
    {
      Settled() && (!released && Sound() ==> inbox == [] && !malformed)
    }

    /** A freed context that still lives was freed by a push callback, and no callback function has run since. */
    ghost predicate FreeIsPending()
      reads this
    {
      freeing && !released ==>
        hasPush && freeMark <= |delivered| && forall i :: freeMark <= i < |delivered| ==> !delivered[i].cb.hasFn
    }

    constructor (behave: nat -> seq<Action>, noAutoFree: bool, hasPush: bool)
      ensures Steady() && !released && !trapped && !failed && !disconnecting && !freeing
      ensures registered == [] && arrived == [] && this.noAutoFree == noAutoFree && this.hasPush == hasPush
    {
      connected, disconnecting, freeing, inCallback := false, false, false, false;
      failed, reported, malformed, released, trapped := false, false, false, false, false;
      this.behave, this.noAutoFree, this.hasPush := behave, noAutoFree, hasPush;
      obuf, invoked, replies, inbox, farewell := 0, 0, [], [], None;
      registered, delivered, received, consumed, arrived, freeMark := [], [], [], [], [], 0;
    }

    predicate Closing()
      reads this
    {
      disconnecting || freeing
    }

    /** __redisAsyncCommand for ordinary commands: refused when the context is closing, queued otherwise. */
    method Command(cb: Callback) returns (ok: bool)
      requires Valid() && !released
      modifies `replies, `obuf, `registered
      ensures Valid()
      ensures ok <==> !Closing()
      ensures replies == if ok then old(replies) + [cb] else old(replies)
      ensures registered == if ok then old(registered) + [cb] else old(registered)
      ensures obuf == if ok then old(obuf) + 1 else old(obuf)
    {
      if disconnecting || freeing { return false; }
      replies := replies + [cb];
      registered := registered + [cb];
      obuf := obuf + 1;
      ok := true;
    }

    /** What a callback may do to the context: queue commands unless it is closing, and mark it as closing. */
    twostate predicate Reentered()
      reads this
    {
      && old(replies) <= replies && (old(Closing()) ==> replies == old(replies))
      && (old(disconnecting) ==> disconnecting) && (old(freeing) ==> freeing)
      && unchanged(`connected, `failed, `reported, `inbox, `malformed, `released, `trapped, `farewell)
      && unchanged(`delivered, `received, `consumed, `arrived, `freeMark)
    }

    /** What a script of calls from within a callback amounts to. */
    twostate predicate Followed(script: seq<Action>)
      reads this
    {
      && Accepted(old(replies), old(registered), old(obuf), Issued(script, old(Closing())))
      && Marked(old(disconnecting), old(freeing), old(noAutoFree), script)
    }

    ghost predicate Accepted(was: seq<Callback>, known: seq<Callback>, out: nat, issued: seq<Callback>)
      reads this
    {
      replies == was + issued && registered == known + issued && obuf == out + |issued|
    }

    predicate Marked(wasDisconnecting: bool, wasFreeing: bool, wasNoAutoFree: bool, script: seq<Action>)
      reads this
    {
      && (disconnecting <==> wasDisconnecting || Disconnect in script)
      && (freeing <==> wasFreeing || Free in script)
      && (noAutoFree <==> wasNoAutoFree && Disconnect !in script)
    }

    /** Pending callbacks all served with NULL, and the context gone. */
    twostate predicate Drained()
      reads this
    {
      && released && replies == [] && Closing()
      && delivered == old(delivered) + Nulls(old(replies))
      && (farewell == if connected then Some(freeing || !failed) else old(farewell))
      && unchanged(`connected, `failed, `inbox, `malformed, `trapped, `received, `consumed, `arrived, `registered)
    }

    /** __redisRunCallback: the callback's calls come back in with the in-callback flag set. */
    method RunCallback()
      requires Valid() && !released && !inCallback
      modifies this
      ensures Valid() && !inCallback && Reentered()
      ensures Followed(behave(old(invoked))) && invoked == old(invoked) + 1
      decreases 1, 1
    {
      inCallback := true;
      var script := behave(invoked);
      invoked := invoked + 1;
      ghost var was, known, out := replies, registered, obuf;
      ghost var d, f, n := disconnecting, freeing, noAutoFree;
      for i := 0 to |script|
        invariant Valid() && inCallback && Reentered() && invoked == old(invoked) + 1
        invariant Accepted(was, known, out, Issued(script[..i], d || f)) && Marked(d, f, n, script[..i])
      {
        ghost var issued := Issued(script[..i], d || f);
        IssuedSnoc(script, i, d || f);
        Act(script[i], was, known, out, issued, d, f, n, script[..i]);
      }
      assert script[..|script|] == script;
      inCallback := false;
    }

    /** One call from within a callback, after those of the script before it. */
    method Act(a: Action, ghost was: seq<Callback>, ghost known: seq<Callback>, ghost out: nat, ghost issued: seq<Callback>,
               ghost d: bool, ghost f: bool, ghost n: bool, ghost before: seq<Action>)
      requires Valid() && !released && inCallback
      requires Accepted(was, known, out, issued) && Marked(d, f, n, before)
      modifies this
      ensures Valid() && inCallback && Reentered() && unchanged(`invoked)
      ensures Accepted(was, known, out, issued + (if a.Issue? && !(d || f) && !Closes(before) then [a.cb] else []))
      ensures Marked(d, f, n, before + [a])
      decreases 0, 6
    {
      match a
      case Issue(cb) =>
        var ok := Command(cb);
        if ok {
          Regroup(was, issued, [cb]);
          Regroup(known, issued, [cb]);
        } else {
          assert issued + [] == issued;
        }
      case Disconnect =>
        AsyncDisconnect();
        assert issued + [] == issued;
      case Free =>
        AsyncFree();
        assert issued + [] == issued;
    }

    /** redisAsyncFree: at once, or when called from a callback as a mark. */
    method AsyncFree()
      requires Valid() && !released
      modifies this
      ensures Valid() && inCallback == old(inCallback)
      ensures old(inCallback) ==>
                Reentered() && freeing && unchanged(`replies, `registered, `obuf, `disconnecting, `noAutoFree, `invoked)
      ensures !old(inCallback) ==> Drained()
      decreases if inCallback then 0 else 1, 5
    {
      freeing := true;
      if !inCallback { InternalFree(); }
    }

    /** redisAsyncDisconnect: at once when idle, otherwise as a mark. */
    method AsyncDisconnect()
      requires Valid() && !released
      modifies this
      ensures Valid() && inCallback == old(inCallback)
      ensures old(inCallback) ==> Reentered() && disconnecting && !noAutoFree && unchanged(`replies, `registered, `obuf, `freeing, `invoked)
      ensures !old(inCallback) && old(replies) == [] ==> Drained()
      ensures !old(inCallback) && old(replies) != [] ==> Reentered() && disconnecting && !noAutoFree && unchanged(`replies, `registered, `obuf, `freeing)
      decreases if inCallback then 0 else 1, 5
    {
      disconnecting := true;
      noAutoFree := false;
      if !inCallback && replies == [] { InternalDisconnect(); }
    }

    /** Nothing but the callback queue, what was served, and what callbacks may set. */
    twostate predicate OnlyServes()
      reads this
    {
      unchanged(`connected, `failed, `inbox, `malformed, `trapped, `received, `consumed, `arrived, `registered, `reported, `farewell)
    }

    /** The oldest pending callback is shifted and run with NULL; the context is closing, so nothing is added. */
    method ServeWithNull()
      requires Valid() && !inCallback && !released && Closing() && replies != []
      modifies this
      ensures Valid() && !inCallback && !released && Closing() && OnlyServes()
      ensures replies == old(replies)[1..] && delivered == old(delivered) + [Delivery(old(replies)[0], None)]
      ensures old(freeing) ==> freeing
      decreases 1, 2
    {
      var cb := replies[0];
      replies, delivered := replies[1..], delivered + [Delivery(cb, None)];
      if cb.hasFn { RunCallback(); }
    }

    /** __redisAsyncFree: every pending callback is shifted and run once, with NULL. */
    method InternalFree()
      requires Valid() && !released && !inCallback && Closing() && (freeing || reported == failed)
      modifies this
      ensures Valid() && !inCallback && Drained()
      decreases 1, 3
    {
      ghost var d, pending := delivered, replies;
      ghost var k := 0;
      while replies != []
        invariant Valid() && !inCallback && !released && Closing() && OnlyServes() && (freeing || reported == failed)
        invariant k <= |pending| && replies == pending[k..]
        invariant delivered == d + Nulls(pending[..k])
        decreases |replies|
      {
        ServeNull(d, pending, k);
        ServeWithNull();
        k := k + 1;
      }
      assert pending[..k] == pending;
      if connected { farewell := Some(freeing || !reported); }
      released := true;
    }

    /** One pending callback moved from the queue to the served ones. */
    lemma ServeNull(d: seq<Delivery>, pending: seq<Callback>, k: nat)
      requires k < |pending|
      ensures d + Nulls(pending[..k]) + [Delivery(pending[k], None)] == d + Nulls(pending[..k + 1])
      ensures pending[k..][1..] == pending[k + 1..]
    {
      assert Nulls(pending[..k]) + [Delivery(pending[k], None)] == Nulls(pending[..k + 1]);
    }

    /** __redisAsyncDisconnect: its assertion, that a clean disconnect has no pending callback, holds. */
    method InternalDisconnect()
      requires Valid() && !released && !inCallback
      requires failed || (replies == [] && disconnecting)
      modifies this
      ensures Valid() && !inCallback
      ensures !old(noAutoFree) ==> Drained()
      ensures old(noAutoFree) ==> KeptOpen() && disconnecting
      decreases 1, 4
    {
      reported := failed;
      if !failed {
        assert replies == [];
      } else {
        disconnecting := true;
      }
      if !noAutoFree { InternalFree(); }
    }

    /** Only the error copy and the closing mark have changed. */
    twostate predicate KeptOpen()
      reads this
    {
      unchanged(`connected, `failed, `inbox, `malformed, `released, `trapped, `farewell, `replies, `noAutoFree)
      && unchanged(`delivered, `received, `consumed, `arrived, `registered, `freeing, `freeMark, `obuf)
    }

    /** redisGetReply on what has been read: the next reply, none yet, or a stream that does not parse. */
    method GetReply() returns (ok: bool, reply: Option<Incoming>)
      requires Valid()
      modifies `inbox, `failed, `consumed
      ensures consumed + inbox == arrived
      ensures old(inbox) != [] ==> ok && reply == Some(old(inbox)[0]) && inbox == old(inbox)[1..] && failed == old(failed)
                                   && consumed == old(consumed) + [old(inbox)[0]]
      ensures old(inbox) == [] ==> reply == None && inbox == [] && consumed == old(consumed) && ok == !malformed
                                   && failed == (old(failed) || malformed)
    {
      if inbox != [] {
        ok, reply := true, Some(inbox[0]);
        consumed := consumed + [inbox[0]];
        inbox := inbox[1..];
      } else {
        ok, reply := !malformed, None;
        failed := failed || malformed;
      }
    }

    /** The state in the middle of processing replies. */
    ghost predicate Processing()
      reads this
    {
      Settled() && !released && Sound()
    }

    /** A reply has been read and not been dealt with. */
    ghost predicate Yielded(reply: Incoming)
      reads this
    {
      && Valid() && !inCallback && |received| == |delivered| && farewell == None && FreeIsPending()
      && !released && Sound() && (disconnecting ==> !noAutoFree)
      && received + (if reply.Reply? then [reply] else []) == Ordinary(consumed)
    }

    /**
     An ordinary reply with its callback waiting: the oldest callback gets it. A context freed by then, by
     this callback or before, is gone once a callback function has run.
     */
    method Serve(reply: Incoming)
      requires Yielded(reply) && reply.Reply? && replies != []
      modifies this
      ensures Settled() && unchanged(`inbox, `trapped, `consumed, `arrived, `malformed, `failed)
      ensures old(delivered) + [Delivery(old(replies)[0], Some(reply))] <= delivered
      ensures old(replies)[0].hasFn && freeing ==> released
    {
      var cb := Shift(reply);
      if cb.hasFn {
        RunCallback();
        if freeing { InternalFree(); }
      }
    }

    /** __redisShiftCallback: the oldest callback leaves the queue and has its reply. */
    method Shift(reply: Incoming) returns (cb: Callback)
      requires Yielded(reply) && reply.Reply? && replies != []
      modifies `replies, `delivered, `received
      ensures cb == old(replies)[0] && replies == old(replies)[1..]
      ensures delivered == old(delivered) + [Delivery(cb, Some(reply))] && received == old(received) + [reply]
      ensures Valid() && |received| == |delivered| && received == Ordinary(consumed)
      ensures !cb.hasFn ==> Settled()
    {
      cb := replies[0];
      replies, delivered := replies[1..], delivered + [Delivery(cb, Some(reply))];
      received := received + [reply];
    }

    /** A push message: the push callback runs, and may free the context for later. */
    method ServePush()
      requires Processing()
      modifies this
      ensures Processing() && unchanged(`inbox, `malformed, `consumed, `arrived, `received, `delivered)
    {
      ghost var was := freeing;
      if hasPush {
        RunCallback();
        if freeing && !was { freeMark := |delivered|; }
      }
    }

    /** Nothing more can be read: a clean disconnect that was waiting for this happens now. */
    method EndOfInput()
      requires Processing() && inbox == [] && !malformed
      modifies this
      ensures Steady() && unchanged(`arrived)
      ensures released <==> old(disconnecting && obuf == 0 && replies == [])
      ensures !released ==> unchanged(this)
      ensures unchanged(`failed, `trapped)
    {
      if disconnecting && obuf == 0 && replies == [] {
        InternalDisconnect();
      }
    }

    /**
     redisProcessCallbacks. Each ordinary reply goes to the oldest waiting callback; a reply without one
     ends the connection if it is an error and is a broken assumption otherwise. Everything the reader
     can yield is taken, and what ends the context then ends it.
     */
    method ProcessCallbacks()
      requires Processing()
      modifies this
      ensures Steady() && unchanged(`arrived)
      ensures !released && Sound() ==> !(disconnecting && obuf == 0 && replies == [])
      ensures failed ==> released || noAutoFree
      ensures freeing && !hasPush ==> released
      decreases |inbox|
    {
      while true
        invariant Processing() && unchanged(`arrived)
        decreases |inbox|
      {
        var ok, reply := NextReply();
        if !ok { break; }
        if reply.None? {
          EndOfInput();
          return;
        }
        var more := Process(reply.value);
        if !more { return; }
      }
      InternalDisconnect();
    }

    /** The stream does not parse any further. */
    ghost predicate Failing()
      reads this
    {
      && Valid() && !inCallback && |received| == |delivered| && farewell == None && FreeIsPending()
      && !released && failed && !trapped
    }

    method NextReply() returns (ok: bool, reply: Option<Incoming>)
      requires Processing()
      modifies `inbox, `failed, `consumed
      ensures !ok ==> Failing()
      ensures ok && reply.None? ==> Processing() && inbox == [] && !malformed
      ensures ok && reply.Some? ==> Yielded(reply.value) && |inbox| < |old(inbox)|
    {
      ghost var before := consumed;
      ok, reply := GetReply();
      if ok && reply.Some? {
        OrdinarySnoc(before, reply.value);
        assert Ordinary(consumed) == received + (if reply.value.Reply? then [reply.value] else []);
      }
    }

    /** One reply that has been read. */
    method Process(reply: Incoming) returns (more: bool)
      requires Yielded(reply)
      modifies this
      ensures unchanged(`arrived) && (more ==> Processing() && unchanged(`inbox))
      ensures !more ==> Steady() && (released || !Sound()) && (failed ==> released || noAutoFree)
      ensures !more && freeing && !hasPush ==> released
    {
      if reply.Push? {
        assert received + [] == received;
        ServePush();
        return true;
      }
      if replies == [] {
        if !reply.isError {
          trapped := true;
        } else {
          failed := true;
          InternalDisconnect();
        }
        return false;
      }
      Serve(reply);
      more := !released;
    }

    /** __redisAsyncHandleConnect: the connection is established, still under way, or given up. */
    method HandleConnect(connects: Outcome)
      requires Steady() && !released && !trapped && !connected
      modifies this
      ensures Steady() && unchanged(`trapped, `arrived, `inbox)
      ensures connects.NotEstablished? ==> farewell == None && !connected
      ensures !connects.NotEstablished? ==>
                && connected == connects.Established?
                && unchanged(`released, `failed, `malformed, `registered, `delivered, `received, `replies, `obuf, `disconnecting, `noAutoFree)
    {
      match connects
      case Established => connected := true;
      case StillConnecting =>
      case NotEstablished =>
        failed := true;
        InternalDisconnect();
    }

    /** redisAsyncHandleRead: reading fails, or the bytes read are processed. */
    method HandleRead(connects: Outcome, readable: bool, arrivals: seq<Incoming>, broken: bool)
      requires Steady() && !released && !trapped
      modifies this
      ensures Steady() && (arrived == old(arrived) || arrived == old(arrived) + arrivals)
      ensures !old(connected) && connects.StillConnecting? ==>
                unchanged(`connected, `released, `failed, `arrived, `registered, `delivered, `replies)
      ensures old(connected) || connects.Established? ==>
                && arrived == old(arrived) + (if old(failed) || !readable then [] else arrivals)
                && (old(failed) || !readable ==> failed)
                && (failed ==> released || noAutoFree)
                && (!released && Sound() ==> !(disconnecting && obuf == 0 && replies == []))
    {
      if !connected {
        HandleConnect(connects);
        if !connected || released { return; }
      }
      if failed || !readable {
        failed := true;
        InternalDisconnect();
      } else {
        inbox, arrived := inbox + arrivals, arrived + arrivals;
        malformed := malformed || broken;
        ProcessCallbacks();
      }
    }

    /** redisAsyncHandleWrite: writing fails, or some queued commands are flushed. */
    method HandleWrite(connects: Outcome, writable: bool, sent: nat)
      requires Steady() && !released && !trapped
      modifies this
      ensures Steady() && unchanged(`arrived)
      ensures !old(connected) && connects.StillConnecting? ==>
                unchanged(`connected, `released, `failed, `registered, `delivered, `replies)
      ensures (old(connected) || connects.Established?) && (old(failed) || !writable) ==> failed && (released || noAutoFree)
      ensures (old(connected) || connects.Established?) && !old(failed) && writable ==>
                && unchanged(`released, `failed, `registered, `delivered, `replies)
                && obuf == if sent <= old(obuf) then old(obuf) - sent else 0
    {
      if !connected {
        HandleConnect(connects);
        if !connected || released { return; }
      }
      if failed || !writable {
        failed := true;
        InternalDisconnect();
      } else {
        obuf := if sent <= obuf then obuf - sent else 0;
      }
    }

    /** One call of the user or the event loop on a live context. */
    method Handle(e: Event)
      requires Steady() && !released && !trapped
      modifies this
      ensures Steady() && (arrived == old(arrived) || (e.Readable? && arrived == old(arrived) + e.arrivals))
      ensures e.CallCommand? ==> registered == old(registered) + (if old(Closing()) then [] else [e.cb]) && !released
      ensures e.CallFree? ==> released
      ensures e.CallDisconnect? ==> (disconnecting || released) && (released <==> old(replies) == [])
    {
      match e
      case CallCommand(cb) => var ok := Command(cb);
      case CallDisconnect => AsyncDisconnect();
      case CallFree => AsyncFree();
      case Readable(connects, readable, arrivals, broken) => HandleRead(connects, readable, arrivals, broken);
      case Writable(connects, writable, sent) => HandleWrite(connects, writable, sent);
    }
  }

  lemma {:induction false} OrdinaryOfPrefix(s: seq<Incoming>, t: seq<Incoming>)
    requires s <= t
    ensures Ordinary(s) <= Ordinary(t)
    decreases |t| - |s|
  {
    if s == t {
    } else {
      var next := t[..|s| + 1];
      assert next == s + [t[|s|]];
      OrdinarySnoc(s, t[|s|]);
      OrdinaryOfPrefix(next, t);
    }
  }

  /**
   Any run of calls and events, with callbacks that issue commands, disconnect or free. The n-th
   accepted command's callback is the n-th served: with the n-th ordinary reply while replies last,
   with NULL once the context goes. Once it is gone every accepted callback has been served, none twice,
   and the disconnect callback has run if the connection was up, with OK unless an error ended it; and it
   is not gone unless it was freed, disconnected or ended by an error. A live, sound context has served
   every ordinary reply that arrived. A context freed from a callback does not live on: without a push
   callback it is gone at once, and otherwise at the next callback function at the latest.
   */
  method RunEvents(events: seq<Event>, behave: nat -> seq<Action>, noAutoFree: bool, hasPush: bool) returns (c: Context)
    ensures fresh(c) && c.Steady()
    ensures c.registered == Callbacks(c.delivered) + c.replies
    ensures forall i :: 0 <= i < |c.delivered| && c.delivered[i].reply.Some? ==>
              i < |Ordinary(c.arrived)| && c.delivered[i] == Delivery(c.registered[i], Some(Ordinary(c.arrived)[i]))
    ensures !c.released ==> forall i :: 0 <= i < |c.delivered| ==> c.delivered[i].reply.Some?
    ensures c.released ==> c.registered == Callbacks(c.delivered)
    ensures c.trapped ==> |Ordinary(c.arrived)| > |c.registered|
    ensures !c.released && c.Sound() ==> |c.delivered| == |Ordinary(c.arrived)|
    ensures c.freeing && !hasPush ==> c.released
    ensures c.freeing && !c.released ==>
              c.freeMark <= |c.delivered| && forall i :: c.freeMark <= i < |c.delivered| ==> !c.delivered[i].cb.hasFn
    ensures c.released && c.connected ==> c.farewell == Some(c.freeing || !c.failed)
    ensures c.released ==> c.freeing || c.disconnecting
  {
    c := new Context(behave, noAutoFree, hasPush);
    for i := 0 to |events|
      invariant fresh(c) && c.Steady() && c.hasPush == hasPush
    {
      if !c.released && !c.trapped { c.Handle(events[i]); }
    }
    OrdinaryOfPrefix(c.consumed, c.arrived);
    assert c.inbox == [] ==> c.consumed == c.arrived;
    forall i | 0 <= i < |c.delivered| && c.delivered[i].reply.Some?
      ensures i < |Ordinary(c.arrived)| && c.delivered[i] == Delivery(c.registered[i], Some(Ordinary(c.arrived)[i]))
    {
      assert c.registered[i] == Callbacks(c.delivered)[i];
      assert c.received[i] == Ordinary(c.consumed)[i];
    }
  }
}
