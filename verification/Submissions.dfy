/**
 The order of tasks in the worker pool: as they were submitted, that is, as the calls of AddTask first
 got the mutex, and as they were accepted. A producer that has to wait can be overtaken.
 */
module Submissions {
  import opened Bytes
  import opened WorkerPool
  import opened WakeUps

  function Accepted(log: seq<Entry>): (rs: seq<Request>)
    ensures |rs| == |log| && forall i :: 0 <= i < |log| ==> rs[i] == Request(log[i].who, log[i].task)
  {
    seq(|log|, i requires 0 <= i < |log| => Request(log[i].who, log[i].task))
  }

  function TasksIn(rs: seq<Request>): (ts: seq<Task>)
    ensures |ts| == |rs| && forall i :: 0 <= i < |rs| ==> ts[i] == rs[i].task
  {
    seq(|rs|, i requires 0 <= i < |rs| => rs[i].task)
  }

  /** The requests with a key, of one producer or of all. */
  predicate Matches(r: Request, who: Option<nat>, k: string) {
    r.task.key == Some(k) && (who.None? || who == Some(r.who))
  }

  function Of(rs: seq<Request>, who: Option<nat>, k: string): seq<Request> {
    if rs == [] then []
    else Of(rs[..|rs| - 1], who, k) + (if Matches(rs[|rs| - 1], who, k) then [rs[|rs| - 1]] else [])
  }

  lemma OfSnoc(rs: seq<Request>, r: Request, who: Option<nat>, k: string)
    ensures Of(rs + [r], who, k) == Of(rs, who, k) + (if Matches(r, who, k) then [r] else [])
  {
    assert (rs + [r])[..|rs|] == rs;
  }

  /** What a producer has submitted and not yet pushed. */
  function Submitted(p: nat, x: Producer): seq<Request> {
    match x
    case Outside => []
    case Pushed => []
    case Testing(_, t) => [Request(p, t)]
    case OverLimit(_, t) => [Request(p, t)]
    case Ready(_, t) => [Request(p, t)]
    case Asleep(_, t) => [Request(p, t)]
    case Awake(_, t) => [Request(p, t)]
  }

  lemma AcceptedSnoc(log: seq<Entry>, e: Entry)
    ensures Accepted(log + [e]) == Accepted(log) + [Request(e.who, e.task)]
  {
  }

  /** What was submitted is what was accepted and then what is pending, in the same order. */
  predicate InOrder(asked: seq<Request>, log: seq<Entry>, pending: seq<Request>, who: Option<nat>, k: string) {
    Of(asked, who, k) == Of(Accepted(log), who, k) + Of(pending, who, k)
  }

  lemma OfOne(r: Request, who: Option<nat>, k: string)
    ensures Of([r], who, k) == if Matches(r, who, k) then [r] else []
    ensures Of([], who, k) == []
  {
    assert [r][..0] == [];
  }

  lemma Asks(asked: seq<Request>, log: seq<Entry>, r: Request, who: Option<nat>, k: string)
    requires InOrder(asked, log, [], who, k)
    ensures InOrder(asked + [r], log, [r], who, k)
  {
    OfSnoc(asked, r, who, k);
    OfOne(r, who, k);
  }

  lemma IsAccepted(asked: seq<Request>, log: seq<Entry>, e: Entry, r: Request, who: Option<nat>, k: string)
    requires InOrder(asked, log, [r], who, k) && r == Request(e.who, e.task)
    ensures InOrder(asked, log + [e], [], who, k)
  {
    AcceptedSnoc(log, e);
    OfSnoc(Accepted(log), r, who, k);
    OfOne(r, who, k);
  }

  /** Requests that do not match change nothing. */
  lemma OtherAsks(asked: seq<Request>, log: seq<Entry>, pending: seq<Request>, r: Request, who: Option<nat>, k: string)
    requires InOrder(asked, log, pending, who, k) && !Matches(r, who, k)
    ensures InOrder(asked + [r], log, pending, who, k)
  {
    OfSnoc(asked, r, who, k);
  }

  lemma OtherIsAccepted(asked: seq<Request>, log: seq<Entry>, pending: seq<Request>, e: Entry, who: Option<nat>, k: string)
    requires InOrder(asked, log, pending, who, k) && !Matches(Request(e.who, e.task), who, k)
    ensures InOrder(asked, log + [e], pending, who, k)
  {
    AcceptedSnoc(log, e);
    OfSnoc(Accepted(log), Request(e.who, e.task), who, k);
  }

  lemma OtherIsPending(asked: seq<Request>, log: seq<Entry>, r: Request, who: Option<nat>, k: string)
    requires !Matches(r, who, k)
    ensures InOrder(asked, log, [r], who, k) <==> InOrder(asked, log, [], who, k)
  {
    OfOne(r, who, k);
  }

  // ----- one producer's tasks -----

  /** A producer's submissions are its accepted ones and then the one it is still in AddTask with. */
  predicate OwnInOrder(s: State, p: nat, k: string) {
    InOrder(s.asked, s.log, Submitted(p, At(s, p)), Some(p), k)
  }

  lemma StepStaysOwn(c: Setup, s: State, a: Step, p: nat, k: string)
    requires OwnInOrder(s, p, k) && Enabled(c, s, a)
    ensures OwnInOrder(Next(c, s, a), p, k)
  {
    if a.Enter? {
      var r := Request(a.p, a.task);
      if a.p == p {
        Asks(s.asked, s.log, r, Some(p), k);
      } else {
        OtherAsks(s.asked, s.log, Submitted(p, At(s, p)), r, Some(p), k);
      }
    } else if a.Push? {
      var t := At(s, a.p);
      var e := Entry(a.p, t.w, t.task);
      if a.p == p {
        IsAccepted(s.asked, s.log, e, Request(p, t.task), Some(p), k);
      } else {
        OtherIsAccepted(s.asked, s.log, Submitted(p, At(s, p)), e, Some(p), k);
      }
    } else {
      QuietStep(c, s, a, p);
    }
  }

  /** The other steps neither submit nor push. */
  lemma QuietStep(c: Setup, s: State, a: Step, p: nat)
    requires Enabled(c, s, a) && !a.Enter? && !a.Push?
    ensures var n := Next(c, s, a); n.asked == s.asked && n.log == s.log
    ensures Submitted(p, At(Next(c, s, a), p)) == Submitted(p, At(s, p))
  {
  }

  /** Each producer's own tasks of a key are accepted in the order of its submissions, in every run. */
  lemma {:induction false} OwnOrder(c: Setup, steps: seq<Step>, p: nat, k: string)
    requires Run(c, steps).Some?
    ensures OwnInOrder(Run(c, steps).value, p, k)
  {
    if steps != [] {
      OwnOrder(c, steps[..|steps| - 1], p, k);
      StepStaysOwn(c, Run(c, steps[..|steps| - 1]).value, steps[|steps| - 1], p, k);
    }
  }

  // ----- from acceptance to the workers -----

  lemma {:induction false} KeyedTasks(log: seq<Entry>, k: string)
    ensures OfKey(TasksOf(log), k) == TasksIn(Of(Accepted(log), None, k))
  {
    if log != [] {
      var init, e := log[..|log| - 1], log[|log| - 1];
      assert log == init + [e];
      KeyedTasks(init, k);
      AcceptedSnoc(init, e);
      OfSnoc(Accepted(init), Request(e.who, e.task), None, k);
      assert TasksOf(log)[..|log| - 1] == TasksOf(init);
    }
  }

  /** The tasks of a key that its worker has started, and then those it still queues. */
  function AtWorker(c: Setup, s: State, k: string): seq<Task>
    requires c.hash.Some? && Home(c, k) < |s.workers|
  {
    OfKey(s.workers[Home(c, k)].started, k) + OfKey(s.workers[Home(c, k)].queue, k)
  }

  /** They are the accepted ones, in the order of acceptance. */
  lemma AcceptanceOrder(c: Setup, steps: seq<Step>, k: string)
    requires Sound(c) && c.hash.Some? && Run(c, steps).Some?
    ensures var s := Run(c, steps).value;
            Home(c, k) < |s.workers| && AtWorker(c, s, k) == TasksIn(Of(Accepted(s.log), None, k))
  {
    KeyOrder(c, steps, k);
    KeyedTasks(Run(c, steps).value.log, k);
  }

  lemma {:induction false} OwnAmongAll(rs: seq<Request>, p: nat, k: string)
    ensures Of(Of(rs, None, k), Some(p), k) == Of(rs, Some(p), k)
  {
    if rs != [] {
      var init, r := rs[..|rs| - 1], rs[|rs| - 1];
      OwnAmongAll(init, p, k);
      assert Of(init, None, k) + [] == Of(init, None, k) && Of(init, Some(p), k) + [] == Of(init, Some(p), k);
      if Matches(r, None, k) { OfSnoc(Of(init, None, k), r, Some(p), k); }
    }
  }

  /** The worker has the tasks of requests among which each producer's own are in the order it submitted them. */
  lemma OwnTasksStartInOrder(c: Setup, steps: seq<Step>, p: nat, k: string)
    requires Sound(c) && c.hash.Some? && Run(c, steps).Some?
    ensures var s := Run(c, steps).value; var rs := Of(Accepted(s.log), None, k);
            && Home(c, k) < |s.workers| && AtWorker(c, s, k) == TasksIn(rs)
            && Of(rs, Some(p), k) + Of(Submitted(p, At(s, p)), Some(p), k) == Of(s.asked, Some(p), k)
  {
    AcceptanceOrder(c, steps, k);
    OwnOrder(c, steps, p, k);
    OwnAmongAll(Accepted(Run(c, steps).value.log), p, k);
  }

  // ----- all tasks of a key -----

  /** No step of the run puts a producer with this key to sleep. */
  predicate NobodyWaits(c: Setup, steps: seq<Step>, k: string) {
    steps == [] ||
    (NobodyWaits(c, steps[..|steps| - 1], k)
     && (Run(c, steps[..|steps| - 1]).Some? ==> !DozesOff(Run(c, steps[..|steps| - 1]).value, steps[|steps| - 1], k)))
  }

  predicate DozesOff(s: State, a: Step, k: string) {
    a.Sleep? && At(s, a.p).OverLimit? && At(s, a.p).task.key == Some(k)
  }

  predicate WaitsWith(x: Producer, k: string) { (x.Asleep? || x.Awake?) && x.task.key == Some(k) }

  /** The submission of the producer that has the mutex. */
  function InHand(s: State): seq<Request> {
    if s.holder.Some? then Submitted(s.holder.value, At(s, s.holder.value)) else []
  }

  predicate NoWaiters(s: State, k: string) { forall p :: p in s.producers ==> !WaitsWith(s.producers[p], k) }

  /** The submissions are the accepted ones and then the one in hand. */
  predicate AllInOrder(s: State, k: string) { InOrder(s.asked, s.log, InHand(s), None, k) }

  lemma StepStaysWithoutWaiters(c: Setup, s: State, a: Step, k: string)
    requires NoWaiters(s, k) && Enabled(c, s, a) && !DozesOff(s, a, k)
    ensures NoWaiters(Next(c, s, a), k)
  {
  }

  lemma StepStaysInOrder(c: Setup, s: State, a: Step, k: string)
    requires NoWaiters(s, k) && AllInOrder(s, k) && Exclusive(s) && Enabled(c, s, a) && !DozesOff(s, a, k)
    ensures AllInOrder(Next(c, s, a), k)
  {
    if a.Enter? {
      Asks(s.asked, s.log, Request(a.p, a.task), None, k);
    } else if a.Push? {
      var t := At(s, a.p);
      IsAccepted(s.asked, s.log, Entry(a.p, t.w, t.task), Request(a.p, t.task), None, k);
    } else if a.Sleep? || a.Resume? {
      OtherIsPending(s.asked, s.log, Request(a.p, At(s, a.p).task), None, k);
    } else if s.holder.Some? {
      QuietStep(c, s, a, s.holder.value);
    }
  }

  /** In a run in which nobody has to wait with a key, its tasks are started in the order of their submission. */
  lemma {:induction false} RunStaysInOrder(c: Setup, steps: seq<Step>, k: string)
    requires Sound(c) && Run(c, steps).Some? && NobodyWaits(c, steps, k)
    ensures NoWaiters(Run(c, steps).value, k) && AllInOrder(Run(c, steps).value, k)
  {
    if steps != [] {
      var init := steps[..|steps| - 1];
      RunStaysInOrder(c, init, k);
      RunKeeps(c, init);
      StepStaysWithoutWaiters(c, Run(c, init).value, steps[|steps| - 1], k);
      StepStaysInOrder(c, Run(c, init).value, steps[|steps| - 1], k);
    }
  }

  lemma SubmissionOrder(c: Setup, steps: seq<Step>, k: string)
    requires Sound(c) && c.hash.Some? && Run(c, steps).Some? && NobodyWaits(c, steps, k)
    ensures var s := Run(c, steps).value;
            && Home(c, k) < |s.workers|
            && AtWorker(c, s, k) + TasksIn(Of(InHand(s), None, k)) == TasksIn(Of(s.asked, None, k))
  {
    RunStaysInOrder(c, steps, k);
    AcceptanceOrder(c, steps, k);
  }

  /** When a task is pushed, whoever else has submitted one and not pushed it is asleep or just notified. */
  lemma OnlyWaitersAreOvertaken(c: Setup, steps: seq<Step>, p: nat, q: nat)
    requires Sound(c) && Run(c, steps).Some? && Enabled(c, Run(c, steps).value, Push(p))
    requires q != p && Submitted(q, At(Run(c, steps).value, q)) != []
    ensures At(Run(c, steps).value, q).Asleep? || At(Run(c, steps).value, q).Awake?
  {
    RunKeeps(c, steps);
  }

  // ----- overtaking -----

  lemma {:induction false} NoKeys(rs: seq<Request>, who: Option<nat>, k: string)
    requires forall i :: 0 <= i < |rs| ==> rs[i].task.key.None?
    ensures Of(rs, who, k) == []
  {
    if rs != [] { NoKeys(rs[..|rs| - 1], who, k); }
  }

  /** A sleeper, with the pool full. */
  lemma FallsAsleep(c: Setup, filler: Task, p: nat, t: Task) returns (s: State, full: State)
    requires Sound(c) && filler.key.None?
    ensures Reachable(c, s) && At(s, p).Asleep? && At(s, p).task == t && s.holder.None?
    ensures forall q :: q in s.producers && q != p ==> s.producers[q].Outside?
    ensures Outstanding(s.workers) == Limit(c) + 1
    ensures s.asked == full.asked + [Request(p, t)] && s.log == full.log
    ensures forall i :: 0 <= i < |full.asked| ==> full.asked[i].task.key.None?
    ensures forall i :: 0 <= i < |full.log| ==> full.log[i].task.key.None?
  {
    full := Fill(c, Limit(c) + 1, filler);
    var m := OverTheLimit(c, full, p, t);
    s := Next(c, m, Sleep(p));
    LeadsOn(c, Start(c), m, Sleep(p), s);
  }

  /** A completion notifies the sleeper. */
  lemma Notifies(c: Setup, s: State, p: nat) returns (n: State)
    requires Sound(c) && Reachable(c, s) && At(s, p).Asleep? && Outstanding(s.workers) > 0
    ensures Reachable(c, n) && Outstanding(n.workers) + 1 == Outstanding(s.workers)
    ensures n.holder == s.holder && n.asked == s.asked && n.log == s.log
    ensures n.producers == s.producers[p := Awake(At(s, p).w, At(s, p).task)]
  {
    var w := SomePending(s.workers);
    var m := s;
    if s.workers[w].running.None? {
      m := Next(c, s, Take(w));
      LeadsOn(c, Start(c), s, Take(w), m);
      OutstandingAfter(s.workers, w, Pop(s.workers[w]));
    }
    n := Next(c, m, Complete(w, p));
    LeadsOn(c, Start(c), m, Complete(w, p), n);
    OutstandingAfter(m.workers, w, m.workers[w].(running := None));
  }

  lemma TwoAndOne(asked: seq<Request>, log: seq<Entry>, t: Task, u: Task, w: nat, k: string)
    requires t.key == Some(k) && u.key == Some(k)
    requires forall i :: 0 <= i < |asked| ==> asked[i].task.key.None?
    requires forall i :: 0 <= i < |log| ==> log[i].task.key.None?
    ensures Of(asked + [Request(1, t)] + [Request(2, u)], None, k) == [Request(1, t), Request(2, u)]
    ensures Of(Accepted(log + [Entry(2, w, u)]), None, k) == [Request(2, u)]
  {
    NoKeys(asked, None, k);
    OfSnoc(asked, Request(1, t), None, k);
    OfSnoc(asked + [Request(1, t)], Request(2, u), None, k);
    NoKeys(Accepted(log), None, k);
    AcceptedSnoc(log, Entry(2, w, u));
    OfSnoc(Accepted(log), Request(2, u), None, k);
  }

  /**
   Every pool can reverse the order of submission: a producer that had to wait is notified, and before it
   gets the mutex back a later task with the same key is accepted.
   */
  lemma WaiterCanBeOvertaken(c: Setup, filler: Task, t: Task, u: Task, k: string) returns (s: State)
    requires Sound(c) && filler.key.None? && t.key == Some(k) && u.key == Some(k)
    ensures Reachable(c, s) && At(s, 1).Awake? && At(s, 1).task == t
    ensures Of(s.asked, None, k) == [Request(1, t), Request(2, u)]
    ensures Of(Accepted(s.log), None, k) == [Request(2, u)]
  {
    var asleep, full := FallsAsleep(c, filler, 1, t);
    var awake := Notifies(c, asleep, 1);
    s := Pushes(c, awake, 2, u);
    TwoAndOne(full.asked, full.log, t, u, Choose(c, awake.index, u).0, k);
  }

  // ----- round robin -----

  predicate HasHome(c: Setup, t: Task) { c.hash.Some? && t.key.Some? }

  /** Tasks so far that have no home worker. */
  function Homeless(c: Setup, asked: seq<Request>): nat {
    if asked == [] then 0
    else Homeless(c, asked[..|asked| - 1]) + (if HasHome(c, asked[|asked| - 1].task) then 0 else 1)
  }

  lemma NextTurn(n: nat, q: nat, w: nat, index: nat) returns (q': nat)
    requires w > 0 && n == q * w + index && index < w
    ensures n + 1 == q' * w + (if index + 1 >= w then 0 else index + 1)
  {
    q' := if index + 1 >= w then q + 1 else q;
    assert (q + 1) * w == q * w + w;
  }

  /** Tasks without a home take the workers in turn: after q full turns and index more tasks, index was the last. */
  lemma {:induction false} WorkersTakeTurns(c: Setup, steps: seq<Step>) returns (q: nat)
    requires Sound(c) && Run(c, steps).Some?
    ensures var s := Run(c, steps).value; s.index < c.workers && Homeless(c, s.asked) == q * c.workers + s.index
  {
    if steps == [] {
      q := 0;
    } else {
      var init, a := steps[..|steps| - 1], steps[|steps| - 1];
      q := WorkersTakeTurns(c, init);
      var s := Run(c, init).value;
      if a.Enter? {
        assert (s.asked + [Request(a.p, a.task)])[..|s.asked|] == s.asked;
        if !HasHome(c, a.task) { q := NextTurn(Homeless(c, s.asked), q, c.workers, s.index); }
      }
    }
  }

  /** The worker of a submitted task: the home of its key, or the one whose turn it is. */
  lemma WorkerOfTask(c: Setup, steps: seq<Step>, p: nat, t: Task) returns (q: nat, w: nat)
    requires Sound(c) && Run(c, steps).Some? && Enabled(c, Run(c, steps).value, Enter(p, t))
    ensures At(Next(c, Run(c, steps).value, Enter(p, t)), p) == Testing(w, t) && w < c.workers
    ensures if HasHome(c, t) then var h := c.hash.value(t.key.value, c.workers); w == if h < c.workers then h else 0
            else Homeless(c, Run(c, steps).value.asked) + 1 == q * c.workers + w
  {
    var s := Run(c, steps).value;
    q := WorkersTakeTurns(c, steps);
    w := At(Next(c, s, Enter(p, t)), p).w;
    if !HasHome(c, t) { q := NextTurn(Homeless(c, s.asked), q, c.workers, s.index); }
  }
}
