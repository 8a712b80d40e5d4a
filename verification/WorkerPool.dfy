/** The bounded worker pool: producers that may have to wait, workers with one queue each, in every interleaving. */
module WorkerPool {
  import opened Bytes

  const WRAP: nat := 0x1_0000_0000

  datatype Task = Task(id: nat, key: Option<string>)

  /** A worker's queue, the task it executes, and all tasks it has taken so far. */
  datatype Worker = Worker(queue: seq<Task>, running: Option<Task>, started: seq<Task>)

  /**
   A producer in AddTask: testing the limit, found over it, ready to push, or having pushed but not
   counted, all with the mutex held; or waiting without it.
   */
  datatype Producer =
    | Outside
    | Testing(w: nat, task: Task) | OverLimit(w: nat, task: Task) | Ready(w: nat, task: Task) | Pushed
    | Asleep(w: nat, task: Task) | Awake(w: nat, task: Task)

  /** A call of AddTask, and a task pushed onto a worker's queue. */
  datatype Request = Request(who: nat, task: Task)

  datatype Entry = Entry(who: nat, to: nat, task: Task)

  /** Number of workers, tasks allowed per worker, and the hash that chooses a worker for a key, if set. */
  datatype Setup = Setup(workers: nat, maxPerWorker: nat, hash: Option<(string, nat) -> nat>)

  function Limit(c: Setup): nat { c.maxPerWorker * c.workers }

  /** At least one worker, and a limit whose product and successor fit in 32 bits. */
  predicate Sound(c: Setup) { c.workers > 0 && Limit(c) + 1 < WRAP }

  /**
   The 32-bit counter, the round-robin index, the mutex, and everyone involved; asked holds the calls in
   the order in which they got the mutex first, log the accepted tasks.
   */
  datatype State = State(count: int, index: nat, holder: Option<nat>, producers: map<nat, Producer>,
                         workers: seq<Worker>, asked: seq<Request>, log: seq<Entry>)

  datatype Step =
    | Enter(p: nat, task: Task) | Test(p: nat) | Sleep(p: nat) | Rouse(p: nat) | Resume(p: nat)
    | Push(p: nat) | Tally(p: nat) | Take(w: nat) | Complete(w: nat, pick: nat)

  function At(s: State, p: nat): Producer { if p in s.producers then s.producers[p] else Outside }

  function Put(s: State, p: nat, to: Producer): State { s.(producers := s.producers[p := to]) }

  function Start(c: Setup): State {
    State(0, 0, None, map[], seq(c.workers, i => Worker([], None, [])), [], [])
  }

  /** The worker a task goes to, and the round-robin index after choosing it. */
  function Choose(c: Setup, index: nat, task: Task): (nat, nat) {
    if task.key.Some? && c.hash.Some? then
      var h := c.hash.value(task.key.value, c.workers);
      (if h >= c.workers then 0 else h, index)
    else
      var next := if index + 1 >= c.workers then 0 else index + 1;
      (next, next)
  }

  predicate Enabled(c: Setup, s: State, a: Step) {
    match a
    case Enter(p, task) => s.holder.None? && At(s, p).Outside?
    case Test(p) => At(s, p).Testing?
    case Sleep(p) => At(s, p).OverLimit?
    case Rouse(p) => At(s, p).Asleep?
    case Resume(p) => s.holder.None? && At(s, p).Awake?
    case Push(p) => At(s, p).Ready? && At(s, p).w < |s.workers|
    case Tally(p) => At(s, p).Pushed?
    case Take(w) => w < |s.workers| && s.workers[w].running.None? && s.workers[w].queue != []
    case Complete(w, pick) =>
      && w < |s.workers| && s.workers[w].running.Some?
      && ((exists p :: p in s.producers && s.producers[p].Asleep?) ==> At(s, pick).Asleep?)
  }

  function Pop(x: Worker): Worker
    requires x.queue != []
  {
    Worker(x.queue[1..], Some(x.queue[0]), x.started + [x.queue[0]])
  }

  function Next(c: Setup, s: State, a: Step): State
    requires Enabled(c, s, a)
  {
    match a
    case Enter(p, task) =>
      var (w, index) := Choose(c, s.index, task);
      Put(s.(index := index, holder := Some(p), asked := s.asked + [Request(p, task)]), p, Testing(w, task))
    case Test(p) =>
      var t := At(s, p);
      Put(s, p, if s.count > Limit(c) then OverLimit(t.w, t.task) else Ready(t.w, t.task))
    case Sleep(p) => Put(s.(holder := None), p, Asleep(At(s, p).w, At(s, p).task))
    case Rouse(p) => Put(s, p, Awake(At(s, p).w, At(s, p).task))
    case Resume(p) => Put(s.(holder := Some(p)), p, Testing(At(s, p).w, At(s, p).task))
    case Push(p) =>
      var t := At(s, p);
      var x := s.workers[t.w];
      Put(s.(workers := s.workers[t.w := x.(queue := x.queue + [t.task])], log := s.log + [Entry(p, t.w, t.task)]), p, Pushed)
    case Tally(p) => Put(s.(count := (s.count + 1) % WRAP, holder := None), p, Outside)
    case Take(w) => s.(workers := s.workers[w := Pop(s.workers[w])])
    case Complete(w, pick) =>
      var done := s.(count := (s.count - 1) % WRAP, workers := s.workers[w := s.workers[w].(running := None)]);
      if At(s, pick).Asleep? then Put(done, pick, Awake(At(s, pick).w, At(s, pick).task)) else done
  }

  // ----- the bound -----

  function Pending(x: Worker): nat { |x.queue| + if x.running.Some? then 1 else 0 }

  /** Tasks accepted and not completed. */
  function Outstanding(xs: seq<Worker>): nat {
    if xs == [] then 0 else Outstanding(xs[..|xs| - 1]) + Pending(xs[|xs| - 1])
  }

  lemma {:induction false} OutstandingAfter(xs: seq<Worker>, w: nat, x: Worker)
    requires w < |xs|
    ensures Outstanding(xs[w := x]) == Outstanding(xs) - Pending(xs[w]) + Pending(x)
    ensures Outstanding(xs) >= Pending(xs[w])
  {
    var n := |xs| - 1;
    var ys := xs[w := x];
    if w == n {
      assert ys[..n] == xs[..n];
    } else {
      assert ys[..n] == xs[..n][w := x];
      OutstandingAfter(xs[..n], w, x);
    }
  }

  lemma {:induction false} NothingOutstanding(xs: seq<Worker>)
    requires forall i :: 0 <= i < |xs| ==> Pending(xs[i]) == 0
    ensures Outstanding(xs) == 0
  {
    if xs != [] { NothingOutstanding(xs[..|xs| - 1]); }
  }

  predicate InSection(x: Producer) { x.Testing? || x.OverLimit? || x.Ready? || x.Pushed? }

  /** The mutex admits one producer at a time. */
  ghost predicate Exclusive(s: State) {
    && (s.holder.Some? ==> InSection(At(s, s.holder.value)))
    && forall p :: p in s.producers && InSection(s.producers[p]) ==> s.holder == Some(p)
  }

  /** A task has been pushed and not yet counted. */
  predicate Uncounted(s: State) { s.holder.Some? && At(s, s.holder.value).Pushed? }

  /**
   The counter is what is outstanding, less the task just pushed, in 32 bits: minus one, wrapped, when
   that task has already been completed. Outstanding tasks never exceed the limit by more than one.
   */
  ghost predicate Bounded(c: Setup, s: State) {
    && s.count == (Outstanding(s.workers) - (if Uncounted(s) then 1 else 0)) % WRAP
    && Outstanding(s.workers) <= Limit(c) + 1
    && (s.holder.Some? && At(s, s.holder.value).Ready? ==> Outstanding(s.workers) <= Limit(c))
  }

  ghost predicate Placed(c: Setup, s: State) {
    && |s.workers| == c.workers
    && forall p :: p in s.producers && !s.producers[p].Outside? && !s.producers[p].Pushed? ==> s.producers[p].w < c.workers
  }

  ghost predicate Inv(c: Setup, s: State) { Placed(c, s) && Exclusive(s) && Bounded(c, s) }

  lemma StepStaysPlaced(c: Setup, s: State, a: Step)
    requires Sound(c) && Placed(c, s) && Enabled(c, s, a)
    ensures Placed(c, Next(c, s, a))
  {
  }

  lemma StepStaysExclusive(c: Setup, s: State, a: Step)
    requires Exclusive(s) && Enabled(c, s, a)
    ensures Exclusive(Next(c, s, a))
  {
  }

  lemma WrapAgain(n: int, d: int)
    ensures (n % WRAP + d) % WRAP == (n + d) % WRAP
  {
  }

  lemma PushStaysBounded(c: Setup, s: State, p: nat)
    requires Sound(c) && Inv(c, s) && Enabled(c, s, Push(p))
    ensures Bounded(c, Next(c, s, Push(p)))
  {
    var t := At(s, p);
    var x := s.workers[t.w];
    OutstandingAfter(s.workers, t.w, x.(queue := x.queue + [t.task]));
    assert s.holder == Some(p);
  }

  lemma TallyStaysBounded(c: Setup, s: State, p: nat)
    requires Sound(c) && Inv(c, s) && Enabled(c, s, Tally(p))
    ensures Bounded(c, Next(c, s, Tally(p)))
  {
    assert s.holder == Some(p);
    WrapAgain(Outstanding(s.workers) - 1, 1);
  }

  lemma CompleteStaysBounded(c: Setup, s: State, w: nat, pick: nat)
    requires Sound(c) && Inv(c, s) && Enabled(c, s, Complete(w, pick))
    ensures Bounded(c, Next(c, s, Complete(w, pick)))
  {
    var t := Next(c, s, Complete(w, pick));
    OutstandingAfter(s.workers, w, s.workers[w].(running := None));
    WrapAgain(Outstanding(s.workers) - (if Uncounted(s) then 1 else 0), -1);
    assert s.holder.Some? ==> At(t, s.holder.value) == At(s, s.holder.value);
  }

  lemma TakeStaysBounded(c: Setup, s: State, w: nat)
    requires Sound(c) && Inv(c, s) && Enabled(c, s, Take(w))
    ensures Bounded(c, Next(c, s, Take(w)))
  {
    OutstandingAfter(s.workers, w, Pop(s.workers[w]));
    assert s.holder.Some? ==> At(Next(c, s, Take(w)), s.holder.value) == At(s, s.holder.value);
  }

  lemma ProducerStaysBounded(c: Setup, s: State, a: Step)
    requires Sound(c) && Inv(c, s) && Enabled(c, s, a)
    requires !a.Push? && !a.Tally? && !a.Take? && !a.Complete?
    ensures Bounded(c, Next(c, s, a))
  {
    var t := Next(c, s, a);
    assert t.workers == s.workers && t.count == s.count;
    assert !Uncounted(t) || a.Rouse?;
  }

  lemma StepKeeps(c: Setup, s: State, a: Step)
    requires Sound(c) && Inv(c, s) && Enabled(c, s, a)
    ensures Inv(c, Next(c, s, a))
  {
    StepStaysPlaced(c, s, a);
    StepStaysExclusive(c, s, a);
    match a
    case Enter(p, task) => ProducerStaysBounded(c, s, a);
    case Test(p) => ProducerStaysBounded(c, s, a);
    case Sleep(p) => ProducerStaysBounded(c, s, a);
    case Rouse(p) => ProducerStaysBounded(c, s, a);
    case Resume(p) => ProducerStaysBounded(c, s, a);
    case Push(p) => PushStaysBounded(c, s, p);
    case Tally(p) => TallyStaysBounded(c, s, p);
    case Take(w) => TakeStaysBounded(c, s, w);
    case Complete(w, pick) => CompleteStaysBounded(c, s, w, pick);
  }

  // ----- runs -----

  /** The state after legal steps from a state, None after any others. */
  function RunFrom(c: Setup, from: State, steps: seq<Step>): Option<State> {
    if steps == [] then Some(from)
    else match RunFrom(c, from, steps[..|steps| - 1])
      case None => None
      case Some(s) => if Enabled(c, s, steps[|steps| - 1]) then Some(Next(c, s, steps[|steps| - 1])) else None
  }

  function Run(c: Setup, steps: seq<Step>): Option<State> { RunFrom(c, Start(c), steps) }

  /** In every run, accepted but uncompleted tasks never exceed the limit by more than one. */
  lemma {:induction false} RunKeeps(c: Setup, steps: seq<Step>)
    requires Sound(c) && Run(c, steps).Some?
    ensures Inv(c, Run(c, steps).value)
    ensures Outstanding(Run(c, steps).value.workers) <= c.maxPerWorker * c.workers + 1
  {
    if steps == [] {
      NothingOutstanding(Start(c).workers);
    } else {
      RunKeeps(c, steps[..|steps| - 1]);
      StepKeeps(c, Run(c, steps[..|steps| - 1]).value, steps[|steps| - 1]);
    }
  }

  // ----- order -----

  /** The tasks accepted for a worker, in order of acceptance. */
  function ByWorker(log: seq<Entry>, w: nat): seq<Task> {
    if log == [] then []
    else
      var last := log[|log| - 1];
      ByWorker(log[..|log| - 1], w) + (if last.to == w then [last.task] else [])
  }

  function TasksOf(log: seq<Entry>): (ts: seq<Task>)
    ensures |ts| == |log|
  {
    seq(|log|, i requires 0 <= i < |log| => log[i].task)
  }

  function OfKey(ts: seq<Task>, k: string): seq<Task> {
    if ts == [] then []
    else OfKey(ts[..|ts| - 1], k) + (if ts[|ts| - 1].key == Some(k) then [ts[|ts| - 1]] else [])
  }

  lemma {:induction false} OfKeyApp(a: seq<Task>, b: seq<Task>, k: string)
    ensures OfKey(a + b, k) == OfKey(a, k) + OfKey(b, k)
  {
    if b == [] {
      assert a + b == a;
    } else {
      assert (a + b)[..|a + b| - 1] == a + b[..|b| - 1];
      OfKeyApp(a, b[..|b| - 1], k);
    }
  }

  /** The worker of a key when a hash is set. */
  function Home(c: Setup, k: string): nat
    requires c.hash.Some?
  {
    var h := c.hash.value(k, c.workers);
    if h >= c.workers then 0 else h
  }

  predicate AtHome(c: Setup, w: nat, t: Task) { c.hash.Some? && t.key.Some? ==> w == Home(c, t.key.value) }

  /** Every worker has taken, or still queues, exactly its accepted tasks in order; keyed tasks are at home. */
  ghost predicate Ordered(c: Setup, s: State) {
    && (forall w :: 0 <= w < |s.workers| ==> s.workers[w].started + s.workers[w].queue == ByWorker(s.log, w))
    && (forall i :: 0 <= i < |s.log| ==> AtHome(c, s.log[i].to, s.log[i].task))
    && (forall p :: p in s.producers && !s.producers[p].Outside? && !s.producers[p].Pushed? ==>
          AtHome(c, s.producers[p].w, s.producers[p].task))
  }

  lemma ByWorkerSnoc(log: seq<Entry>, e: Entry, v: nat)
    ensures ByWorker(log + [e], v) == ByWorker(log, v) + (if e.to == v then [e.task] else [])
  {
    assert (log + [e])[..|log|] == log;
  }

  lemma PushStaysOrdered(c: Setup, s: State, p: nat)
    requires Ordered(c, s) && Enabled(c, s, Push(p))
    ensures Ordered(c, Next(c, s, Push(p)))
  {
    var t, n := At(s, p), Next(c, s, Push(p));
    forall v | 0 <= v < |n.workers| ensures n.workers[v].started + n.workers[v].queue == ByWorker(n.log, v) {
      ByWorkerSnoc(s.log, Entry(p, t.w, t.task), v);
      var x := s.workers[v];
      assert x.started + x.queue == ByWorker(s.log, v);
      assert x.started + (x.queue + [t.task]) == x.started + x.queue + [t.task];
      assert ByWorker(s.log, v) + [] == ByWorker(s.log, v);
    }
  }

  lemma StepStaysOrdered(c: Setup, s: State, a: Step)
    requires Ordered(c, s) && Enabled(c, s, a)
    ensures Ordered(c, Next(c, s, a))
  {
    match a
    case Enter(p, task) =>
    case Test(p) =>
    case Sleep(p) =>
    case Rouse(p) =>
    case Resume(p) =>
    case Push(p) => PushStaysOrdered(c, s, p);
    case Tally(p) =>
    case Take(w) => TakeStaysOrdered(c, s, w);
    case Complete(w, pick) =>
  }

  lemma TakeStaysOrdered(c: Setup, s: State, w: nat)
    requires Ordered(c, s) && Enabled(c, s, Take(w))
    ensures Ordered(c, Next(c, s, Take(w)))
  {
    var x := s.workers[w];
    assert x.started + [x.queue[0]] + x.queue[1..] == x.started + x.queue;
  }

  lemma {:induction false} RunStaysOrdered(c: Setup, steps: seq<Step>)
    requires Run(c, steps).Some?
    ensures Ordered(c, Run(c, steps).value)
  {
    if steps != [] {
      RunStaysOrdered(c, steps[..|steps| - 1]);
      StepStaysOrdered(c, Run(c, steps[..|steps| - 1]).value, steps[|steps| - 1]);
    }
  }

  lemma {:induction false} KeysAtHome(c: Setup, log: seq<Entry>, k: string)
    requires c.hash.Some? && forall i :: 0 <= i < |log| ==> AtHome(c, log[i].to, log[i].task)
    ensures OfKey(ByWorker(log, Home(c, k)), k) == OfKey(TasksOf(log), k)
  {
    if log != [] {
      var init, last := log[..|log| - 1], log[|log| - 1];
      assert forall i :: 0 <= i < |init| ==> init[i] == log[i];
      KeysAtHome(c, init, k);
      assert TasksOf(log) == TasksOf(init) + [last.task];
      OfKeyApp(TasksOf(init), [last.task], k);
      OfKeyApp(ByWorker(init, Home(c, k)), [last.task], k);
      OneOfKey(last.task, k);
      assert AtHome(c, last.to, last.task);
      assert ByWorker(init, Home(c, k)) + [] == ByWorker(init, Home(c, k));
    }
  }

  lemma OneOfKey(t: Task, k: string)
    ensures OfKey([t], k) == if t.key == Some(k) then [t] else []
  {
    assert [t][..0] == [];
  }

  /** Tasks accepted under one key are started in the order of their acceptance, in every run. */
  lemma KeyOrder(c: Setup, steps: seq<Step>, k: string)
    requires Sound(c) && c.hash.Some? && Run(c, steps).Some?
    ensures var s := Run(c, steps).value;
            && Home(c, k) < |s.workers|
            && OfKey(s.workers[Home(c, k)].started, k) + OfKey(s.workers[Home(c, k)].queue, k) == OfKey(TasksOf(s.log), k)
  {
    RunKeeps(c, steps);
    RunStaysOrdered(c, steps);
    var s := Run(c, steps).value;
    var x := s.workers[Home(c, k)];
    KeysAtHome(c, s.log, k);
    OfKeyApp(x.started, x.queue, k);
  }

  // ----- reachable states -----

  ghost predicate Leads(c: Setup, s: State, n: State) { exists steps :: RunFrom(c, s, steps) == Some(n) }

  ghost predicate Reachable(c: Setup, s: State) { Leads(c, Start(c), s) }

  lemma StaysPut(c: Setup, s: State)
    ensures Leads(c, s, s)
  {
    assert RunFrom(c, s, []) == Some(s);
  }

  lemma LeadsOn(c: Setup, s: State, m: State, a: Step, n: State)
    requires Leads(c, s, m) && Enabled(c, m, a) && n == Next(c, m, a)
    ensures Leads(c, s, n)
  {
    var steps :| RunFrom(c, s, steps) == Some(m);
    assert (steps + [a])[..|steps|] == steps;
    assert RunFrom(c, s, steps + [a]) == Some(n);
  }

  lemma {:induction false} RunsOn(c: Setup, s: State, first: seq<Step>, m: State, later: seq<Step>)
    requires RunFrom(c, s, first) == Some(m)
    ensures RunFrom(c, s, first + later) == RunFrom(c, m, later)
  {
    if later == [] {
      assert first + later == first;
    } else {
      assert (first + later)[..|first + later| - 1] == first + later[..|later| - 1];
      RunsOn(c, s, first, m, later[..|later| - 1]);
    }
  }

  lemma LeadsFurther(c: Setup, s: State, m: State, n: State)
    requires Leads(c, s, m) && Leads(c, m, n)
    ensures Leads(c, s, n)
  {
    var first :| RunFrom(c, s, first) == Some(m);
    var later :| RunFrom(c, m, later) == Some(n);
    RunsOn(c, s, first, m, later);
  }

  lemma ReachableKeeps(c: Setup, s: State)
    requires Sound(c) && Reachable(c, s)
    ensures Inv(c, s)
  {
    var steps :| RunFrom(c, Start(c), steps) == Some(s);
    RunKeeps(c, steps);
  }

  // ----- the code -----

  /** The pool; each method is what one thread does between two points where others can come in. */
  class Pool {
    const c: Setup
    var taskCount: int
    var workerIndex: nat
    var holder: Option<nat>
    var producers: map<nat, Producer>
    var workers: seq<Worker>
    ghost var asked: seq<Request>
    ghost var log: seq<Entry>

    ghost function Abs(): State
      reads this
    {
      State(taskCount, workerIndex, holder, producers, workers, asked, log)
    }

    constructor (c: Setup)
      ensures this.c == c && Abs() == Start(c)
    {
      this.c := c;
      taskCount, workerIndex, holder, producers := 0, 0, None, map[];
      workers := seq(c.workers, i => Worker([], None, []));
      asked, log := [], [];
    }

    /** AddTask up to its wait: the mutex is taken and the worker chosen. */
    method AddTask(p: nat, task: Task)
      requires Enabled(c, Abs(), Enter(p, task))
      modifies this
      ensures Abs() == Next(c, old(Abs()), Enter(p, task))
    {
      holder := Some(p);
      asked := asked + [Request(p, task)];
      var w;
      if task.key.Some? && c.hash.Some? {
        w := c.hash.value(task.key.value, c.workers);
        if w >= c.workers { w := 0; }
      } else {
        workerIndex := workerIndex + 1;
        if workerIndex >= c.workers { workerIndex := 0; }
        w := workerIndex;
      }
      producers := producers[p := Testing(w, task)];
    }

    /** The wait predicate. */
    method TestLimit(p: nat)
      requires Enabled(c, Abs(), Test(p))
      modifies this
      ensures Abs() == Next(c, old(Abs()), Test(p))
    {
      var t := producers[p];
      producers := producers[p := if taskCount > c.maxPerWorker * c.workers then OverLimit(t.w, t.task) else Ready(t.w, t.task)];
    }

    /** The worker's queue gets the task. */
    method PushTask(p: nat)
      requires Enabled(c, Abs(), Push(p))
      modifies this
      ensures Abs() == Next(c, old(Abs()), Push(p))
    {
      var t := producers[p];
      var x := workers[t.w];
      workers := workers[t.w := x.(queue := x.queue + [t.task])];
      log := log + [Entry(p, t.w, t.task)];
      producers := producers[p := Pushed];
    }

    /** The counter is raised and the mutex released. */
    method CountTask(p: nat)
      requires Enabled(c, Abs(), Tally(p))
      modifies this
      ensures Abs() == Next(c, old(Abs()), Tally(p))
    {
      taskCount := (taskCount + 1) % WRAP;
      producers := producers[p := Outside];
      holder := None;
    }

    /** TaskCompleteStatus: the counter is lowered and one waiting producer, if any, notified, without the mutex. */
    method TaskCompleteStatus(w: nat, pick: nat)
      requires Enabled(c, Abs(), Complete(w, pick))
      modifies this
      ensures Abs() == Next(c, old(Abs()), Complete(w, pick))
    {
      workers := workers[w := workers[w].(running := None)];
      taskCount := (taskCount - 1) % WRAP;
      if pick in producers && producers[pick].Asleep? {
        producers := producers[pick := Awake(producers[pick].w, producers[pick].task)];
      }
    }

    /** Worker::Handle up to the execution: the front of the worker's queue is popped. */
    method Handle(w: nat)
      requires Enabled(c, Abs(), Take(w))
      modifies this
      ensures Abs() == Next(c, old(Abs()), Take(w))
    {
      var x := workers[w];
      workers := workers[w := Worker(x.queue[1..], Some(x.queue[0]), x.started + [x.queue[0]])];
    }

    /** The waits: going to sleep, being woken and taking the mutex again. */
    method Doze(p: nat, a: Step)
      requires a in {Sleep(p), Rouse(p), Resume(p)} && Enabled(c, Abs(), a)
      modifies this
      ensures Abs() == Next(c, old(Abs()), a)
    {
      var t := producers[p];
      match a
      case Sleep(_) => holder, producers := None, producers[p := Asleep(t.w, t.task)];
      case Rouse(_) => producers := producers[p := Awake(t.w, t.task)];
      case Resume(_) => holder, producers := Some(p), producers[p := Testing(t.w, t.task)];
    }

    /** One step of any thread. */
    method Step(a: Step)
      requires Enabled(c, Abs(), a)
      modifies this
      ensures Abs() == Next(c, old(Abs()), a)
    {
      match a
      case Enter(p, task) => AddTask(p, task);
      case Test(p) => TestLimit(p);
      case Sleep(p) => Doze(p, a);
      case Rouse(p) => Doze(p, a);
      case Resume(p) => Doze(p, a);
      case Push(p) => PushTask(p);
      case Tally(p) => CountTask(p);
      case Take(w) => Handle(w);
      case Complete(w, pick) => TaskCompleteStatus(w, pick);
    }
  }

  lemma {:induction false} PrefixRuns(c: Setup, steps: seq<Step>, i: nat)
    requires Run(c, steps).Some? && i <= |steps|
    ensures Run(c, steps[..i]).Some?
  {
    if i == |steps| {
      assert steps[..i] == steps;
    } else {
      assert steps[..|steps| - 1][..i] == steps[..i];
      PrefixRuns(c, steps[..|steps| - 1], i);
    }
  }

  /** Any legal schedule, executed. */
  method Schedule(c: Setup, steps: seq<Step>) returns (pool: Pool)
    requires Sound(c) && Run(c, steps).Some?
    ensures fresh(pool) && pool.Abs() == Run(c, steps).value
    ensures Outstanding(pool.workers) <= c.maxPerWorker * c.workers + 1
  {
    pool := new Pool(c);
    for i := 0 to |steps|
      invariant fresh(pool) && pool.c == c && Run(c, steps[..i]) == Some(pool.Abs())
    {
      assert steps[..i + 1][..i] == steps[..i];
      PrefixRuns(c, steps, i + 1);
      pool.Step(steps[i]);
    }
    assert steps[..|steps|] == steps;
    RunKeeps(c, steps);
  }
}
