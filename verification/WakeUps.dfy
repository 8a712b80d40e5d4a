/**
 Wake-ups in the worker pool. TaskCompleteStatus notifies without the mutex, so a notification sent
 between a producer's failed test and its sleep finds nobody. Runs without such a completion never
 forsake a sleeper; every completion there can.
 */
module WakeUps {
  import opened Bytes
  import opened WorkerPool

  predicate SomeoneAsleep(s: State) { exists p :: p in s.producers && s.producers[p].Asleep? }

  function AwakeIn(ps: map<nat, Producer>): set<nat> { set p | p in ps && ps[p].Awake? }

  function AllAwake(s: State): set<nat> { AwakeIn(s.producers) }

  /** The holder of the mutex has not pushed its task yet. */
  predicate Undecided(s: State) { s.holder.Some? && !At(s, s.holder.value).Pushed? }

  /** Producers that will look at the counter, or have a task to push, without anyone's help. */
  function Active(s: State): nat { |AllAwake(s)| + if Undecided(s) then 1 else 0 }

  /**
   Whenever someone sleeps, the tasks outstanding and the active producers together exceed the limit:
   either a completion is still to come and will notify, or somebody is on the way.
   */
  ghost predicate Attended(c: Setup, s: State) {
    && (SomeoneAsleep(s) ==> Outstanding(s.workers) + Active(s) > Limit(c))
    && (s.holder.Some? && At(s, s.holder.value).OverLimit? ==> Outstanding(s.workers) > Limit(c))
  }

  /** A completion between a producer's failed test and its sleep. */
  predicate Disturbs(s: State, a: Step) { a.Complete? && s.holder.Some? && At(s, s.holder.value).OverLimit? }

  /** No step of the run is a completion between a failed test and the sleep. */
  predicate Undisturbed(c: Setup, steps: seq<Step>) {
    steps == [] ||
    (Undisturbed(c, steps[..|steps| - 1])
     && (Run(c, steps[..|steps| - 1]).Some? ==> !Disturbs(Run(c, steps[..|steps| - 1]).value, steps[|steps| - 1])))
  }

  lemma OthersAwake(ps: map<nat, Producer>, p: nat, to: Producer)
    ensures AwakeIn(ps) - {p} == AwakeIn(ps[p := to]) - {p}
    ensures p in AwakeIn(ps) <==> p in ps && ps[p].Awake?
    ensures p in AwakeIn(ps[p := to]) <==> to.Awake?
  {
  }

  /** Who is awake after a producer has moved. */
  lemma AwakeAfter(s: State, p: nat, to: Producer)
    ensures |AllAwake(Put(s, p, to))| == |AllAwake(s)| - (if At(s, p).Awake? then 1 else 0) + (if to.Awake? then 1 else 0)
  {
    OthersAwake(s.producers, p, to);
    WithOne(AllAwake(s), p);
    WithOne(AllAwake(Put(s, p, to)), p);
  }

  lemma WithOne(a: set<nat>, p: nat)
    ensures |a| == |a - {p}| + (if p in a then 1 else 0)
  {
    if p in a {
      assert a == (a - {p}) + {p};
    } else {
      assert a == a - {p};
    }
  }

  lemma AsleepAfter(s: State, p: nat, to: Producer)
    ensures !to.Asleep? && SomeoneAsleep(Put(s, p, to)) ==> SomeoneAsleep(s)
  {
  }

  lemma CountIsOutstanding(c: Setup, s: State)
    requires Sound(c) && Inv(c, s) && !Uncounted(s)
    ensures s.count == Outstanding(s.workers)
  {
  }

  lemma PushStaysAttended(c: Setup, s: State, p: nat)
    requires Sound(c) && Inv(c, s) && Attended(c, s) && Enabled(c, s, Push(p))
    ensures Attended(c, Next(c, s, Push(p)))
  {
    var t := At(s, p);
    var x := s.workers[t.w];
    assert s.holder == Some(p);
    OutstandingAfter(s.workers, t.w, x.(queue := x.queue + [t.task]));
    AwakeAfter(s, p, Pushed);
    AsleepAfter(s, p, Pushed);
    var n := Next(c, s, Push(p));
    assert AllAwake(n) == AllAwake(Put(s, p, Pushed)) && n.producers == Put(s, p, Pushed).producers;
  }

  lemma CompleteStaysAttended(c: Setup, s: State, w: nat, pick: nat)
    requires Sound(c) && Inv(c, s) && Attended(c, s) && Enabled(c, s, Complete(w, pick)) && !Disturbs(s, Complete(w, pick))
    ensures Attended(c, Next(c, s, Complete(w, pick)))
  {
    var n := Next(c, s, Complete(w, pick));
    OutstandingAfter(s.workers, w, s.workers[w].(running := None));
    if SomeoneAsleep(s) {
      var to := Awake(At(s, pick).w, At(s, pick).task);
      AwakeAfter(s, pick, to);
      AsleepAfter(s, pick, to);
      assert n.producers == Put(s, pick, to).producers;
      assert AllAwake(n) == AllAwake(Put(s, pick, to));
      assert s.holder.Some? ==> s.holder != Some(pick);
    } else {
      assert n.producers == s.producers;
    }
  }

  lemma TakeStaysAttended(c: Setup, s: State, w: nat)
    requires Sound(c) && Inv(c, s) && Attended(c, s) && Enabled(c, s, Take(w))
    ensures Attended(c, Next(c, s, Take(w)))
  {
    var n := Next(c, s, Take(w));
    OutstandingAfter(s.workers, w, Pop(s.workers[w]));
    assert n.producers == s.producers && AllAwake(n) == AllAwake(s);
  }

  /** The steps of the producers that leave the queues alone. */
  lemma ProducerStaysAttended(c: Setup, s: State, a: Step, p: nat)
    requires Sound(c) && Inv(c, s) && Attended(c, s) && Enabled(c, s, a)
    requires a.Enter? || a.Test? || a.Sleep? || a.Rouse? || a.Resume? || a.Tally?
    requires p == a.p
    ensures Attended(c, Next(c, s, a))
  {
    var n := Next(c, s, a);
    var to := At(n, p);
    AwakeAfter(s, p, to);
    AsleepAfter(s, p, to);
    assert n.producers == Put(s, p, to).producers;
    assert AllAwake(n) == AllAwake(Put(s, p, to)) && n.workers == s.workers;
    if a.Test? { CountIsOutstanding(c, s); }
  }

  lemma StepStaysAttended(c: Setup, s: State, a: Step)
    requires Sound(c) && Inv(c, s) && Attended(c, s) && Enabled(c, s, a) && !Disturbs(s, a)
    ensures Attended(c, Next(c, s, a))
  {
    match a
    case Push(p) => PushStaysAttended(c, s, p);
    case Take(w) => TakeStaysAttended(c, s, w);
    case Complete(w, pick) => CompleteStaysAttended(c, s, w, pick);
    case Enter(p, _) => ProducerStaysAttended(c, s, a, p);
    case Test(p) => ProducerStaysAttended(c, s, a, p);
    case Sleep(p) => ProducerStaysAttended(c, s, a, p);
    case Rouse(p) => ProducerStaysAttended(c, s, a, p);
    case Resume(p) => ProducerStaysAttended(c, s, a, p);
    case Tally(p) => ProducerStaysAttended(c, s, a, p);
  }

  /** p sleeps although the limit admits its task, nobody is awake, and nobody has the mutex with a task to push. */
  ghost predicate Forsaken(c: Setup, s: State, p: nat) {
    At(s, p).Asleep? && Outstanding(s.workers) <= Limit(c) && AllAwake(s) == {} && !Undecided(s)
  }

  /** Nothing but a spurious wake-up or another call of AddTask can move this state on: the pool is empty. */
  ghost predicate Stranded(s: State, p: nat) {
    && At(s, p).Asleep? && s.holder.None? && s.count == 0
    && (forall q :: q in s.producers && q != p ==> s.producers[q].Outside?)
    && forall w :: 0 <= w < |s.workers| ==> s.workers[w].queue == [] && s.workers[w].running.None?
  }

  lemma StrandedIsForsaken(c: Setup, s: State, p: nat)
    requires Stranded(s, p)
    ensures Forsaken(c, s, p)
  {
    NothingOutstanding(s.workers);
    assert AllAwake(s) == {};
  }

  /** In every undisturbed run every sleeper is attended to: none is ever forsaken, nor stranded. */
  lemma {:induction false} WakeUpsKept(c: Setup, steps: seq<Step>)
    requires Sound(c) && Run(c, steps).Some? && Undisturbed(c, steps)
    ensures Attended(c, Run(c, steps).value)
    ensures forall p :: !Forsaken(c, Run(c, steps).value, p)
    ensures forall p :: !Stranded(Run(c, steps).value, p)
  {
    if steps != [] {
      var init, s := steps[..|steps| - 1], Run(c, steps[..|steps| - 1]).value;
      WakeUpsKept(c, init);
      RunKeeps(c, init);
      StepStaysAttended(c, s, steps[|steps| - 1]);
    }
    NoneForsaken(c, Run(c, steps).value);
  }

  lemma NoneForsaken(c: Setup, s: State)
    requires Attended(c, s)
    ensures forall p :: !Forsaken(c, s, p)
    ensures forall p :: !Stranded(s, p)
  {
    forall p ensures !Forsaken(c, s, p) {
      if At(s, p).Asleep? { assert SomeoneAsleep(s); }
    }
    forall p ensures !Stranded(s, p) {
      if Stranded(s, p) { StrandedIsForsaken(c, s, p); }
    }
  }

  // ----- the completion that disturbs -----

  lemma {:induction false} SomePending(xs: seq<Worker>) returns (w: nat)
    requires Outstanding(xs) > 0
    ensures w < |xs| && Pending(xs[w]) > 0
  {
    if Pending(xs[|xs| - 1]) > 0 {
      w := |xs| - 1;
    } else {
      w := SomePending(xs[..|xs| - 1]);
    }
  }

  lemma NonePending(xs: seq<Worker>)
    requires Outstanding(xs) == 0
    ensures forall w :: 0 <= w < |xs| ==> xs[w].queue == [] && xs[w].running.None?
  {
    forall w | 0 <= w < |xs| ensures Pending(xs[w]) == 0 { OutstandingAfter(xs, w, xs[w]); }
  }

  /** Only the mutex, the counter and the producers are as before; one task fewer is outstanding. */
  ghost predicate OneDone(s: State, n: State) {
    && n.holder == s.holder && n.producers == s.producers && n.asked == s.asked && n.log == s.log
    && Outstanding(n.workers) + 1 == Outstanding(s.workers)
  }

  /** A worker takes a task, if it has none, and completes it; nobody is asleep. */
  lemma CompleteOne(c: Setup, s: State, p: nat) returns (n: State)
    requires Outstanding(s.workers) > 0 && !SomeoneAsleep(s)
    ensures Leads(c, s, n) && OneDone(s, n)
  {
    var w := SomePending(s.workers);
    StaysPut(c, s);
    var m := s;
    if s.workers[w].running.None? {
      m := Next(c, s, Take(w));
      LeadsOn(c, s, s, Take(w), m);
      OutstandingAfter(s.workers, w, Pop(s.workers[w]));
    }
    assert m.producers == s.producers && !SomeoneAsleep(m);
    n := Next(c, m, Complete(w, p));
    LeadsOn(c, s, m, Complete(w, p), n);
    OutstandingAfter(m.workers, w, m.workers[w].(running := None));
  }

  /** All outstanding tasks are completed. */
  lemma {:induction false} CompleteAll(c: Setup, s: State, p: nat) returns (n: State)
    requires !SomeoneAsleep(s)
    ensures Leads(c, s, n) && Outstanding(n.workers) == 0
    ensures n.holder == s.holder && n.producers == s.producers
    decreases Outstanding(s.workers)
  {
    if Outstanding(s.workers) == 0 {
      StaysPut(c, s);
      n := s;
    } else {
      var m := CompleteOne(c, s, p);
      n := CompleteAll(c, m, p);
      LeadsFurther(c, s, m, n);
    }
  }

  /** p has failed its test and holds the mutex; nobody else is in AddTask. */
  predicate AboutToSleep(s: State, p: nat) {
    s.holder == Some(p) && At(s, p).OverLimit? && forall q :: q in s.producers && q != p ==> s.producers[q].Outside?
  }

  lemma SleepStrands(c: Setup, m: State, p: nat, n: State)
    requires Sound(c) && Inv(c, m) && AboutToSleep(m, p) && Outstanding(m.workers) == 0 && n == Next(c, m, Sleep(p))
    ensures Stranded(n, p) && At(n, p).task == At(m, p).task
  {
    CountIsOutstanding(c, m);
    NonePending(m.workers);
  }

  /** From every such state, completing all tasks before p sleeps strands p. */
  lemma DisturbedSleeperIsStranded(c: Setup, s: State, p: nat) returns (n: State)
    requires Sound(c) && Reachable(c, s) && AboutToSleep(s, p)
    ensures Leads(c, s, n) && Reachable(c, n) && Stranded(n, p) && At(n, p).task == At(s, p).task
  {
    var m := CompleteAll(c, s, p);
    LeadsFurther(c, Start(c), s, m);
    ReachableKeeps(c, m);
    n := Next(c, m, Sleep(p));
    SleepStrands(c, m, p, n);
    LeadsOn(c, s, m, Sleep(p), n);
    LeadsOn(c, Start(c), m, Sleep(p), n);
  }

  // ----- filling the pool -----

  /** Nobody is in AddTask. */
  predicate Quiet(s: State) { s.holder.None? && forall q :: q in s.producers ==> s.producers[q].Outside? }

  /** A lone call up to the push. */
  lemma AboutToPush(c: Setup, s: State, p: nat, t: Task) returns (n: State)
    requires Sound(c) && Reachable(c, s) && s.holder.None? && At(s, p).Outside? && Outstanding(s.workers) <= Limit(c)
    ensures Reachable(c, n)
    ensures n == Put(s.(index := Choose(c, s.index, t).1, holder := Some(p), asked := s.asked + [Request(p, t)]),
                     p, Ready(Choose(c, s.index, t).0, t))
  {
    ReachableKeeps(c, s);
    CountIsOutstanding(c, s);
    var m := Next(c, s, Enter(p, t));
    LeadsOn(c, Start(c), s, Enter(p, t), m);
    n := Next(c, m, Test(p));
    LeadsOn(c, Start(c), m, Test(p), n);
  }

  /** The push: one more task outstanding. */
  lemma Pushes(c: Setup, s: State, p: nat, t: Task) returns (n: State)
    requires Sound(c) && Reachable(c, s) && s.holder.None? && At(s, p).Outside? && Outstanding(s.workers) <= Limit(c)
    ensures Reachable(c, n) && n.holder == Some(p)
    ensures n.producers == s.producers[p := Pushed] && Outstanding(n.workers) == Outstanding(s.workers) + 1
    ensures n.asked == s.asked + [Request(p, t)] && n.log == s.log + [Entry(p, Choose(c, s.index, t).0, t)]
    ensures n.count == s.count
  {
    var m := AboutToPush(c, s, p, t);
    ReachableKeeps(c, m);
    n := Next(c, m, Push(p));
    LeadsOn(c, Start(c), m, Push(p), n);
    var w := Choose(c, s.index, t).0;
    OutstandingAfter(m.workers, w, m.workers[w].(queue := m.workers[w].queue + [t]));
  }

  /** As many tasks without a key as the limit admits, and one more. */
  lemma {:induction false} Fill(c: Setup, n: nat, t: Task) returns (s: State)
    requires Sound(c) && n <= Limit(c) + 1 && t.key.None?
    ensures Reachable(c, s) && Quiet(s) && Outstanding(s.workers) == n
    ensures forall i :: 0 <= i < |s.asked| ==> s.asked[i].task.key.None?
    ensures forall i :: 0 <= i < |s.log| ==> s.log[i].task.key.None?
    decreases n
  {
    if n == 0 {
      s := Start(c);
      StaysPut(c, s);
      NothingOutstanding(s.workers);
    } else {
      var before := Fill(c, n - 1, t);
      var m := Pushes(c, before, 0, t);
      s := Next(c, m, Tally(0));
      LeadsOn(c, Start(c), m, Tally(0), s);
    }
  }

  /** With the pool full, a call finds itself over the limit. */
  lemma OverTheLimit(c: Setup, s: State, p: nat, t: Task) returns (n: State)
    requires Sound(c) && Reachable(c, s) && Quiet(s) && Outstanding(s.workers) == Limit(c) + 1
    ensures Reachable(c, n) && AboutToSleep(n, p) && At(n, p).task == t
    ensures n.asked == s.asked + [Request(p, t)] && n.log == s.log && n.workers == s.workers
  {
    ReachableKeeps(c, s);
    CountIsOutstanding(c, s);
    var m := Next(c, s, Enter(p, t));
    LeadsOn(c, Start(c), s, Enter(p, t), m);
    n := Next(c, m, Test(p));
    LeadsOn(c, Start(c), m, Test(p), n);
  }

  /** Every pool can miss a wake-up: a producer sleeps although the pool is empty and nobody will notify it. */
  lemma NotificationCanBeMissed(c: Setup, t: Task, u: Task) returns (s: State)
    requires Sound(c) && t.key.None?
    ensures Reachable(c, s) && Stranded(s, 1) && At(s, 1).task == u
  {
    var full := Fill(c, Limit(c) + 1, t);
    var m := OverTheLimit(c, full, 1, u);
    s := DisturbedSleeperIsStranded(c, m, 1);
  }

  /** In every pool a task can be completed before it is counted: the counter then stands at its largest value. */
  lemma CounterWraps(c: Setup, t: Task) returns (s: State)
    requires Sound(c)
    ensures Reachable(c, s) && s.count == WRAP - 1
  {
    StaysPut(c, Start(c));
    NothingOutstanding(Start(c).workers);
    var m := Pushes(c, Start(c), 0, t);
    var n := CompleteOne(c, m, 0);
    LeadsFurther(c, Start(c), m, n);
    ReachableKeeps(c, n);
    s := n;
  }
}
