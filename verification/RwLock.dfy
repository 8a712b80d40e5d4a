/** The server library's writer-preferring read-write lock, in every interleaving of any number of threads. */
module RwLock {
  import opened Threads

  /** The lock's fields and where every thread stands. */
  datatype State = State(status: int, waitingReaders: int, waitingWriters: int, places: Places)

  const FREE: State := State(0, 0, 0, map[])

  /**
   One critical section, or a wake-up. Unlock names the threads that notify_one would pick; Rouse is a
   wake-up that nobody sent.
   */
  datatype Step = RLock(t: nat) | WLock(t: nat) | Resume(t: nat) | Unlock(t: nat, writer: nat, reader: nat) | Rouse(t: nat)

  /** notify_one picks some thread asleep there, if there is one. */
  predicate CanPick(ps: Places, asleep: Place, pick: nat) {
    Count(ps, asleep) > 0 ==> At(ps, pick) == asleep
  }

  /** The steps a thread can take where it stands; only holders unlock. */
  predicate Enabled(s: State, a: Step) {
    match a
    case RLock(t) => At(s.places, t).Idle?
    case WLock(t) => At(s.places, t).Idle?
    case Resume(t) => At(s.places, t).ReaderNotified? || At(s.places, t).WriterNotified?
    case Unlock(t, writer, reader) =>
      && (At(s.places, t).Reading? || At(s.places, t).Writing?)
      && CanPick(s.places, WriterAsleep, writer) && CanPick(s.places, ReaderAsleep, reader)
    case Rouse(t) => At(s.places, t).ReaderAsleep? || At(s.places, t).WriterAsleep?
  }

  /** The reader's loop test, and what follows it. */
  function TryRead(s: State, t: nat): State {
    if s.status < 0 || s.waitingWriters > 0 then s.(places := Move(s.places, t, ReaderAsleep))
    else State(s.status + 1, s.waitingReaders - 1, s.waitingWriters, Move(s.places, t, Reading))
  }

  function TryWrite(s: State, t: nat): State {
    if s.status != 0 then s.(places := Move(s.places, t, WriterAsleep))
    else State(s.status - 1, s.waitingReaders, s.waitingWriters - 1, Move(s.places, t, Writing))
  }

  function NotifyOne(ps: Places, asleep: Place, notified: Place, pick: nat): Places {
    if At(ps, pick) == asleep then Move(ps, pick, notified) else ps
  }

  /** Whom an unlock wakes: a writer once the lock is free, readers when no writer waits. */
  function Notify(s: State, writer: nat, reader: nat): Places {
    if s.waitingWriters > 0 then
      if s.status == 0 then NotifyOne(s.places, WriterAsleep, WriterNotified, writer) else s.places
    else if s.waitingReaders == 1 then NotifyOne(s.places, ReaderAsleep, ReaderNotified, reader)
    else if s.waitingReaders > 1 then MoveAll(s.places, ReaderAsleep, ReaderNotified)
    else s.places
  }

  function Release(s: State, t: nat): State {
    s.(status := if s.status < 0 then s.status + 1 else if s.status > 0 then s.status - 1 else s.status,
       places := Move(s.places, t, Idle))
  }

  function Next(s: State, a: Step): State {
    match a
    case RLock(t) => TryRead(s.(waitingReaders := s.waitingReaders + 1), t)
    case WLock(t) => TryWrite(s.(waitingWriters := s.waitingWriters + 1), t)
    case Resume(t) => if At(s.places, t).ReaderNotified? then TryRead(s, t) else TryWrite(s, t)
    case Unlock(t, writer, reader) =>
      var r := Release(s, t);
      r.(places := Notify(r, writer, reader))
    case Rouse(t) =>
      s.(places := Move(s.places, t, if At(s.places, t).ReaderAsleep? then ReaderNotified else WriterNotified))
  }

  /** The counters count; one writer or readers only; and no wake-up is lost. */
  ghost predicate Inv(s: State) {
    var ps := s.places;
    && s.waitingReaders == Count(ps, ReaderAsleep) + Count(ps, ReaderNotified)
    && s.waitingWriters == Count(ps, WriterAsleep) + Count(ps, WriterNotified)
    && (s.status < 0 ==> s.status == -1 && Count(ps, Writing) == 1 && Count(ps, Reading) == 0)
    && (s.status >= 0 ==> Count(ps, Reading) == s.status && Count(ps, Writing) == 0)
    && (Count(ps, ReaderAsleep) > 0 ==> s.status < 0 || s.waitingWriters > 0)
    && (s.status == 0 && s.waitingWriters > 0 ==> Count(ps, WriterNotified) > 0)
  }

  lemma TryReadKeeps(s: State, t: nat, before: State)
    requires Inv(before) && if At(s.places, t).Idle? then s == before.(waitingReaders := before.waitingReaders + 1)
                             else s == before && At(s.places, t).ReaderNotified?
    ensures Inv(TryRead(s, t))
  {
    MoveCounts(s.places, t, ReaderAsleep);
    MoveCounts(s.places, t, Reading);
  }

  lemma TryWriteKeeps(s: State, t: nat, before: State)
    requires Inv(before) && if At(s.places, t).Idle? then s == before.(waitingWriters := before.waitingWriters + 1)
                             else s == before && At(s.places, t).WriterNotified?
    ensures Inv(TryWrite(s, t))
  {
    MoveCounts(s.places, t, WriterAsleep);
    MoveCounts(s.places, t, Writing);
  }

  lemma UnlockKeeps(s: State, t: nat, writer: nat, reader: nat)
    requires Inv(s) && Enabled(s, Unlock(t, writer, reader))
    ensures Inv(Next(s, Unlock(t, writer, reader)))
  {
    var r := Release(s, t);
    CountsAtLeast(s.places, t);
    MoveCounts(s.places, t, Idle);
    MoveCounts(r.places, writer, WriterNotified);
    MoveCounts(r.places, reader, ReaderNotified);
    MoveAllCounts(r.places, ReaderAsleep, ReaderNotified);
  }

  /** Every step keeps the invariant. */
  lemma StepKeeps(s: State, a: Step)
    requires Inv(s) && Enabled(s, a)
    ensures Inv(Next(s, a))
  {
    match a
    case RLock(t) => TryReadKeeps(s.(waitingReaders := s.waitingReaders + 1), t, s);
    case WLock(t) => TryWriteKeeps(s.(waitingWriters := s.waitingWriters + 1), t, s);
    case Resume(t) => if At(s.places, t).ReaderNotified? { TryReadKeeps(s, t, s); } else { TryWriteKeeps(s, t, s); }
    case Unlock(t, writer, reader) => UnlockKeeps(s, t, writer, reader);
    case Rouse(t) =>
      MoveCounts(s.places, t, ReaderNotified);
      MoveCounts(s.places, t, WriterNotified);
  }

  // ----- runs -----

  function Run(steps: seq<Step>): State {
    if steps == [] then FREE else Next(Run(steps[..|steps| - 1]), steps[|steps| - 1])
  }

  predicate Legal(steps: seq<Step>) {
    steps == [] || (Legal(steps[..|steps| - 1]) && Enabled(Run(steps[..|steps| - 1]), steps[|steps| - 1]))
  }

  lemma {:induction false} RunKeeps(steps: seq<Step>)
    requires Legal(steps)
    ensures Inv(Run(steps))
  {
    if steps == [] {
      assert forall k :: AllAt(FREE.places, k) == {};
    } else {
      RunKeeps(steps[..|steps| - 1]);
      StepKeeps(Run(steps[..|steps| - 1]), steps[|steps| - 1]);
    }
  }

  /** A writer excludes everyone else, after every legal run. */
  lemma MutualExclusion(steps: seq<Step>, t: nat, u: nat)
    requires Legal(steps) && t != u && At(Run(steps).places, t).Writing?
    ensures !At(Run(steps).places, u).Writing? && !At(Run(steps).places, u).Reading?
  {
    RunKeeps(steps);
    var ps := Run(steps).places;
    CountsAtLeast(ps, t);
    if At(ps, u).Writing? { CountsTwo(ps, t, u); }
    if At(ps, u).Reading? { CountsAtLeast(ps, u); }
  }

  /** Only the reader's own loop makes a thread a reader, and only past its test. */
  lemma ReaderEntry(s: State, a: Step, t: nat)
    requires Enabled(s, a) && !At(s.places, t).Reading? && At(Next(s, a).places, t).Reading?
    ensures s.status >= 0 && s.waitingWriters <= 0
  {
    match a
    case RLock(v) =>
    case WLock(v) =>
    case Resume(v) =>
    case Unlock(v, writer, reader) => UnlockOnlyWakes(s, v, writer, reader, t);
    case Rouse(v) =>
  }

  lemma UnlockOnlyWakes(s: State, v: nat, writer: nat, reader: nat, t: nat)
    requires Enabled(s, Unlock(v, writer, reader))
    ensures At(Next(s, Unlock(v, writer, reader)).places, t).Reading? ==> At(s.places, t).Reading?
  {
  }

  lemma NoWriterThere(s: State, u: nat)
    requires Inv(s) && s.status >= 0 && s.waitingWriters <= 0
    ensures !WritesOrWaitsTo(At(s.places, u))
  {
    if At(s.places, u) != Idle { CountsAtLeast(s.places, u); }
  }

  /** A thread starts reading only while no writer holds the lock and none waits. */
  lemma NoReaderPassesAWriter(steps: seq<Step>, s: State, a: Step, t: nat, u: nat)
    requires Legal(steps) && s == Run(steps) && Enabled(s, a)
    requires !At(s.places, t).Reading? && At(Next(s, a).places, t).Reading?
    ensures !WritesOrWaitsTo(At(s.places, u))
  {
    RunKeeps(steps);
    ReaderEntry(s, a, t);
    NoWriterThere(s, u);
  }

  /** A reader asleep un-notified has a writer to wait for, holding the lock or waiting. */
  lemma SleepersHaveReason(steps: seq<Step>, t: nat) returns (w: nat)
    requires Legal(steps) && At(Run(steps).places, t).ReaderAsleep?
    ensures WritesOrWaitsTo(At(Run(steps).places, w))
  {
    RunKeeps(steps);
    var s := Run(steps);
    CountsAtLeast(s.places, t);
    if s.status < 0 {
      w := SomeoneAt(s.places, Writing);
    } else if Count(s.places, WriterNotified) > 0 {
      w := SomeoneAt(s.places, WriterNotified);
    } else {
      w := SomeoneAt(s.places, WriterAsleep);
    }
  }

  /**
   No wake-up is lost: whenever someone waits, someone holds the lock or some notified thread gets it
   as soon as it resumes.
   */
  lemma NeverStuck(steps: seq<Step>, t: nat) returns (u: nat)
    requires Legal(steps) && Waits(At(Run(steps).places, t))
    ensures var s := Run(steps);
            Holds(At(s.places, u)) || (Enabled(s, Resume(u)) && Holds(At(Next(s, Resume(u)).places, u)))
  {
    RunKeeps(steps);
    var s := Run(steps);
    CountsAtLeast(s.places, t);
    if s.status < 0 {
      u := SomeoneAt(s.places, Writing);
    } else if s.status > 0 {
      u := SomeoneAt(s.places, Reading);
    } else if s.waitingWriters > 0 {
      u := SomeoneAt(s.places, WriterNotified);
    } else {
      u := SomeoneAt(s.places, ReaderNotified);
    }
  }

  // ----- the code -----

  /** The lock; each method is one critical section of its mutex, run by thread t. */
  class RWLock {
    var status: int
    var waitingReaders: int
    var waitingWriters: int
    var places: Places

    constructor ()
      ensures Abs() == FREE
    {
      status, waitingReaders, waitingWriters, places := 0, 0, 0, map[];
    }

    function Abs(): State
      reads this
    {
      State(status, waitingReaders, waitingWriters, places)
    }

    /** The loop of rlock, from a test to the next wait or to the end. */
    method ReadLoop(t: nat)
      modifies this
      ensures Abs() == TryRead(old(Abs()), t)
    {
      if status < 0 || waitingWriters > 0 {
        places := Move(places, t, ReaderAsleep);
        return;
      }
      waitingReaders := waitingReaders - 1;
      status := status + 1;
      places := Move(places, t, Reading);
    }

    method WriteLoop(t: nat)
      modifies this
      ensures Abs() == TryWrite(old(Abs()), t)
    {
      if status != 0 {
        places := Move(places, t, WriterAsleep);
        return;
      }
      waitingWriters := waitingWriters - 1;
      status := status - 1;
      places := Move(places, t, Writing);
    }

    method UnlockBy(t: nat, writer: nat, reader: nat)
      modifies this
      ensures Abs() == Next(old(Abs()), Unlock(t, writer, reader))
    {
      if status < 0 {
        status := status + 1;
      } else if status > 0 {
        status := status - 1;
      }
      places := Move(places, t, Idle);
      if waitingWriters > 0 {
        if status == 0 { places := NotifyOne(places, WriterAsleep, WriterNotified, writer); }
      } else if waitingReaders > 0 {
        if waitingReaders == 1 {
          places := NotifyOne(places, ReaderAsleep, ReaderNotified, reader);
        } else {
          places := MoveAll(places, ReaderAsleep, ReaderNotified);
        }
      }
    }

    /** One step of the given thread. */
    method Take(a: Step)
      modifies this
      ensures Abs() == Next(old(Abs()), a)
    {
      match a
      case RLock(t) =>
        waitingReaders := waitingReaders + 1;
        ReadLoop(t);
      case WLock(t) =>
        waitingWriters := waitingWriters + 1;
        WriteLoop(t);
      case Resume(t) => if At(places, t).ReaderNotified? { ReadLoop(t); } else { WriteLoop(t); }
      case Unlock(t, writer, reader) => UnlockBy(t, writer, reader);
      case Rouse(t) =>
        places := Move(places, t, if At(places, t).ReaderAsleep? then ReaderNotified else WriterNotified);
    }
  }

  /** Any legal schedule, executed. */
  method Schedule(steps: seq<Step>) returns (lock: RWLock)
    requires Legal(steps)
    ensures fresh(lock) && lock.Abs() == Run(steps) && Inv(lock.Abs())
  {
    lock := new RWLock();
    for i := 0 to |steps|
      invariant fresh(lock) && lock.Abs() == Run(steps[..i])
    {
      assert steps[..i + 1][..i] == steps[..i];
      lock.Take(steps[i]);
    }
    assert steps[..|steps|] == steps;
    RunKeeps(steps);
  }
}
