/** The public library's read-write mutex, whose writers also go first, in every interleaving of any number of threads. */
module RwMutex {
  import opened Threads

  datatype State = State(readCount: int, writeCount: int, writing: bool, places: Places)

  const FREE: State := State(0, 0, false, map[])

  /** One critical section, or a wake-up; the unlocks name the writer that notify_one would pick. */
  datatype Step =
    | RLock(t: nat) | RUnLock(t: nat, writer: nat) | Lock(t: nat) | UnLock(t: nat, writer: nat)
    | Resume(t: nat) | Rouse(t: nat)

  predicate CanPick(ps: Places, pick: nat) { Count(ps, WriterAsleep) > 0 ==> At(ps, pick).WriterAsleep? }

  predicate Enabled(s: State, a: Step) {
    match a
    case RLock(t) => At(s.places, t).Idle?
    case Lock(t) => At(s.places, t).Idle?
    case RUnLock(t, writer) => At(s.places, t).Reading? && CanPick(s.places, writer)
    case UnLock(t, writer) => At(s.places, t).Writing? && CanPick(s.places, writer)
    case Resume(t) => At(s.places, t).ReaderNotified? || At(s.places, t).WriterNotified?
    case Rouse(t) => At(s.places, t).ReaderAsleep? || At(s.places, t).WriterAsleep?
  }

  /** The reader's wait predicate, and what follows it. */
  function TryRead(s: State, t: nat): State {
    if s.writeCount == 0 then s.(readCount := s.readCount + 1, places := Move(s.places, t, Reading))
    else s.(places := Move(s.places, t, ReaderAsleep))
  }

  function TryWrite(s: State, t: nat): State {
    if s.readCount == 0 && !s.writing then s.(writing := true, places := Move(s.places, t, Writing))
    else s.(places := Move(s.places, t, WriterAsleep))
  }

  function NotifyWriter(ps: Places, pick: nat): Places {
    if At(ps, pick).WriterAsleep? then Move(ps, pick, WriterNotified) else ps
  }

  function EndRead(s: State, t: nat, writer: nat): State {
    var ps := Move(s.places, t, Idle);
    s.(readCount := s.readCount - 1,
       places := if s.readCount - 1 == 0 && s.writeCount > 0 then NotifyWriter(ps, writer) else ps)
  }

  function EndWrite(s: State, t: nat, writer: nat): State {
    var ps := Move(s.places, t, Idle);
    State(s.readCount, s.writeCount - 1, false,
          if s.writeCount - 1 == 0 then MoveAll(ps, ReaderAsleep, ReaderNotified) else NotifyWriter(ps, writer))
  }

  function Next(s: State, a: Step): State {
    match a
    case RLock(t) => TryRead(s, t)
    case Lock(t) => TryWrite(s.(writeCount := s.writeCount + 1), t)
    case RUnLock(t, writer) => EndRead(s, t, writer)
    case UnLock(t, writer) => EndWrite(s, t, writer)
    case Resume(t) => if At(s.places, t).ReaderNotified? then TryRead(s, t) else TryWrite(s, t)
    case Rouse(t) =>
      s.(places := Move(s.places, t, if At(s.places, t).ReaderAsleep? then ReaderNotified else WriterNotified))
  }

  /** The counters count, writers counting from their arrival; exclusion; and no wake-up is lost. */
  ghost predicate Inv(s: State) {
    var ps := s.places;
    && s.readCount == Count(ps, Reading)
    && s.writeCount == Count(ps, WriterAsleep) + Count(ps, WriterNotified) + Count(ps, Writing)
    && Count(ps, Writing) == (if s.writing then 1 else 0)
    && (s.writing ==> s.readCount == 0)
    && (Count(ps, ReaderAsleep) > 0 ==> s.writeCount > 0)
    && (s.readCount == 0 && !s.writing && s.writeCount > 0 ==> Count(ps, WriterNotified) > 0)
  }

  lemma TryReadKeeps(s: State, t: nat)
    requires Inv(s) && (At(s.places, t).Idle? || At(s.places, t).ReaderNotified?)
    ensures Inv(TryRead(s, t))
  {
    MoveCounts(s.places, t, Reading);
    MoveCounts(s.places, t, ReaderAsleep);
  }

  lemma TryWriteKeeps(s: State, t: nat, before: State)
    requires Inv(before)
    requires if At(s.places, t).Idle? then s == before.(writeCount := before.writeCount + 1)
             else s == before && At(s.places, t).WriterNotified?
    ensures Inv(TryWrite(s, t))
  {
    MoveCounts(s.places, t, Writing);
    MoveCounts(s.places, t, WriterAsleep);
  }

  lemma EndReadKeeps(s: State, t: nat, writer: nat)
    requires Inv(s) && Enabled(s, RUnLock(t, writer))
    ensures Inv(EndRead(s, t, writer))
  {
    CountsAtLeast(s.places, t);
    var ps := Move(s.places, t, Idle);
    MoveCounts(s.places, t, Idle);
    MoveCounts(ps, writer, WriterNotified);
  }

  lemma EndWriteKeeps(s: State, t: nat, writer: nat)
    requires Inv(s) && Enabled(s, UnLock(t, writer))
    ensures Inv(EndWrite(s, t, writer))
  {
    CountsAtLeast(s.places, t);
    var ps := Move(s.places, t, Idle);
    MoveCounts(s.places, t, Idle);
    MoveCounts(ps, writer, WriterNotified);
    MoveAllCounts(ps, ReaderAsleep, ReaderNotified);
  }

  lemma StepKeeps(s: State, a: Step)
    requires Inv(s) && Enabled(s, a)
    ensures Inv(Next(s, a))
  {
    match a
    case RLock(t) => TryReadKeeps(s, t);
    case Lock(t) => TryWriteKeeps(s.(writeCount := s.writeCount + 1), t, s);
    case RUnLock(t, writer) => EndReadKeeps(s, t, writer);
    case UnLock(t, writer) => EndWriteKeeps(s, t, writer);
    case Resume(t) => if At(s.places, t).ReaderNotified? { TryReadKeeps(s, t); } else { TryWriteKeeps(s, t, s); }
    case Rouse(t) =>
      MoveCounts(s.places, t, ReaderNotified);
      MoveCounts(s.places, t, WriterNotified);
  }

  // ----- runs -----

  function Run(steps: seq<Step>): State {
    if steps == [] then FREE else Next(Run(steps[..|steps| - 1]), steps[|steps| - 1])
  }

  predicate Legal(steps: seq<Step>) {
    steps == [] || (Legal(steps[..|steps| - 1]) && Enabled(Run(steps[..|steps| - 1]), steps[|steps| - 1]))
  }

  lemma {:induction false} RunKeeps(steps: seq<Step>)
    requires Legal(steps)
    ensures Inv(Run(steps))
  {
    if steps == [] {
      assert forall k :: AllAt(FREE.places, k) == {};
    } else {
      RunKeeps(steps[..|steps| - 1]);
      StepKeeps(Run(steps[..|steps| - 1]), steps[|steps| - 1]);
    }
  }

  /** A writer excludes everyone else, after every legal run. */
  lemma MutualExclusion(steps: seq<Step>, t: nat, u: nat)
    requires Legal(steps) && t != u && At(Run(steps).places, t).Writing?
    ensures !At(Run(steps).places, u).Writing? && !At(Run(steps).places, u).Reading?
  {
    RunKeeps(steps);
    var ps := Run(steps).places;
    CountsAtLeast(ps, t);
    if At(ps, u).Writing? { CountsTwo(ps, t, u); }
    if At(ps, u).Reading? { CountsAtLeast(ps, u); }
  }

  /** Only the reader's own wait makes a thread a reader, and only past its predicate. */
  lemma ReaderEntry(s: State, a: Step, t: nat)
    requires Enabled(s, a) && !At(s.places, t).Reading? && At(Next(s, a).places, t).Reading?
    ensures s.writeCount == 0
  {
    match a
    case RLock(v) =>
    case Lock(v) =>
    case RUnLock(v, writer) =>
    case UnLock(v, writer) =>
    case Resume(v) =>
    case Rouse(v) =>
  }

  lemma NoWriterThere(s: State, u: nat)
    requires Inv(s) && s.writeCount == 0
    ensures !WritesOrWaitsTo(At(s.places, u))
  {
    if At(s.places, u) != Idle { CountsAtLeast(s.places, u); }
  }

  /** A thread starts reading only while no writer holds the lock and none waits. */
  lemma NoReaderPassesAWriter(steps: seq<Step>, s: State, a: Step, t: nat, u: nat)
    requires Legal(steps) && s == Run(steps) && Enabled(s, a)
    requires !At(s.places, t).Reading? && At(Next(s, a).places, t).Reading?
    ensures !WritesOrWaitsTo(At(s.places, u))
  {
    RunKeeps(steps);
    ReaderEntry(s, a, t);
    NoWriterThere(s, u);
  }

  /** A reader asleep un-notified has a writer to wait for, holding the lock or waiting. */
  lemma SleepersHaveReason(steps: seq<Step>, t: nat) returns (w: nat)
    requires Legal(steps) && At(Run(steps).places, t).ReaderAsleep?
    ensures WritesOrWaitsTo(At(Run(steps).places, w))
  {
    RunKeeps(steps);
    var s := Run(steps);
    CountsAtLeast(s.places, t);
    if s.writing {
      w := SomeoneAt(s.places, Writing);
    } else if Count(s.places, WriterNotified) > 0 {
      w := SomeoneAt(s.places, WriterNotified);
    } else {
      w := SomeoneAt(s.places, WriterAsleep);
    }
  }

  /**
   No wake-up is lost: whenever someone waits, someone holds the lock or some notified thread gets it
   as soon as it resumes.
   */
  lemma NeverStuck(steps: seq<Step>, t: nat) returns (u: nat)
    requires Legal(steps) && Waits(At(Run(steps).places, t))
    ensures var s := Run(steps);
            Holds(At(s.places, u)) || (Enabled(s, Resume(u)) && Holds(At(Next(s, Resume(u)).places, u)))
  {
    RunKeeps(steps);
    var s := Run(steps);
    CountsAtLeast(s.places, t);
    if s.writing {
      u := SomeoneAt(s.places, Writing);
    } else if s.readCount > 0 {
      u := SomeoneAt(s.places, Reading);
    } else if s.writeCount > 0 {
      u := SomeoneAt(s.places, WriterNotified);
    } else {
      u := SomeoneAt(s.places, ReaderNotified);
    }
  }

  // ----- the code -----

  /** The mutex; each method is one critical section, run by thread t. */
  class RWMutex {
    var readCount: int
    var writeCount: int
    var writing: bool
    var places: Places

    constructor ()
      ensures Abs() == FREE
    {
      readCount, writeCount, writing, places := 0, 0, false, map[];
    }

    function Abs(): State
      reads this
    {
      State(readCount, writeCount, writing, places)
    }

    /** rLock from its wait predicate to the next sleep or to the end. */
    method ReadWait(t: nat)
      modifies this
      ensures Abs() == TryRead(old(Abs()), t)
    {
      if !(writeCount == 0) {
        places := Move(places, t, ReaderAsleep);
        return;
      }
      readCount := readCount + 1;
      places := Move(places, t, Reading);
    }

    method WriteWait(t: nat)
      modifies this
      ensures Abs() == TryWrite(old(Abs()), t)
    {
      if !(readCount == 0 && !writing) {
        places := Move(places, t, WriterAsleep);
        return;
      }
      writing := true;
      places := Move(places, t, Writing);
    }

    method RUnLockBy(t: nat, writer: nat)
      modifies this
      ensures Abs() == Next(old(Abs()), RUnLock(t, writer))
    {
      readCount := readCount - 1;
      places := Move(places, t, Idle);
      if readCount == 0 && writeCount > 0 { places := NotifyWriter(places, writer); }
    }

    method UnLockBy(t: nat, writer: nat)
      modifies this
      ensures Abs() == Next(old(Abs()), UnLock(t, writer))
    {
      writeCount := writeCount - 1;
      places := Move(places, t, Idle);
      if writeCount == 0 {
        places := MoveAll(places, ReaderAsleep, ReaderNotified);
      } else {
        places := NotifyWriter(places, writer);
      }
      writing := false;
    }

    /** One step of the given thread. */
    method Take(a: Step)
      modifies this
      ensures Abs() == Next(old(Abs()), a)
    {
      match a
      case RLock(t) => ReadWait(t);
      case Lock(t) =>
        writeCount := writeCount + 1;
        WriteWait(t);
      case RUnLock(t, writer) => RUnLockBy(t, writer);
      case UnLock(t, writer) => UnLockBy(t, writer);
      case Resume(t) => if At(places, t).ReaderNotified? { ReadWait(t); } else { WriteWait(t); }
      case Rouse(t) =>
        places := Move(places, t, if At(places, t).ReaderAsleep? then ReaderNotified else WriterNotified);
    }
  }

  /** Any legal schedule, executed. */
  method Schedule(steps: seq<Step>) returns (lock: RWMutex)
    requires Legal(steps)
    ensures fresh(lock) && lock.Abs() == Run(steps) && Inv(lock.Abs())
  {
    lock := new RWMutex();
    for i := 0 to |steps|
      invariant fresh(lock) && lock.Abs() == Run(steps[..i])
    {
      assert steps[..i + 1][..i] == steps[..i];
      lock.Take(steps[i]);
    }
    assert steps[..|steps|] == steps;
    RunKeeps(steps);
  }
}
