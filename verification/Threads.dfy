/** Threads around a lock: where each of them stands, and how many stand where. */
module Threads {

  /** Idle, asleep or notified in one of the two waits, or holding the lock. */
  datatype Place = Idle | ReaderAsleep | ReaderNotified | WriterAsleep | WriterNotified | Reading | Writing

  predicate Holds(p: Place) { p.Reading? || p.Writing? }

  predicate Waits(p: Place) { !p.Idle? && !Holds(p) }

  predicate WritesOrWaitsTo(p: Place) { p.Writing? || p.WriterAsleep? || p.WriterNotified? }

  /** The place of every thread that has ever touched the lock; all others are idle. */
  type Places = map<nat, Place>

  function At(ps: Places, t: nat): Place { if t in ps then ps[t] else Idle }

  function AllAt(ps: Places, k: Place): set<nat> { set t | t in ps && ps[t] == k }

  function Count(ps: Places, k: Place): nat { |AllAt(ps, k)| }

  function Move(ps: Places, t: nat, to: Place): Places { ps[t := to] }

  lemma MoveCount(ps: Places, t: nat, to: Place, k: Place)
    requires k != Idle
    ensures Count(Move(ps, t, to), k) == Count(ps, k) - (if At(ps, t) == k then 1 else 0) + (if to == k then 1 else 0)
  {
    var was, now := AllAt(ps, k), AllAt(Move(ps, t, to), k);
    if At(ps, t) == k { assert t in was; } else { assert t !in was; }
    if to == k {
      assert now == was + {t};
    } else {
      assert now == was - {t};
    }
  }

  lemma MoveCounts(ps: Places, t: nat, to: Place)
    ensures forall k :: k != Idle ==>
              Count(Move(ps, t, to), k) == Count(ps, k) - (if At(ps, t) == k then 1 else 0) + (if to == k then 1 else 0)
  {
    forall k | k != Idle
      ensures Count(Move(ps, t, to), k) == Count(ps, k) - (if At(ps, t) == k then 1 else 0) + (if to == k then 1 else 0)
    {
      MoveCount(ps, t, to, k);
    }
  }

  /** Everyone at one place moves to another. */
  function MoveAll(ps: Places, from: Place, to: Place): Places {
    map t | t in ps :: if ps[t] == from then to else ps[t]
  }

  lemma LeftBehind(ps: Places, from: Place, to: Place)
    requires from != to
    ensures AllAt(MoveAll(ps, from, to), from) == {}
  {
  }

  lemma Bystanders(ps: Places, from: Place, to: Place, k: Place)
    requires k != from && k != to
    ensures AllAt(MoveAll(ps, from, to), k) == AllAt(ps, k)
  {
  }

  lemma Arrived(ps: Places, from: Place, to: Place)
    requires from != to
    ensures AllAt(MoveAll(ps, from, to), to) == AllAt(ps, from) + AllAt(ps, to)
    ensures AllAt(ps, from) !! AllAt(ps, to)
  {
  }

  lemma MoveAllCount(ps: Places, from: Place, to: Place, k: Place)
    requires from != to
    ensures Count(MoveAll(ps, from, to), k) ==
              if k == from then 0 else if k == to then Count(ps, from) + Count(ps, to) else Count(ps, k)
  {
    if k == from {
      LeftBehind(ps, from, to);
    } else if k == to {
      Arrived(ps, from, to);
    } else {
      Bystanders(ps, from, to, k);
    }
  }

  lemma MoveAllCounts(ps: Places, from: Place, to: Place)
    requires from != to
    ensures forall k :: Count(MoveAll(ps, from, to), k) ==
              if k == from then 0 else if k == to then Count(ps, from) + Count(ps, to) else Count(ps, k)
  {
    forall k ensures Count(MoveAll(ps, from, to), k) ==
      if k == from then 0 else if k == to then Count(ps, from) + Count(ps, to) else Count(ps, k)
    {
      MoveAllCount(ps, from, to, k);
    }
  }

  lemma SomeoneAt(ps: Places, k: Place) returns (t: nat)
    requires Count(ps, k) > 0
    ensures t in ps && ps[t] == k
  {
    t :| t in AllAt(ps, k);
  }

  lemma CountsAtLeast(ps: Places, t: nat)
    requires At(ps, t) != Idle
    ensures Count(ps, At(ps, t)) > 0
  {
    assert t in AllAt(ps, ps[t]);
  }

  lemma CountsTwo(ps: Places, t: nat, u: nat)
    requires t != u && At(ps, t) == At(ps, u) != Idle
    ensures Count(ps, At(ps, t)) >= 2
  {
    assert {t, u} <= AllAt(ps, ps[t]);
    CardMonotone({t, u}, AllAt(ps, ps[t]));
  }

  lemma {:induction false} CardMonotone(a: set<nat>, b: set<nat>)
    requires a <= b
    ensures |a| <= |b|
  {
    if a != {} {
      var x :| x in a;
      CardMonotone(a - {x}, b - {x});
    }
  }
}
