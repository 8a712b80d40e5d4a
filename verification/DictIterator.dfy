/** Walking a hash table while the entries just returned may be deleted. */
module DictIterator {
  import opened Bytes
  import opened Dict

  datatype Pair = Pair(key: bytes, val: Val)

  function Pairs(c: Chain): seq<Pair> { if c.End? then [] else [Pair(c.key, c.val)] + Pairs(c.next) }

  /** The entries of the buckets from i on, in walking order. */
  function PairsFrom(t: seq<Chain>, i: nat): seq<Pair>
    requires i <= |t|
    decreases |t| - i
  {
    if i == |t| then [] else Pairs(t[i]) + PairsFrom(t, i + 1)
  }

  lemma {:induction false} SameBuckets(t: seq<Chain>, u: seq<Chain>, i: nat)
    requires i <= |t| == |u| && forall j :: i <= j < |t| ==> t[j] == u[j]
    ensures PairsFrom(t, i) == PairsFrom(u, i)
    decreases |t| - i
  {
    if i < |t| { SameBuckets(t, u, i + 1); }
  }

  // ----- the walking order lists the map -----

  predicate NoKeyTwice(ps: seq<Pair>) { forall i, j :: 0 <= i < j < |ps| ==> ps[i].key != ps[j].key }

  lemma {:induction false} PairsAreLookups(c: Chain, p: Pair)
    requires Distinct(c)
    ensures p in Pairs(c) <==> Lookup(c, p.key) == Some(p.val)
  {
    if c.Entry? {
      PairsAreLookups(c.next, p);
      if p.key == c.key { PairsAreLookups(c.next, Pair(p.key, p.val)); }
    }
  }

  lemma {:induction false} PairsOfChain(c: Chain)
    requires Distinct(c)
    ensures NoKeyTwice(Pairs(c)) && |Pairs(c)| == Length(c)
  {
    if c.Entry? {
      PairsOfChain(c.next);
      var ps := Pairs(c.next);
      forall i | 0 <= i < |ps| ensures ps[i].key != c.key {
        PairsAreLookups(c.next, ps[i]);
      }
    }
  }

  /** From bucket i on: the entries of the map that belong there, none twice. */
  lemma {:induction false} PairsAreEntries(hash: HashFn, t: seq<Chain>, m: map<bytes, Val>, i: nat)
    requires Holds(hash, t, m) && i <= |t|
    ensures NoKeyTwice(PairsFrom(t, i))
    ensures forall p :: p in PairsFrom(t, i) <==> p.key in m && m[p.key] == p.val && |t| > 0 && Home(hash, |t|, p.key) >= i
    decreases |t| - i
  {
    if i < |t| {
      PairsAreEntries(hash, t, m, i + 1);
      var here, later := Pairs(t[i]), PairsFrom(t, i + 1);
      assert Sorted(hash, |t|, i, t[i]);
      PairsOfChain(t[i]);
      forall p ensures p in here <==> p.key in m && m[p.key] == p.val && Home(hash, |t|, p.key) == i {
        PairsAreLookups(t[i], p);
        assert Agrees(t[Home(hash, |t|, p.key)], m, p.key);
      }
      forall x, y | 0 <= x < |here| && 0 <= y < |later| ensures here[x].key != later[y].key {
        assert here[x] in here && later[y] in later;
      }
    }
  }

  // ----- the iterator -----

  /** What a walk has still to return: the entries saved in the bucket it is in, and the later buckets. */
  ghost function PendingOf(t: seq<Chain>, index: int, entry: Chain, nextEntry: Chain): seq<Pair> {
    if -1 <= index < |t| then (if entry.Entry? then Pairs(nextEntry) else []) + PairsFrom(t, index + 1) else []
  }

  lemma NextInBucket(t: seq<Chain>, index: int, entry: Chain, n: Chain)
    requires 0 <= index < |t| && entry.Entry?
    ensures PendingOf(t, index, entry, n) ==
              if n.Entry? then [Pair(n.key, n.val)] + PendingOf(t, index, n, n.next) else PendingOf(t, index, n, n)
  {
    if n.Entry? {
      assert [Pair(n.key, n.val)] + Pairs(n.next) + PairsFrom(t, index + 1)
          == [Pair(n.key, n.val)] + (Pairs(n.next) + PairsFrom(t, index + 1));
    }
  }

  lemma NextBucket(t: seq<Chain>, index: int, entry: Chain, n: Chain)
    requires -1 <= index < |t| && entry.End?
    ensures index + 1 == |t| ==> PendingOf(t, index, entry, n) == []
    ensures index + 1 < |t| ==>
              var e := t[index + 1];
              PendingOf(t, index, entry, n) ==
                if e.Entry? then [Pair(e.key, e.val)] + PendingOf(t, index + 1, e, e.next) else PendingOf(t, index + 1, e, n)
  {
    assert [] + PairsFrom(t, index + 1) == PairsFrom(t, index + 1);
    if index + 1 < |t| {
      var e := t[index + 1];
      if e.Entry? {
        assert [Pair(e.key, e.val)] + Pairs(e.next) + PairsFrom(t, index + 2)
            == [Pair(e.key, e.val)] + (Pairs(e.next) + PairsFrom(t, index + 2));
      }
    }
  }

  /** The keys of a chain belong to a bucket. */
  ghost predicate LivesIn(hash: HashFn, size: nat, c: Chain, i: int)
    requires size > 0
  {
    forall k :: Lookup(c, k).Some? ==> Home(hash, size, k) == i
  }

  lemma TailLivesIn(hash: HashFn, size: nat, c: Chain, i: int)
    requires size > 0 && LivesIn(hash, size, c, i) && c.Entry?
    ensures LivesIn(hash, size, c.next, i) && Home(hash, size, c.key) == i
  {
    assert Lookup(c, c.key).Some?;
    forall k | Lookup(c.next, k).Some? ensures Home(hash, size, k) == i {
      assert Lookup(c, k).Some?;
    }
  }

  lemma BucketLivesIn(hash: HashFn, t: seq<Chain>, m: map<bytes, Val>, i: nat)
    requires i < |t| && Holds(hash, t, m)
    ensures LivesIn(hash, |t|, t[i], i)
  {
    assert Sorted(hash, |t|, i, t[i]);
  }

  class Iterator {
    const ht: HashTable
    var index: int
    var entry: Chain
    var nextEntry: Chain

    /** The entry just returned, and those saved after it, belong to the bucket the walk is in. */
    ghost predicate Valid()
      reads this, ht
    {
      && -1 <= index
      && (entry.Entry? ==>
            && 0 <= index < ht.table.Length
            && Home(ht.hash, ht.table.Length, entry.key) == index && LivesIn(ht.hash, ht.table.Length, nextEntry, index))
    }

    ghost function Pending(): seq<Pair>
      reads this, ht, ht.table
    {
      PendingOf(ht.table[..], index, entry, nextEntry)
    }

    constructor (ht: HashTable)
      ensures this.ht == ht && Valid() && index < ht.table.Length && Pending() == PairsFrom(ht.table[..], 0)
    {
      this.ht := ht;
      index, entry, nextEntry := -1, End, End;
      new;
      assert [] + PairsFrom(ht.table[..], 0) == PairsFrom(ht.table[..], 0);
    }

    /** One round of dictNext's loop: the saved entry, or the next bucket's first. */
    method Round() returns (more: bool)
      requires Valid() && Holds(ht.hash, ht.table[..], ht.contents) && index < ht.table.Length
      modifies this
      ensures !more ==> Valid() && old(Pending()) == []
      ensures more && entry.End? ==> Valid() && index < ht.table.Length && Pending() == old(Pending())
      ensures more && entry.End? ==> index >= old(index) && (old(entry).Entry? || index > old(index))
      ensures more && entry.Entry? ==>
                && 0 <= index < ht.table.Length && LivesIn(ht.hash, ht.table.Length, entry, index)
                && old(Pending()) == [Pair(entry.key, entry.val)] + PendingOf(ht.table[..], index, entry, entry.next)
    {
      more := true;
      if entry.End? {
        NextBucket(ht.table[..], index, entry, nextEntry);
        index := index + 1;
        if index >= ht.table.Length { return false; }
        entry := ht.table[index];
        BucketLivesIn(ht.hash, ht.table[..], ht.contents, index);
      } else {
        NextInBucket(ht.table[..], index, entry, nextEntry);
        entry := nextEntry;
      }
    }

    /** dictNext: the next entry; its successor is saved, since the entry may be deleted before the next call. */
    method Next() returns (r: Option<Pair>)
      requires Valid() && Holds(ht.hash, ht.table[..], ht.contents) && index < ht.table.Length
      modifies this
      ensures Valid()
      ensures r.None? ==> old(Pending()) == []
      ensures r.Some? ==> old(Pending()) == [r.value] + Pending()
      ensures r.Some? ==> entry.Entry? && entry.key == r.value.key && index < ht.table.Length
    {
      ghost var pending := Pending();
      while true
        invariant Valid() && index < ht.table.Length && pending == Pending()
        decreases ht.table.Length - index, if entry.Entry? then 1 else 0
      {
        var more := Round();
        if !more { return None; }
        if entry.Entry? {
          TailLivesIn(ht.hash, ht.table.Length, entry, index);
          nextEntry := entry.next;
          return Some(Pair(entry.key, entry.val));
        }
      }
    }
  }

  /** The keys of the visited entries that were chosen for deletion. */
  function Chosen(visited: seq<Pair>, kill: nat -> bool): set<bytes> {
    set i | 0 <= i < |visited| && kill(i) :: visited[i].key
  }

  /** Deleting the entry just returned leaves the rest of the walk as it was. */
  method DeleteReturned(ht: HashTable, it: Iterator, key: bytes)
    requires ht.Valid() && it.ht == ht && it.Valid() && it.index < ht.table.Length
    requires it.entry.Entry? && it.entry.key == key
    modifies ht, ht.table
    ensures ht.Valid() && ht.table == old(ht.table) && it.Valid()
    ensures it.Pending() == old(it.Pending()) && ht.contents == old(ht.contents) - {key}
  {
    ghost var was := ht.table[..];
    var ok := ht.Delete(key);
    SameBuckets(was, ht.table[..], it.index + 1);
  }

  /** A walk that deletes any of the entries it has just been given still visits every entry exactly once. */
  method VisitAll(ht: HashTable, kill: nat -> bool) returns (visited: seq<Pair>)
    requires ht.Valid()
    modifies ht, ht.table
    ensures ht.Valid()
    ensures NoKeyTwice(visited)
    ensures forall p :: p in visited <==> p.key in old(ht.contents) && old(ht.contents)[p.key] == p.val
    ensures ht.contents == old(ht.contents) - Chosen(visited, kill)
  {
    PairsAreEntries(ht.hash, ht.table[..], ht.contents, 0);
    visited := Walk(ht, kill);
  }

  /** One entry of the walk, deleted or not. */
  method VisitOne(ht: HashTable, it: Iterator, visited: seq<Pair>, kill: nat -> bool) returns (r: Option<Pair>)
    requires ht.Valid() && it.ht == ht && it.Valid() && it.index < ht.table.Length
    modifies it, ht, ht.table
    ensures ht.Valid() && ht.table == old(ht.table) && it.Valid()
    ensures r.None? ==> old(it.Pending()) == [] && ht.contents == old(ht.contents)
    ensures r.Some? ==> it.index < ht.table.Length && old(it.Pending()) == [r.value] + it.Pending()
    ensures r.Some? ==> ht.contents == old(ht.contents) - (if kill(|visited|) then {r.value.key} else {})
  {
    r := it.Next();
    if r.Some? && kill(|visited|) { DeleteReturned(ht, it, r.value.key); }
  }

  /** Visited and pending entries make up all; the chosen ones are gone from the table. */
  ghost predicate Walking(ht: HashTable, it: Iterator, all: seq<Pair>, start: map<bytes, Val>, visited: seq<Pair>, kill: nat -> bool)
    reads ht, ht.table, it
  {
    && ht.Valid() && it.ht == ht && it.Valid() && it.index < ht.table.Length
    && all == visited + it.Pending() && ht.contents == start - Chosen(visited, kill)
  }

  method WalkOn(ht: HashTable, it: Iterator, visited: seq<Pair>, kill: nat -> bool, ghost all: seq<Pair>, ghost start: map<bytes, Val>)
    returns (r: Option<Pair>)
    requires Walking(ht, it, all, start, visited, kill)
    modifies it, ht, ht.table
    ensures ht.Valid() && ht.table == old(ht.table)
    ensures r.None? ==> all == visited && ht.contents == start - Chosen(visited, kill)
    ensures r.Some? ==> Walking(ht, it, all, start, visited + [r.value], kill)
  {
    r := VisitOne(ht, it, visited, kill);
    if r.None? {
      assert visited + [] == visited;
    } else {
      ChosenGone(start, visited, r.value, kill);
      Shift(visited, r.value, it.Pending());
    }
  }

  lemma ChosenGone(start: map<bytes, Val>, visited: seq<Pair>, p: Pair, kill: nat -> bool)
    ensures start - Chosen(visited + [p], kill) == start - Chosen(visited, kill) - (if kill(|visited|) then {p.key} else {})
  {
    ChosenSnoc(visited, p, kill);
  }

  method Walk(ht: HashTable, kill: nat -> bool) returns (visited: seq<Pair>)
    requires ht.Valid()
    modifies ht, ht.table
    ensures ht.Valid() && visited == PairsFrom(old(ht.table[..]), 0)
    ensures ht.contents == old(ht.contents) - Chosen(visited, kill)
  {
    visited := [];
    var it := new Iterator(ht);
    ghost var all, start := PairsFrom(ht.table[..], 0), ht.contents;
    assert [] + all == all;
    var r: Option<Pair>;
    while true
      invariant Walking(ht, it, all, start, visited, kill) && fresh(it) && ht.table == old(ht.table)
      decreases |all| - |visited|
    {
      r := WalkOn(ht, it, visited, kill, all, start);
      if r.None? { break; }
      visited := visited + [r.value];
    }
  }

  lemma Shift(a: seq<Pair>, p: Pair, b: seq<Pair>)
    ensures a + ([p] + b) == (a + [p]) + b
  {
  }

  lemma ChosenSnoc(visited: seq<Pair>, p: Pair, kill: nat -> bool)
    ensures Chosen(visited + [p], kill) == Chosen(visited, kill) + (if kill(|visited|) then {p.key} else {})
  {
    var more := visited + [p];
    forall k | k in Chosen(visited, kill) ensures k in Chosen(more, kill) {
      var i :| 0 <= i < |visited| && kill(i) && visited[i].key == k;
      assert more[i].key == k;
    }
    if kill(|visited|) { assert more[|visited|].key == p.key; }
  }

  // ----- any sequence of operations -----

  datatype Op = AddOp(key: bytes, val: Val) | ReplaceOp(key: bytes, val: Val) | DeleteOp(key: bytes) | FindOp(key: bytes)

  datatype Answer = Flag(b: bool) | Found(v: Option<Val>)

  function MapAfter(m: map<bytes, Val>, op: Op): map<bytes, Val> {
    match op
    case AddOp(k, v) => if k in m then m else m[k := v]
    case ReplaceOp(k, v) => m[k := v]
    case DeleteOp(k) => m - {k}
    case FindOp(_) => m
  }

  function MapAnswer(m: map<bytes, Val>, op: Op): Answer {
    match op
    case AddOp(k, v) => Flag(k !in m)
    case ReplaceOp(k, v) => Flag(k !in m)
    case DeleteOp(k) => Flag(k in m)
    case FindOp(k) => Found(if k in m then Some(m[k]) else None)
  }

  /** What a finite map answers to a sequence of operations, and what is in it then. */
  function OnMap(ops: seq<Op>): (seq<Answer>, map<bytes, Val>) {
    if ops == [] then ([], map[])
    else
      var (answers, m) := OnMap(ops[..|ops| - 1]);
      (answers + [MapAnswer(m, ops[|ops| - 1])], MapAfter(m, ops[|ops| - 1]))
  }

  method Change(ht: HashTable, op: Op) returns (b: bool)
    requires ht.Valid() && !op.FindOp?
    modifies ht, ht.table
    ensures ht.Valid() && (ht.table == old(ht.table) || fresh(ht.table))
    ensures Flag(b) == MapAnswer(old(ht.contents), op) && ht.contents == MapAfter(old(ht.contents), op)
  {
    match op
    case AddOp(k, v) => b := ht.Add(k, v);
    case ReplaceOp(k, v) => b := ht.Replace(k, v);
    case DeleteOp(k) => b := ht.Delete(k);
  }

  method Perform(ht: HashTable, op: Op) returns (a: Answer)
    requires ht.Valid()
    modifies ht, ht.table
    ensures ht.Valid() && (ht.table == old(ht.table) || fresh(ht.table))
    ensures a == MapAnswer(old(ht.contents), op) && ht.contents == MapAfter(old(ht.contents), op)
  {
    if op.FindOp? {
      var found := ht.Find(op.key);
      a := Found(found);
    } else {
      var b := Change(ht, op);
      a := Flag(b);
    }
  }

  /** The hash table answers every sequence of operations as the map does, and holds what the map holds. */
  method OnTable(hash: HashFn, ops: seq<Op>) returns (ht: HashTable, answers: seq<Answer>)
    ensures fresh(ht) && ht.Valid() && (answers, ht.contents) == OnMap(ops)
  {
    ht := new HashTable(hash);
    answers := [];
    for i := 0 to |ops|
      invariant fresh(ht) && fresh(ht.table) && ht.Valid() && (answers, ht.contents) == OnMap(ops[..i])
    {
      assert ops[..i + 1][..i] == ops[..i];
      var a := Perform(ht, ops[i]);
      answers := answers + [a];
    }
    assert ops[..|ops|] == ops;
  }
}
