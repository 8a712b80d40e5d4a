/** The chained hash table with power-of-two sizes, against the finite map it stands for. */
module Dict {
  import opened Bytes

  type Val = nat

  /** A bucket's chain, newest entry first. */
  datatype Chain = End | Entry(key: bytes, val: Val, next: Chain)

  const INITIAL_SIZE: nat := 4

  // ----- the mask -----

  /** Bitwise and. */
  function And(a: nat, b: nat): nat {
    if a == 0 || b == 0 then 0 else 2 * And(a / 2, b / 2) + (a % 2) * (b % 2)
  }

  lemma {:induction false} AndBound(a: nat, b: nat)
    ensures And(a, b) <= b
  {
    if a > 0 && b > 0 { AndBound(a / 2, b / 2); }
  }

  predicate PowerOfTwo(n: nat) { n == 1 || (n > 1 && n % 2 == 0 && PowerOfTwo(n / 2)) }

  /** _dictNextPower: the first of 4, 8, 16, ... that is large enough. */
  method NextPower(size: nat) returns (i: nat)
    ensures i >= size && PowerOfTwo(i) && i >= INITIAL_SIZE
    ensures i > INITIAL_SIZE ==> i < 2 * size
  {
    i := INITIAL_SIZE;
    assert PowerOfTwo(1) && PowerOfTwo(2);
    while i < size
      invariant PowerOfTwo(i) && i >= INITIAL_SIZE
      invariant i > INITIAL_SIZE ==> i < 2 * size
      decreases 2 * size - i
    {
      assert (2 * i) / 2 == i;
      i := 2 * i;
    }
  }

  // ----- chains -----

  function Lookup(c: Chain, key: bytes): Option<Val> {
    if c.End? then None else if c.key == key then Some(c.val) else Lookup(c.next, key)
  }

  function Length(c: Chain): nat { if c.End? then 0 else 1 + Length(c.next) }

  function Without(c: Chain, key: bytes): Chain {
    if c.End? then End else if c.key == key then c.next else Entry(c.key, c.val, Without(c.next, key))
  }

  function Updated(c: Chain, key: bytes, val: Val): Chain {
    if c.End? then End
    else if c.key == key then Entry(key, val, c.next)
    else Entry(c.key, c.val, Updated(c.next, key, val))
  }

  /** No key twice. */
  predicate Distinct(c: Chain) { c.End? || (Lookup(c.next, c.key).None? && Distinct(c.next)) }

  lemma {:induction false} WithoutKeeps(c: Chain, key: bytes)
    requires Distinct(c)
    ensures Distinct(Without(c, key))
    ensures forall k :: Lookup(Without(c, key), k) == if k == key then None else Lookup(c, k)
    ensures Length(Without(c, key)) == Length(c) - if Lookup(c, key).Some? then 1 else 0
  {
    if c.Entry? && c.key != key { WithoutKeeps(c.next, key); }
  }

  lemma {:induction false} UpdatedKeeps(c: Chain, key: bytes, val: Val)
    requires Distinct(c) && Lookup(c, key).Some?
    ensures Distinct(Updated(c, key, val)) && Length(Updated(c, key, val)) == Length(c)
    ensures forall k :: Lookup(Updated(c, key, val), k) == if k == key then Some(val) else Lookup(c, k)
  {
    if c.key != key { UpdatedKeeps(c.next, key, val); }
  }

  // ----- tables -----

  type HashFn = bytes -> nat

  /** The bucket of a key in a table of the given size: its hash under the size mask. */
  function Home(hash: HashFn, size: nat, key: bytes): (h: nat)
    requires size > 0
    ensures h < size
  {
    AndBound(hash(key), size - 1);
    And(hash(key), size - 1)
  }

  /** Only keys whose hash selects the bucket are in it, and none twice. */
  ghost predicate Sorted(hash: HashFn, size: nat, i: nat, c: Chain)
    requires size > 0
  {
    Distinct(c) && forall k :: Lookup(c, k).Some? ==> Home(hash, size, k) == i
  }

  function TotalLength(t: seq<Chain>): nat {
    if t == [] then 0 else TotalLength(t[..|t| - 1]) + Length(t[|t| - 1])
  }

  lemma {:induction false} TotalAfter(t: seq<Chain>, i: nat, c: Chain)
    requires i < |t|
    ensures TotalLength(t[i := c]) == TotalLength(t) - Length(t[i]) + Length(c)
    ensures TotalLength(t) >= Length(t[i])
  {
    var n := |t| - 1;
    var u := t[i := c];
    if i == n {
      assert u[..n] == t[..n];
    } else {
      assert u[..n] == t[..n][i := c];
      TotalAfter(t[..n], i, c);
    }
  }

  lemma {:induction false} TotalOfEmpty(t: seq<Chain>)
    requires forall i :: 0 <= i < |t| ==> t[i].End?
    ensures TotalLength(t) == 0
  {
    if t != [] { TotalOfEmpty(t[..|t| - 1]); }
  }

  /** The table holds exactly the map's entries, each in the bucket its hash selects. */
  ghost predicate Holds(hash: HashFn, t: seq<Chain>, m: map<bytes, Val>) {
    if |t| == 0 then m == map[]
    else
      && (forall i :: 0 <= i < |t| ==> Sorted(hash, |t|, i, t[i]))
      && forall k :: Agrees(t[Home(hash, |t|, k)], m, k)
  }

  /** A chain and the map say the same of a key. */
  predicate Agrees(c: Chain, m: map<bytes, Val>, k: bytes) {
    Lookup(c, k) == if k in m then Some(m[k]) else None
  }

  /** Changing one key in its own bucket. */
  lemma HoldsAfter(hash: HashFn, t: seq<Chain>, m: map<bytes, Val>, key: bytes, c: Chain, n: map<bytes, Val>)
    requires |t| > 0 && Holds(hash, t, m) && Distinct(c)
    requires forall k :: k != key ==> Lookup(c, k) == Lookup(t[Home(hash, |t|, key)], k)
    requires Agrees(c, n, key) && n - {key} == m - {key}
    ensures Holds(hash, t[Home(hash, |t|, key) := c], n)
  {
    var h := Home(hash, |t|, key);
    var u := t[h := c];
    assert Sorted(hash, |t|, h, t[h]);
    forall k ensures Agrees(u[Home(hash, |u|, k)], n, k) {
      assert Agrees(t[Home(hash, |t|, k)], m, k);
      if k != key {
        assert k in n <==> k in n - {key};
        assert k in m <==> k in m - {key};
      }
    }
    forall i | 0 <= i < |u| ensures Sorted(hash, |u|, i, u[i]) {
      assert Sorted(hash, |t|, i, t[i]);
    }
  }

  lemma EmptyHolds(hash: HashFn, t: seq<Chain>)
    requires forall i :: 0 <= i < |t| ==> t[i].End?
    ensures Holds(hash, t, map[])
  {
  }

  /** A table without entries holds nothing. */
  lemma NothingHeld(hash: HashFn, t: seq<Chain>, m: map<bytes, Val>)
    requires Holds(hash, t, m) && TotalLength(t) == 0
    ensures m == map[]
  {
    if |t| > 0 {
      forall k ensures k !in m {
        assert Agrees(t[Home(hash, |t|, k)], m, k);
        TotalAfter(t, Home(hash, |t|, k), End);
      }
    }
  }

  /** The first entry of a bucket leaves a table. */
  lemma TakeFirst(hash: HashFn, t: seq<Chain>, m: map<bytes, Val>, i: nat)
    requires i < |t| && t[i].Entry? && Holds(hash, t, m)
    ensures t[i].key in m && m[t[i].key] == t[i].val && Home(hash, |t|, t[i].key) == i
    ensures Holds(hash, t[i := t[i].next], m - {t[i].key})
    ensures TotalLength(t[i := t[i].next]) == TotalLength(t) - 1
  {
    var key := t[i].key;
    assert Sorted(hash, |t|, i, t[i]);
    assert Lookup(t[i], key).Some?;
    assert Agrees(t[Home(hash, |t|, key)], m, key);
    forall k | k != key ensures Lookup(t[i].next, k) == Lookup(t[i], k) {}
    HoldsAfter(hash, t, m, key, t[i].next, m - {key});
    TotalAfter(t, i, t[i].next);
  }

  /** A new entry goes to the front of its bucket. */
  lemma PutFirst(hash: HashFn, t: seq<Chain>, m: map<bytes, Val>, key: bytes, val: Val)
    requires |t| > 0 && Holds(hash, t, m) && key !in m
    ensures var h := Home(hash, |t|, key);
            && Holds(hash, t[h := Entry(key, val, t[h])], m[key := val])
            && TotalLength(t[h := Entry(key, val, t[h])]) == TotalLength(t) + 1
  {
    var h := Home(hash, |t|, key);
    assert Sorted(hash, |t|, h, t[h]);
    assert Agrees(t[h], m, key);
    assert m[key := val] - {key} == m - {key};
    HoldsAfter(hash, t, m, key, Entry(key, val, t[h]), m[key := val]);
    TotalAfter(t, h, Entry(key, val, t[h]));
  }

  /** An entry leaves its bucket. */
  lemma RemoveOne(hash: HashFn, t: seq<Chain>, m: map<bytes, Val>, key: bytes)
    requires |t| > 0 && Holds(hash, t, m) && key in m
    ensures var h := Home(hash, |t|, key);
            && Holds(hash, t[h := Without(t[h], key)], m - {key})
            && TotalLength(t[h := Without(t[h], key)]) == TotalLength(t) - 1
  {
    var h := Home(hash, |t|, key);
    assert Sorted(hash, |t|, h, t[h]);
    assert Agrees(t[h], m, key);
    WithoutKeeps(t[h], key);
    HoldsAfter(hash, t, m, key, Without(t[h], key), m - {key});
    TotalAfter(t, h, Without(t[h], key));
  }

  lemma UpdateOne(hash: HashFn, t: seq<Chain>, m: map<bytes, Val>, key: bytes, val: Val)
    requires |t| > 0 && Holds(hash, t, m) && key in m
    ensures var h := Home(hash, |t|, key);
            && Holds(hash, t[h := Updated(t[h], key, val)], m[key := val])
            && TotalLength(t[h := Updated(t[h], key, val)]) == TotalLength(t)
  {
    var h := Home(hash, |t|, key);
    assert Sorted(hash, |t|, h, t[h]);
    assert Agrees(t[h], m, key);
    UpdatedKeeps(t[h], key, val);
    assert m[key := val] - {key} == m - {key};
    HoldsAfter(hash, t, m, key, Updated(t[h], key, val), m[key := val]);
    TotalAfter(t, h, Updated(t[h], key, val));
  }

  /** Entries on their way from one table to another: together the two hold everything. */
  ghost predicate Moving(hash: HashFn, rest: seq<Chain>, t: seq<Chain>, left: map<bytes, Val>, moved: map<bytes, Val>,
                         all: map<bytes, Val>, total: nat)
  {
    && Holds(hash, rest, left) && Holds(hash, t, moved) && left.Keys !! moved.Keys
    && left + moved == all && TotalLength(rest) + TotalLength(t) == total
  }

  lemma MoveFirst(hash: HashFn, rest: seq<Chain>, t: seq<Chain>, left: map<bytes, Val>, moved: map<bytes, Val>,
                  all: map<bytes, Val>, total: nat, i: nat, he: Chain, h: nat)
    requires Moving(hash, rest, t, left, moved, all, total)
    requires i < |rest| && rest[i] == he && he.Entry? && |t| > 0 && h == Home(hash, |t|, he.key)
    ensures Moving(hash, rest[i := he.next], t[h := Entry(he.key, he.val, t[h])], left - {he.key},
                   moved[he.key := he.val], all, total)
    ensures TotalLength(rest[i := he.next]) == TotalLength(rest) - 1
  {
    TakeFirst(hash, rest, left, i);
    PutFirst(hash, t, moved, he.key, he.val);
  }

  lemma MovingStarts(hash: HashFn, t: seq<Chain>, n: seq<Chain>, m: map<bytes, Val>, total: nat)
    requires Holds(hash, t, m) && TotalLength(t) == total && forall i :: 0 <= i < |n| ==> n[i].End?
    ensures Moving(hash, t, n, m, map[], m, total)
  {
    EmptyHolds(hash, n);
    TotalOfEmpty(n);
  }

  lemma MovingEnds(hash: HashFn, rest: seq<Chain>, t: seq<Chain>, left: map<bytes, Val>, moved: map<bytes, Val>,
                   all: map<bytes, Val>, total: nat)
    requires Moving(hash, rest, t, left, moved, all, total) && TotalLength(rest) == 0
    ensures Holds(hash, t, all) && TotalLength(t) == total
  {
    NothingHeld(hash, rest, left);
    assert moved == all;
  }

  /** The buckets before i are empty, the others as in the table. */
  ghost predicate ClearedUpTo(rest: seq<Chain>, t: seq<Chain>, i: nat) {
    && |rest| == |t|
    && (forall j :: i <= j < |rest| ==> rest[j] == t[j])
    && (forall j :: 0 <= j < i && j < |rest| ==> rest[j].End?)
  }

  lemma ClearOne(rest: seq<Chain>, t: seq<Chain>, i: nat)
    requires ClearedUpTo(rest, t, i) && i < |t|
    ensures rest[i] == t[i] && ClearedUpTo(rest[i := End], t, i + 1)
  {
  }

  lemma AllCleared(rest: seq<Chain>, t: seq<Chain>, i: nat)
    requires ClearedUpTo(rest, t, i) && i >= |t|
    ensures TotalLength(rest) == 0
  {
    TotalOfEmpty(rest);
  }

  class HashTable {
    const hash: HashFn
    var table: array<Chain>
    var sizemask: nat
    var used: nat
    ghost var contents: map<bytes, Val>

    ghost predicate Valid()
      reads this, table
    {
      && (table.Length == 0 || (table.Length >= INITIAL_SIZE && PowerOfTwo(table.Length) && sizemask == table.Length - 1))
      && Holds(hash, table[..], contents)
      && used == TotalLength(table[..]) == |contents|
      && used <= table.Length
    }

    constructor (hash: HashFn)
      ensures Valid() && fresh(table) && contents == map[] && this.hash == hash
    {
      this.hash := hash;
      table := new Chain[0];
      sizemask, used, contents := 0, 0, map[];
    }

    /** One bucket of the old table emptied into the new one, entry by entry. */
    method MoveBucket(chain: Chain, n: array<Chain>, ghost i: nat, ghost rest: seq<Chain>, ghost left: map<bytes, Val>,
                      ghost moved: map<bytes, Val>, ghost all: map<bytes, Val>, ghost total: nat)
      returns (count: nat, ghost left': map<bytes, Val>, ghost moved': map<bytes, Val>)
      requires i < |rest| && rest[i] == chain && n.Length > 0
      requires Moving(hash, rest, n[..], left, moved, all, total)
      modifies n
      ensures Moving(hash, rest[i := End], n[..], left', moved', all, total)
      ensures TotalLength(rest[i := End]) + count == TotalLength(rest)
    {
      count, left', moved' := 0, left, moved;
      var he := chain;
      ghost var now := rest;
      while he.Entry?
        invariant now == rest[i := he] && TotalLength(now) + count == TotalLength(rest)
        invariant Moving(hash, now, n[..], left', moved', all, total)
        decreases he
      {
        var h := Home(hash, n.Length, he.key);
        ghost var was := n[..];
        MoveFirst(hash, now, was, left', moved', all, total, i, he, h);
        n[h] := Entry(he.key, he.val, n[h]);
        assert n[..] == was[h := Entry(he.key, he.val, was[h])];
        now := now[i := he.next];
        left', moved' := left' - {he.key}, moved'[he.key := he.val];
        count := count + 1;
        he := he.next;
      }
    }

    /** The walk over the old buckets, which stops as soon as everything has moved. */
    method MoveAll(n: array<Chain>, ghost t: seq<Chain>, ghost all: map<bytes, Val>)
      requires t == table[..] && Holds(hash, t, all) && used == TotalLength(t)
      requires n != table && n.Length > 0 && forall i :: 0 <= i < n.Length ==> n[i].End?
      modifies n
      ensures Holds(hash, n[..], all) && TotalLength(n[..]) == used
    {
      ghost var rest, left: map<bytes, Val>, moved: map<bytes, Val> := t, all, map[];
      MovingStarts(hash, t, n[..], all, used);
      var remaining, i := used, 0;
      while i < table.Length && remaining > 0
        invariant t == table[..] && ClearedUpTo(rest, t, i)
        invariant Moving(hash, rest, n[..], left, moved, all, used) && remaining == TotalLength(rest)
      {
        ClearOne(rest, t, i);
        var count;
        count, left, moved := MoveBucket(table[i], n, i, rest, left, moved, all, used);
        rest := rest[i := End];
        remaining := remaining - count;
        i := i + 1;
      }
      if remaining > 0 { AllCleared(rest, t, i); }
      MovingEnds(hash, rest, n[..], left, moved, all, used);
    }

    /** dictExpand: every entry moves to its bucket in a larger table. */
    method Expand(size: nat) returns (ok: bool)
      requires Valid()
      modifies this
      ensures Valid() && contents == old(contents) && used == old(used)
      ensures ok <==> old(used) <= size
      ensures ok ==> table.Length >= size && table.Length >= INITIAL_SIZE && fresh(table)
      ensures !ok ==> table == old(table)
    {
      var realsize := NextPower(size);
      if used > size { return false; }
      var n := new Chain[realsize](i => End);
      MoveAll(n, table[..], contents);
      table, sizemask := n, realsize - 1;
      ok := true;
    }

    /** _dictExpandIfNeeded. */
    method ExpandIfNeeded() returns (ok: bool)
      requires Valid()
      modifies this
      ensures Valid() && contents == old(contents) && ok && used < table.Length
      ensures table == old(table) || fresh(table)
    {
      if table.Length == 0 {
        ok := Expand(INITIAL_SIZE);
      } else if used == table.Length {
        ok := Expand(table.Length * 2);
      } else {
        ok := true;
      }
    }

    /** The walk along a chain. */
    method Search(chain: Chain, key: bytes) returns (found: Option<Val>)
      ensures found == Lookup(chain, key)
    {
      var he := chain;
      while he.Entry?
        invariant Lookup(he, key) == Lookup(chain, key)
        decreases he
      {
        if he.key == key { return Some(he.val); }
        he := he.next;
      }
      found := None;
    }

    /** The bucket of a key, under the stored mask. */
    method Bucket(key: bytes) returns (h: nat)
      requires Valid() && table.Length > 0
      ensures h == Home(hash, table.Length, key) && Agrees(table[h], contents, key)
    {
      h := Home(hash, sizemask + 1, key);
      assert Agrees(table[..][Home(hash, |table[..]|, key)], contents, key);
    }

    /** _dictKeyIndex: where a new key would go, or nothing if it is there already. */
    method KeyIndex(key: bytes) returns (index: Option<nat>)
      requires Valid()
      modifies this
      ensures Valid() && contents == old(contents) && used < table.Length
      ensures table == old(table) || fresh(table)
      ensures index == if key in contents then None else Some(Home(hash, table.Length, key))
    {
      var ok := ExpandIfNeeded();
      var h := Bucket(key);
      var found := Search(table[h], key);
      index := if found.Some? then None else Some(h);
    }

    /** dictAdd. */
    method Add(key: bytes, val: Val) returns (ok: bool)
      requires Valid()
      modifies this, table
      ensures Valid() && (table == old(table) || fresh(table))
      ensures ok <==> key !in old(contents)
      ensures contents == if ok then old(contents)[key := val] else old(contents)
    {
      var index := KeyIndex(key);
      if index.None? { return false; }
      var h := index.value;
      ghost var was := table[..];
      PutFirst(hash, was, contents, key, val);
      table[h] := Entry(key, val, table[h]);
      assert table[..] == was[h := Entry(key, val, was[h])];
      contents := contents[key := val];
      used := used + 1;
      ok := true;
    }

    /** dictFind. */
    method Find(key: bytes) returns (found: Option<Val>)
      requires Valid()
      ensures found == if key in contents then Some(contents[key]) else None
    {
      if table.Length == 0 { return None; }
      var h := Bucket(key);
      found := Search(table[h], key);
    }

    /** dictReplace: added is false when an old value was overwritten. */
    method Replace(key: bytes, val: Val) returns (added: bool)
      requires Valid()
      modifies this, table
      ensures Valid() && (table == old(table) || fresh(table))
      ensures contents == old(contents)[key := val] && (added <==> key !in old(contents))
    {
      added := Add(key, val);
      if added { return; }
      var h := Bucket(key);
      ghost var was := table[..];
      UpdateOne(hash, was, contents, key, val);
      table[h] := Updated(table[h], key, val);
      assert table[..] == was[h := Updated(was[h], key, val)];
      assert contents[key := val].Keys == contents.Keys;
      contents := contents[key := val];
    }

    /** dictDelete. */
    method Delete(key: bytes) returns (ok: bool)
      requires Valid()
      modifies this, table
      ensures Valid() && table == old(table)
      ensures ok <==> key in old(contents)
      ensures contents == old(contents) - {key}
      ensures forall j :: 0 <= j < table.Length ==> table[j] == old(table[j]) || j == Home(hash, table.Length, key)
    {
      if table.Length == 0 { return false; }
      var h := Bucket(key);
      var found := Search(table[h], key);
      if found.None? { return false; }
      ghost var was := table[..];
      RemoveOne(hash, was, contents, key);
      table[h] := Without(table[h], key);
      assert table[..] == was[h := Without(was[h], key)];
      contents := contents - {key};
      used := used - 1;
      ok := true;
    }
  }
}
