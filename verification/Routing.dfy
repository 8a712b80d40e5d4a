/** The cluster's slot table: built from the nodes' slot ranges, replaced all at once or not at all. */
module Routing {
  import opened Bytes
  import Sharding

  const SLOTS: nat := Sharding.SLOTS

  datatype Role = NoRole | Master | Slave

  /** Slots start to end, both included, of a node. */
  datatype Range = Range(start: nat, end: nat, node: string)

  /** A node of the topology, in the order the node dictionary is walked. */
  datatype Node = Node(name: string, role: Role, slots: Option<seq<Range>>)

  datatype RouteError = NoReply | NotMaster | BadRegion | SlotConflict | NoAddress

  predicate InBounds(r: Range) { r.start <= r.end < SLOTS }

  predicate Covers(r: Range, k: nat) { r.start <= k <= r.end }

  /** No slot lies in two ranges. */
  ghost predicate PairwiseDisjoint(rs: seq<Range>) {
    forall i, j, k: nat :: 0 <= i < j < |rs| ==> !(Covers(rs[i], k) && Covers(rs[j], k))
  }

  function SlotsOfNode(n: Node): seq<Range> { if n.slots.Some? then n.slots.value else [] }

  /** Every range of the topology, in walking order. */
  function RangesOf(nodes: seq<Node>): seq<Range> {
    if nodes == [] then [] else RangesOf(nodes[..|nodes| - 1]) + SlotsOfNode(nodes[|nodes| - 1])
  }

  /** The first fault the walk over the nodes meets. */
  function FirstFault(nodes: seq<Node>): Option<RouteError> {
    if nodes == [] then None
    else match FirstFault(nodes[..|nodes| - 1])
      case Some(e) => Some(e)
      case None =>
        var last := nodes[|nodes| - 1];
        if last.role != Master then Some(NotMaster)
        else if !AllInBounds(SlotsOfNode(last)) then Some(BadRegion)
        else None
  }

  /** A topology that can become the route: masters only, ranges within bounds, no slot twice. */
  ghost predicate Acceptable(nodes: seq<Node>) {
    && AllMasters(nodes)
    && AllInBounds(RangesOf(nodes))
    && PairwiseDisjoint(RangesOf(nodes))
  }

  predicate AllMasters(nodes: seq<Node>) { forall i :: 0 <= i < |nodes| ==> nodes[i].role == Master }

  predicate AllInBounds(rs: seq<Range>) { forall i :: 0 <= i < |rs| ==> InBounds(rs[i]) }

  lemma InBoundsApp(a: seq<Range>, b: seq<Range>)
    ensures AllInBounds(a + b) <==> AllInBounds(a) && AllInBounds(b)
  {
    var c := a + b;
    assert forall i :: 0 <= i < |a| ==> c[i] == a[i];
    assert forall i :: 0 <= i < |b| ==> c[|a| + i] == b[i];
  }

  lemma {:induction false} NoFault(nodes: seq<Node>)
    ensures FirstFault(nodes).None? <==> AllMasters(nodes) && AllInBounds(RangesOf(nodes))
  {
    if nodes != [] {
      var init, last := nodes[..|nodes| - 1], nodes[|nodes| - 1];
      NoFault(init);
      InBoundsApp(RangesOf(init), SlotsOfNode(last));
      assert forall i :: 0 <= i < |init| ==> init[i] == nodes[i];
    }
  }

  lemma {:induction false} FaultStays(nodes: seq<Node>, j: nat)
    requires j <= |nodes| && FirstFault(nodes[..j]).Some?
    ensures FirstFault(nodes) == FirstFault(nodes[..j])
    decreases |nodes|
  {
    if j == |nodes| {
      assert nodes[..j] == nodes;
    } else {
      assert nodes[..|nodes| - 1][..j] == nodes[..j];
      FaultStays(nodes[..|nodes| - 1], j);
    }
  }

  // ----- who owns a slot -----

  /** In how many ranges a slot lies. */
  function Count(rs: seq<Range>, k: nat): nat {
    if rs == [] then 0 else Count(rs[..|rs| - 1], k) + (if Covers(rs[|rs| - 1], k) then 1 else 0)
  }

  /** The node of the last range a slot lies in. */
  function Owner(rs: seq<Range>, k: nat): Option<string> {
    if rs == [] then None
    else if Covers(rs[|rs| - 1], k) then Some(rs[|rs| - 1].node)
    else Owner(rs[..|rs| - 1], k)
  }

  lemma {:induction false} CountGrows(rs: seq<Range>, i: nat, k: nat)
    requires i <= |rs|
    ensures Count(rs[..i], k) <= Count(rs, k)
    ensures i < |rs| && Covers(rs[i], k) ==> Count(rs[..i], k) < Count(rs, k)
    decreases |rs| - i
  {
    if i == |rs| {
      assert rs[..i] == rs;
    } else {
      assert rs[..i + 1][..i] == rs[..i];
      CountGrows(rs, i + 1, k);
    }
  }

  lemma {:induction false} OwnerCounts(rs: seq<Range>, k: nat)
    ensures Owner(rs, k).Some? <==> Count(rs, k) > 0
    ensures Owner(rs, k).Some? ==> exists i :: 0 <= i < |rs| && Covers(rs[i], k) && rs[i].node == Owner(rs, k).value
    ensures Owner(rs, k).None? ==> forall i :: 0 <= i < |rs| ==> !Covers(rs[i], k)
  {
    if rs != [] {
      var init := rs[..|rs| - 1];
      OwnerCounts(init, k);
      assert forall i :: 0 <= i < |init| ==> init[i] == rs[i];
      if Owner(rs, k).Some? && !Covers(rs[|rs| - 1], k) {
        var i :| 0 <= i < |init| && Covers(init[i], k) && init[i].node == Owner(rs, k).value;
        assert rs[i] == init[i];
      }
    }
  }

  lemma TwiceCounted(rs: seq<Range>, i: nat, j: nat, k: nat)
    requires i < j < |rs| && Covers(rs[i], k) && Covers(rs[j], k)
    ensures Count(rs, k) >= 2
  {
    CountGrows(rs, j, k);
    assert rs[..j][i] == rs[i];
    CountGrows(rs[..j], i, k);
  }

  lemma {:induction false} CountedTwice(rs: seq<Range>, k: nat) returns (i: nat, j: nat)
    requires Count(rs, k) >= 2
    ensures i < j < |rs| && Covers(rs[i], k) && Covers(rs[j], k)
  {
    var init := rs[..|rs| - 1];
    if Covers(rs[|rs| - 1], k) {
      OwnerCounts(init, k);
      i :| 0 <= i < |init| && Covers(init[i], k);
      j := |init|;
      assert init[i] == rs[i];
    } else {
      i, j := CountedTwice(init, k);
      assert init[i] == rs[i] && init[j] == rs[j];
    }
  }

  ghost predicate AtMostOnce(rs: seq<Range>) { forall k: nat :: Count(rs, k) <= 1 }

  /** Disjoint ranges are those that count no slot twice, a fact that does not depend on their order. */
  lemma DisjointByCount(rs: seq<Range>)
    ensures PairwiseDisjoint(rs) <==> AtMostOnce(rs)
  {
    if PairwiseDisjoint(rs) {
      DisjointCounts(rs);
    }
    if AtMostOnce(rs) {
      forall i, j, k: nat | 0 <= i < j < |rs| ensures !(Covers(rs[i], k) && Covers(rs[j], k)) {
        if Covers(rs[i], k) && Covers(rs[j], k) { TwiceCounted(rs, i, j, k); }
      }
    }
  }

  lemma DisjointCounts(rs: seq<Range>)
    requires PairwiseDisjoint(rs)
    ensures AtMostOnce(rs)
  {
    forall k: nat ensures Count(rs, k) <= 1 {
      if Count(rs, k) > 1 {
        var i, j := CountedTwice(rs, k);
        assert false;
      }
    }
  }

  /** In disjoint ranges the owner is the node of whichever range covers the slot. */
  lemma OwnerIsUnique(rs: seq<Range>, r: Range, k: nat)
    requires PairwiseDisjoint(rs) && r in rs && Covers(r, k)
    ensures Owner(rs, k) == Some(r.node)
  {
    OwnerCounts(rs, k);
    var i :| 0 <= i < |rs| && rs[i] == r;
    assert Owner(rs, k).Some?;
    var j :| 0 <= j < |rs| && Covers(rs[j], k) && rs[j].node == Owner(rs, k).value;
    assert i == j;
  }

  lemma OwnerCarriesOver(rs: seq<Range>, ts: seq<Range>, k: nat)
    requires PairwiseDisjoint(ts) && multiset(rs) == multiset(ts)
    ensures Owner(rs, k).Some? ==> Owner(ts, k) == Owner(rs, k)
  {
    OwnerCounts(rs, k);
    if Owner(rs, k).Some? {
      var i :| 0 <= i < |rs| && Covers(rs[i], k) && rs[i].node == Owner(rs, k).value;
      assert rs[i] in multiset(ts);
      OwnerIsUnique(ts, rs[i], k);
    }
  }

  /** Owners do not depend on the order of disjoint ranges. */
  lemma OwnerOfReordered(rs: seq<Range>, ts: seq<Range>, k: nat)
    requires PairwiseDisjoint(rs) && PairwiseDisjoint(ts) && multiset(rs) == multiset(ts)
    ensures Owner(rs, k) == Owner(ts, k)
  {
    OwnerCarriesOver(rs, ts, k);
    OwnerCarriesOver(ts, rs, k);
  }

  lemma DisjointWhenReordered(rs: seq<Range>, ts: seq<Range>)
    requires forall k: nat :: Count(rs, k) == Count(ts, k)
    ensures PairwiseDisjoint(rs) ==> PairwiseDisjoint(ts)
  {
    DisjointByCount(rs);
    DisjointByCount(ts);
    if AtMostOnce(rs) {
      forall k: nat ensures Count(ts, k) <= 1 { assert Count(rs, k) <= 1; }
    }
  }

  // ----- sorting by start -----

  predicate Sorted(rs: seq<Range>) { forall i, j :: 0 <= i < j < |rs| ==> rs[i].start <= rs[j].start }

  lemma {:induction false} CountApp(a: seq<Range>, b: seq<Range>, k: nat)
    ensures Count(a + b, k) == Count(a, k) + Count(b, k)
  {
    if b == [] {
      assert a + b == a;
    } else {
      var init := b[..|b| - 1];
      assert (a + b)[..|a + b| - 1] == a + init;
      CountApp(a, init, k);
    }
  }

  lemma CountOfInserted(a: seq<Range>, b: seq<Range>, r: Range, k: nat)
    ensures Count(a + [r] + b, k) == Count(a + b, k) + Count([r], k)
  {
    CountApp(a, b, k);
    CountApp(a, [r], k);
    CountApp(a + [r], b, k);
  }

  lemma Inserted(ts: seq<Range>, r: Range, at: nat, us: seq<Range>)
    requires at <= |ts| && us == ts[..at] + [r] + ts[at..]
    ensures multiset(us) == multiset(ts) + multiset{r}
    ensures forall k: nat :: Count(us, k) == Count(ts, k) + Count([r], k)
  {
    assert ts == ts[..at] + ts[at..];
    forall k: nat ensures Count(us, k) == Count(ts, k) + Count([r], k) {
      CountOfInserted(ts[..at], ts[at..], r, k);
    }
  }

  lemma InsertedSorted(ts: seq<Range>, r: Range, at: nat, us: seq<Range>)
    requires at <= |ts| && us == ts[..at] + [r] + ts[at..] && Sorted(ts)
    requires forall j :: at <= j < |ts| ==> ts[j].start > r.start
    requires at > 0 ==> ts[at - 1].start <= r.start
    ensures Sorted(us)
  {
  }

  method Insert(ts: seq<Range>, r: Range) returns (us: seq<Range>)
    requires Sorted(ts)
    ensures Sorted(us) && multiset(us) == multiset(ts) + multiset{r}
    ensures forall k: nat :: Count(us, k) == Count(ts, k) + Count([r], k)
  {
    var at := |ts|;
    while at > 0 && ts[at - 1].start > r.start
      invariant 0 <= at <= |ts|
      invariant forall j :: at <= j < |ts| ==> ts[j].start > r.start
    {
      at := at - 1;
    }
    us := ts[..at] + [r] + ts[at..];
    Inserted(ts, r, at, us);
    InsertedSorted(ts, r, at, us);
  }

  /** The sort by start, as a sort by insertion; the library routine used may order equal starts differently. */
  method SortByStart(rs: seq<Range>) returns (ts: seq<Range>)
    ensures Sorted(ts) && multiset(ts) == multiset(rs)
    ensures forall k: nat :: Count(ts, k) == Count(rs, k)
  {
    ts := [];
    for i := 0 to |rs|
      invariant Sorted(ts) && multiset(ts) == multiset(rs[..i])
      invariant forall k: nat :: Count(ts, k) == Count(rs[..i], k)
    {
      assert rs[..i + 1] == rs[..i] + [rs[i]];
      forall k: nat ensures Count(rs[..i + 1], k) == Count(rs[..i], k) + Count([rs[i]], k) {
        CountApp(rs[..i], [rs[i]], k);
      }
      ts := Insert(ts, rs[i]);
    }
    assert rs[..|rs|] == rs;
  }

  // ----- filling the table -----

  /** The slots of a range go to its node, unless one of them is taken. */
  method Claim(table: array<Option<string>>, rs: seq<Range>, j: nat) returns (ok: bool)
    requires table.Length == SLOTS && j < |rs| && InBounds(rs[j])
    requires forall k :: 0 <= k < SLOTS ==> table[k] == Owner(rs[..j], k)
    modifies table
    ensures ok ==> forall k :: 0 <= k < SLOTS ==> table[k] == Owner(rs[..j + 1], k)
    ensures ok <==> forall k: nat :: Covers(rs[j], k) ==> Count(rs[..j], k) == 0
  {
    assert rs[..j + 1][..j] == rs[..j];
    var k := rs[j].start;
    while k <= rs[j].end
      invariant rs[j].start <= k <= rs[j].end + 1
      invariant forall x :: 0 <= x < k ==> table[x] == Owner(rs[..j + 1], x)
      invariant forall x :: k <= x < SLOTS ==> table[x] == Owner(rs[..j], x)
      invariant forall x: nat :: Covers(rs[j], x) && x < k ==> Count(rs[..j], x) == 0
    {
      OwnerCounts(rs[..j], k);
      if table[k].Some? { return false; }
      table[k] := Some(rs[j].node);
      k := k + 1;
    }
    return true;
  }

  /** The table of sorted ranges; it exists exactly when they are disjoint. */
  method FillTable(rs: seq<Range>) returns (table: array<Option<string>>, ok: bool)
    requires AllInBounds(rs)
    ensures fresh(table) && table.Length == SLOTS
    ensures ok <==> PairwiseDisjoint(rs)
    ensures ok ==> forall k :: 0 <= k < SLOTS ==> table[k] == Owner(rs, k)
  {
    table := new Option<string>[SLOTS](i => None);
    DisjointByCount(rs);
    for j := 0 to |rs|
      invariant forall k :: 0 <= k < SLOTS ==> table[k] == Owner(rs[..j], k)
      invariant AtMostOnce(rs[..j])
    {
      assert rs[..j + 1][..j] == rs[..j];
      ok := Claim(table, rs, j);
      if !ok {
        var k: nat :| Covers(rs[j], k) && Count(rs[..j], k) != 0;
        CountGrows(rs, j, k);
        return;
      }
    }
    assert rs[..|rs|] == rs;
    ok := true;
  }

  /** The walk over the new nodes. */
  method CollectRanges(nodes: seq<Node>) returns (rs: seq<Range>, fault: Option<RouteError>)
    ensures fault == FirstFault(nodes)
    ensures fault.None? ==> rs == RangesOf(nodes) && AllInBounds(rs)
  {
    rs := [];
    for j := 0 to |nodes|
      invariant FirstFault(nodes[..j]).None? && rs == RangesOf(nodes[..j])
      invariant forall i :: 0 <= i < |rs| ==> InBounds(rs[i])
    {
      assert nodes[..j + 1][..j] == nodes[..j];
      var n := nodes[j];
      if n.role != Master {
        FaultStays(nodes, j + 1);
        return rs, Some(NotMaster);
      }
      ghost var before := rs;
      if n.slots.Some? {
        for i := 0 to |n.slots.value|
          invariant rs == before + n.slots.value[..i]
          invariant forall x :: 0 <= x < |rs| ==> InBounds(rs[x])
          invariant forall x :: 0 <= x < i ==> InBounds(n.slots.value[x])
        {
          var r := n.slots.value[i];
          if r.start > r.end || r.end >= SLOTS {
            assert !InBounds(SlotsOfNode(n)[i]);
            FaultStays(nodes, j + 1);
            return rs, Some(BadRegion);
          }
          rs := rs + [r];
        }
        assert n.slots.value[..|n.slots.value|] == n.slots.value;
      }
      assert rs == before + SlotsOfNode(n);
    }
    assert nodes[..|nodes|] == nodes;
    fault := None;
  }

  // ----- the route -----

  /** The first reply that can become the route. */
  ghost predicate FirstGood(replies: seq<Option<seq<Node>>>, i: nat) {
    && i < |replies| && replies[i].Some? && Acceptable(replies[i].value)
    && forall j :: 0 <= j < i ==> replies[j].Some? ==> !Acceptable(replies[j].value)
  }

  /** Why a reply is no route. */
  function Fault(reply: Option<seq<Node>>): RouteError {
    if reply.None? then NoReply
    else if FirstFault(reply.value).Some? then FirstFault(reply.value).value
    else SlotConflict
  }

  class Cluster {
    var nodes: seq<Node>
    var slots: seq<Range>
    var table: array?<Option<string>>
    var version: nat
    var err: Option<RouteError>

    /** The route agrees with the topology: each slot maps to the node whose range covers it, or to none. */
    ghost predicate Routed()
      reads this, table
    {
      table != null ==>
        && table.Length == SLOTS && Acceptable(nodes)
        && Sorted(slots) && multiset(slots) == multiset(RangesOf(nodes))
        && forall k :: 0 <= k < SLOTS ==> table[k] == Owner(RangesOf(nodes), k)
    }

    constructor ()
      ensures Routed() && table == null && version == 0
    {
      nodes, slots, table, version, err := [], [], null, 0, None;
    }

    /** One address asked for the topology: its reply becomes the route exactly when it is acceptable. */
    method UpdateRouteByAddr(reply: Option<seq<Node>>) returns (ok: bool)
      requires Routed()
      modifies this
      ensures Routed()
      ensures ok <==> reply.Some? && Acceptable(reply.value)
      ensures ok ==> nodes == reply.value && table != null && fresh(table) && version == old(version) + 1 && err == old(err)
      ensures !ok ==> err == Some(Fault(reply)) && unchanged(`nodes, `slots, `table, `version)
    {
      if reply.None? {
        err := Some(NoReply);
        return false;
      }
      NoFault(reply.value);
      var rs, fault := CollectRanges(reply.value);
      if fault.Some? {
        err := fault;
        return false;
      }
      var sorted := SortByStart(rs);
      forall i | 0 <= i < |sorted| ensures InBounds(sorted[i]) {
        assert sorted[i] in multiset(rs);
      }
      DisjointWhenReordered(sorted, rs);
      DisjointWhenReordered(rs, sorted);
      var filled;
      filled, ok := FillTable(sorted);
      if !ok {
        err := Some(SlotConflict);
        return;
      }
      forall k | 0 <= k < SLOTS ensures filled[k] == Owner(rs, k) {
        OwnerOfReordered(sorted, rs, k);
      }
      nodes, slots, table, version := reply.value, sorted, filled, version + 1;
    }

    /**
     Every known address is asked in turn until one reply is acceptable. If none is, the error of the last
     attempt stays; there being no address at all is an error of its own.
     */
    method UpdateRoute(replies: seq<Option<seq<Node>>>) returns (ok: bool)
      requires Routed()
      modifies this
      ensures Routed()
      ensures ok ==> exists i: nat :: FirstGood(replies, i) && nodes == replies[i].value
      ensures ok ==> table != null && version == old(version) + 1 && err == None
      ensures !ok ==> forall j :: 0 <= j < |replies| ==> replies[j].Some? ==> !Acceptable(replies[j].value)
      ensures !ok ==> err == Some(if replies == [] then NoAddress else Fault(replies[|replies| - 1]))
      ensures !ok ==> unchanged(`nodes, `slots, `table, `version)
    {
      var noAttempt := true;
      for i := 0 to |replies|
        invariant Routed() && unchanged(`nodes, `slots, `table, `version)
        invariant forall j :: 0 <= j < i ==> replies[j].Some? ==> !Acceptable(replies[j].value)
        invariant noAttempt <==> i == 0
        invariant i > 0 ==> err == Some(Fault(replies[i - 1]))
      {
        ok := UpdateRouteByAddr(replies[i]);
        if ok {
          assert FirstGood(replies, i);
          err := None;
          return;
        }
        noAttempt := false;
      }
      if noAttempt { err := Some(NoAddress); }
      ok := false;
    }

    /** node_get_by_table. */
    function NodeByTable(slot: nat): (n: Option<string>)
      requires Routed()
      reads this, table
      ensures table != null && slot < SLOTS ==>
                (n.Some? <==> exists r :: r in RangesOf(nodes) && Covers(r, slot))
      ensures forall r :: table != null && r in RangesOf(nodes) && Covers(r, slot) && slot < SLOTS ==> n == Some(r.node)
    {
      if table == null || slot >= SLOTS then None
      else
        ghost var rs := RangesOf(nodes);
        OwnerCounts(rs, slot);
        assert forall r :: r in rs && Covers(r, slot) ==> Owner(rs, slot) == Some(r.node) by {
          forall r | r in rs && Covers(r, slot) ensures Owner(rs, slot) == Some(r.node) {
            OwnerIsUnique(rs, r, slot);
          }
        }
        table[slot]
    }
  }
}
