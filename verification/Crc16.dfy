/** The key slot: table-driven CRC-16/XMODEM against bit-by-bit division, and the hash tag of a key. */
module Crc16 {
  import opened Bytes
  import opened Division
  import Sharding

  /** The remainder of a message, starting from zero. */
  function Remainder(step: bv16 -> bv16, s: bytes): bv16 {
    if s == [] then 0 else FeedByte(step, Remainder(step, s[..|s| - 1]), s[|s| - 1] as bv8)
  }

  lemma RemainderStep(step: bv16 -> bv16, s: bytes, i: nat)
    requires i < |s|
    ensures Remainder(step, s[..i + 1]) == FeedByte(step, Remainder(step, s[..i]), s[i] as bv8)
  {
    assert s[..i + 1][..i] == s[..i];
  }

  /** The loop of crc16, over any table of remainders. */
  method CrcBy(table: bv8 -> bv16, ghost step: bv16 -> bv16, buf: bytes) returns (crc: bv16)
    requires Linear(step) && Tabulates(table, step)
    ensures crc == Remainder(step, buf)
  {
    crc := 0;
    for counter := 0 to |buf|
      invariant crc == Remainder(step, buf[..counter])
    {
      RemainderStep(step, buf, counter);
      crc := TableStep(table, step, crc, buf[counter] as bv8);
    }
    assert buf[..|buf|] == buf;
  }

  /** crc16: table-driven, and equal to the bit-by-bit remainder of every byte string. */
  method Crc(buf: bytes) returns (crc: bv16)
    ensures crc == Remainder(Shift, buf)
  {
    ShiftIsLinear();
    TableTabulates();
    crc := CrcBy(Table, Shift, buf);
  }

  // ----- the slot of a key -----

  const OPEN: byte := 123
  const CLOSE: byte := 125

  /** The first index from i on where a byte stands, or the length. */
  function IndexFrom(s: bytes, c: byte, i: nat): (k: nat)
    requires i <= |s|
    ensures i <= k <= |s| && (k < |s| ==> s[k] == c) && forall j :: i <= j < k ==> s[j] != c
    decreases |s| - i
  {
    if i == |s| || s[i] == c then i else IndexFrom(s, c, i + 1)
  }

  /** The part of a key that is hashed: between the first '{' and the next '}', if that is not empty. */
  function HashTag(key: bytes): bytes {
    var s := IndexFrom(key, OPEN, 0);
    if s == |key| then key
    else
      var e := IndexFrom(key, CLOSE, s + 1);
      if e == |key| || e == s + 1 then key else key[s + 1..e]
  }

  lemma HighAndLow(crc: bv16, low: bv16, high: bv16)
    requires low == crc & 0x3FFF && high == crc >> 14
    ensures crc as nat == (high as nat) * 16384 + low as nat
  {
  }

  lemma LowIsSmall(crc: bv16, low: bv16)
    requires low == crc & 0x3FFF
    ensures low as nat < 16384
  {
  }

  lemma RemainderOf(n: nat, q: nat, r: nat)
    requires n == q * 16384 + r && r < 16384
    ensures n % 16384 == r
  {
  }

  /** The low fourteen bits: one of 16384 slots. */
  function SlotOf(crc: bv16): (n: nat)
    ensures n == (crc as nat) % 16384
  {
    HighAndLow(crc, crc & 0x3FFF, crc >> 14);
    LowIsSmall(crc, crc & 0x3FFF);
    RemainderOf(crc as nat, (crc >> 14) as nat, (crc & 0x3FFF) as nat);
    (crc & 0x3FFF) as nat
  }

  function KeySlot(key: bytes): (n: nat)
    ensures n < Sharding.SLOTS
  {
    SlotOf(Remainder(Shift, HashTag(key)))
  }

  /** The bytes between s and e are the tag: between the first brace and the next closing one, and not empty. */
  ghost predicate TagAt(key: bytes, s: nat, e: nat) {
    && s + 1 < e < |key| && key[s] == 123 && key[e] == 125
    && 123 !in key[..s] && 125 !in key[s + 1..e]
  }

  function SlotOfText(text: bytes): nat { (Remainder(Shift, text) as nat) % 16384 }

  lemma TagIsHashed(key: bytes, s: nat, e: nat)
    requires TagAt(key, s, e)
    ensures KeySlot(key) == SlotOfText(key[s + 1..e])
  {
    assert forall j :: 0 <= j < s ==> key[..s][j] == key[j];
    assert forall j :: s + 1 <= j < e ==> key[s + 1..e][j - s - 1] == key[j];
    FirstIndex(key, OPEN, 0, s);
    FirstIndex(key, CLOSE, s + 1, e);
  }

  lemma WholeKeyIsHashed(key: bytes)
    requires forall s: nat, e: nat :: !TagAt(key, s, e)
    ensures KeySlot(key) == SlotOfText(key)
  {
    var s := IndexFrom(key, OPEN, 0);
    if s < |key| {
      var e := IndexFrom(key, CLOSE, s + 1);
      if s + 1 < e < |key| { assert TagAt(key, s, e); }
    }
  }

  /** The slot of a key is that of its tag, if it has one, and otherwise that of the whole key. */
  lemma KeySlotIs(key: bytes)
    ensures forall s: nat, e: nat :: TagAt(key, s, e) ==> KeySlot(key) == SlotOfText(key[s + 1..e])
    ensures (forall s: nat, e: nat :: !TagAt(key, s, e)) ==> KeySlot(key) == SlotOfText(key)
  {
    forall s: nat, e: nat | TagAt(key, s, e) ensures KeySlot(key) == SlotOfText(key[s + 1..e]) { TagIsHashed(key, s, e); }
    if forall s: nat, e: nat :: !TagAt(key, s, e) { WholeKeyIsHashed(key); }
  }

  /** keyHashSlot: the search for the braces and the checksum of what is found. */
  method HashSlot(key: bytes) returns (slot: nat)
    ensures slot == KeySlot(key)
  {
    var s := 0;
    while s < |key| && key[s] != OPEN
      invariant 0 <= s <= |key| && IndexFrom(key, OPEN, s) == IndexFrom(key, OPEN, 0)
    {
      s := s + 1;
    }
    if s == |key| {
      var crc := Crc(key);
      return SlotOf(crc);
    }
    var e := s + 1;
    while e < |key| && key[e] != CLOSE
      invariant s + 1 <= e <= |key| && IndexFrom(key, CLOSE, e) == IndexFrom(key, CLOSE, s + 1)
    {
      e := e + 1;
    }
    if e == |key| || e == s + 1 {
      var crc := Crc(key);
      return SlotOf(crc);
    }
    var crc := Crc(key[s + 1..e]);
    return SlotOf(crc);
  }

  /** keyHashSlot: the slot is that of the tag, if the key has one, and otherwise that of the whole key. */
  method KeyHashSlot(key: bytes) returns (slot: nat)
    ensures slot == KeySlot(key)
    ensures forall s: nat, e: nat :: TagAt(key, s, e) ==> slot == SlotOfText(key[s + 1..e])
    ensures (forall s: nat, e: nat :: !TagAt(key, s, e)) ==> slot == SlotOfText(key)
  {
    KeySlotIs(key);
    slot := HashSlot(key);
  }

  /** Keys with the same non-empty first tag share a slot, whatever surrounds the tag. */
  lemma SameTagSameSlot(before: bytes, tag: bytes, after: bytes, before': bytes, after': bytes)
    requires OPEN !in before && OPEN !in before' && tag != [] && CLOSE !in tag
    ensures KeySlot(before + [OPEN] + tag + [CLOSE] + after) == KeySlot(before' + [OPEN] + tag + [CLOSE] + after')
    ensures KeySlot(before + [OPEN] + tag + [CLOSE] + after) == SlotOf(Remainder(Shift, tag))
  {
    TagOf(before, tag, after);
    TagOf(before', tag, after');
  }

  lemma TagOf(before: bytes, tag: bytes, after: bytes)
    requires OPEN !in before && tag != [] && CLOSE !in tag
    ensures HashTag(before + [OPEN] + tag + [CLOSE] + after) == tag
  {
    var key := before + [OPEN] + tag + [CLOSE] + after;
    var s, e := |before|, |before| + 1 + |tag|;
    assert key[..s] == before && key[s] == OPEN && key[s + 1..e] == tag && key[e] == CLOSE;
    forall j | 0 <= j < s ensures key[j] != OPEN { assert key[j] == before[j]; }
    forall j | s + 1 <= j < e ensures key[j] != CLOSE { assert key[j] == tag[j - s - 1]; }
    FirstIndex(key, OPEN, 0, s);
    FirstIndex(key, CLOSE, s + 1, e);
  }

  lemma FirstIndex(s: bytes, c: byte, i: nat, k: nat)
    requires i <= k < |s| && s[k] == c && forall j :: i <= j < k ==> s[j] != c
    ensures IndexFrom(s, c, i) == k
  {
    assert IndexFrom(s, c, i) >= k;
  }

  lemma FirstByte()
    ensures Shift8(0x6600) == 0x0C60
  {
    assert Shift(0x6600) == 0xCC00 && Shift(0xCC00) == 0x8821 && Shift(0x8821) == 0x0063 && Shift(0x0063) == 0x00C6;
    assert Shift(0x00C6) == 0x018C && Shift(0x018C) == 0x0318 && Shift(0x0318) == 0x0630 && Shift(0x0630) == 0x0C60;
  }

  lemma SecondByte()
    ensures Shift8(0x6360) == 0x3CC5
  {
    assert Shift(0x6360) == 0xC6C0 && Shift(0xC6C0) == 0x9DA1 && Shift(0x9DA1) == 0x2B63 && Shift(0x2B63) == 0x56C6;
    assert Shift(0x56C6) == 0xAD8C && Shift(0xAD8C) == 0x4B39 && Shift(0x4B39) == 0x9672 && Shift(0x9672) == 0x3CC5;
  }

  lemma ThirdByte()
    ensures Shift8(0x53C5) == 0xAF96
  {
    assert Shift(0x53C5) == 0xA78A && Shift(0xA78A) == 0x5F35 && Shift(0x5F35) == 0xBE6A && Shift(0xBE6A) == 0x6CF5;
    assert Shift(0x6CF5) == 0xD9EA && Shift(0xD9EA) == 0xA3F5 && Shift(0xA3F5) == 0x57CB && Shift(0x57CB) == 0xAF96;
  }

  lemma Feeds(crc: bv16, b: bv8, x: bv16, next: bv16)
    requires x == crc ^ ((b as bv16) << 8) && Shift8(x) == next
    ensures FeedByte(Shift, crc, b) == next
  {
    EightTimes(Shift, x);
  }

  lemma RemainderOfThree(step: bv16 -> bv16, a: byte, b: byte, c: byte, one: bv16, two: bv16, three: bv16)
    requires FeedByte(step, 0, a as bv8) == one && FeedByte(step, one, b as bv8) == two && FeedByte(step, two, c as bv8) == three
    ensures Remainder(step, [a, b, c]) == three
  {
    var s := [a, b, c];
    assert s[..0] == [] && s[..3] == s;
    RemainderStep(step, s, 0);
    RemainderStep(step, s, 1);
    RemainderStep(step, s, 2);
  }

  lemma NoTag(key: bytes)
    requires 123 !in key
    ensures forall s: nat, e: nat :: !TagAt(key, s, e)
  {
  }

  lemma ChecksumOfFoo(foo: bytes)
    requires foo == [102, 111, 111]
    ensures Remainder(Shift, foo) == 0xAF96
  {
    FirstByte();
    SecondByte();
    ThirdByte();
    Feeds(0x0000, 102, 0x6600, 0x0C60);
    Feeds(0x0C60, 111, 0x6360, 0x3CC5);
    Feeds(0x3CC5, 111, 0x53C5, 0xAF96);
    RemainderOfThree(Shift, 102, 111, 111, 0x0C60, 0x3CC5, 0xAF96);
  }

  lemma SlotNumber(crc: bv16)
    requires crc == 0xAF96
    ensures (crc as nat) % 16384 == 12182
  {
  }

  /** The key "foo" has the checksum AF96 and the slot 12182. */
  lemma SlotOfFoo(foo: bytes, crc: bv16)
    requires foo == [102, 111, 111] && crc == 0xAF96
    ensures Remainder(Shift, foo) == crc && KeySlot(foo) == 12182
  {
    ChecksumOfFoo(foo);
    NoTag(foo);
    WholeKeyIsHashed(foo);
    SlotNumber(crc);
  }
}
