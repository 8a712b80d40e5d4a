/**
 The splitter: grouping a command's keys by hash slot, and writing one command per slot into a
 buffer of pre-computed length.
 */
module Fragment {
  import opened Bytes
  import opened Integers
  import opened Format
  import opened Sharding
  import opened Encoding
  import Scanner

  type KeyPos = Scanner.KeyPos

  /** A key of a sub-command: its span in the original command and, for MSET, the bytes to copy after it. */
  datatype SubKey = SubKey(start: nat, end: nat, remain: nat)

  datatype Sub = Sub(slot: nat, narg: nat, clen: nat, keys: seq<SubKey>)

  /** A sub-command ready to be sent. */
  datatype Encoded = Encoded(slot: nat, cmd: bytes)

  const INT_LIMIT: nat := 0x8000_0000

  /** The key bytes of an item stand at a span, followed by the item's tail. */
  ghost predicate StandsAt(kind: Kind, cmd: bytes, start: nat, end: nat, item: Item) {
    && start <= end && end + |Tail(kind, item)| <= |cmd|
    && cmd[start..end] == item.key
    && cmd[end..end + |Tail(kind, item)|] == Tail(kind, item)
  }

  ghost predicate KeysStand(kind: Kind, cmd: bytes, keys: seq<KeyPos>, items: seq<Item>) {
    && |keys| == |items|
    && forall i :: 0 <= i < |keys| ==> StandsAt(kind, cmd, keys[i].start, keys[i].end, items[i])
  }

  ghost predicate SubKeyFor(kind: Kind, cmd: bytes, k: SubKey, item: Item) {
    StandsAt(kind, cmd, k.start, k.end, item) && k.remain == if kind.MSet? then |Tail(kind, item)| else 0
  }

  ghost predicate SubKeysFor(kind: Kind, cmd: bytes, keys: seq<SubKey>, items: seq<Item>) {
    && |keys| == |items|
    && forall j :: 0 <= j < |keys| ==> SubKeyFor(kind, cmd, keys[j], items[j])
  }

  /** A sub-command that stands for the items of its slot. */
  ghost predicate SubFor(kind: Kind, cmd: bytes, sub: Sub, items: seq<Item>) {
    && sub.narg == |items| && sub.clen == AllKeyBytes(kind, items)
    && SubKeysFor(kind, cmd, sub.keys, items)
  }

  // ----- the value of an MSET pair -----

  /** A value's length as it stands after a key: over CRLF and '$' to the digits. */
  ghost predicate LengthAfter(cmd: bytes, end: nat, digits: bytes) {
    && end + 3 + |digits| < |cmd|
    && cmd[end + 1] == LF && cmd[end + 2] == 36
    && (forall k :: 0 <= k < |digits| ==> cmd[end + 3 + k] == digits[k])
    && cmd[end + 3 + |digits|] == CR
  }

  lemma TailText(value: bytes, digits: bytes)
    requires digits == Decimal(|value|)
    ensures CRLF + FormatArg(value) == CRLF + ([36] + digits + CRLF + value + CRLF)
  {
  }

  lemma LengthStands(cmd: bytes, end: nat, value: bytes, digits: bytes, tail: bytes)
    requires tail == CRLF + ([36] + digits + CRLF + value + CRLF)
    requires end + |tail| <= |cmd| && cmd[end..end + |tail|] == tail
    ensures LengthAfter(cmd, end, digits) && |tail| == 7 + |digits| + |value|
  {
    var part := cmd[end..end + |tail|];
    assert part[1] == cmd[end + 1] && part[2] == cmd[end + 2] && part[3 + |digits|] == cmd[end + 3 + |digits|];
    forall k | 0 <= k < |digits| ensures cmd[end + 3 + k] == digits[k] {
      assert part[3 + k] == digits[k];
    }
  }

  /** The two digit scans of the MSET branch. */
  method ReadLength(cmd: bytes, end: nat, ghost digits: bytes) returns (len: nat, p: nat)
    requires digits != [] && AllDigits(digits) && LengthAfter(cmd, end, digits)
    ensures len == Value(digits) && p == end + 3 + |digits|
  {
    p := end + 1;
    assert cmd[end + 3] == digits[0];
    while !IsDigit(cmd[p])
      invariant end + 1 <= p <= end + 3
      decreases end + 3 - p
    {
      p := p + 1;
    }
    len := 0;
    ghost var k := 0;
    assert digits[..0] == [];
    while IsDigit(cmd[p])
      invariant 0 <= k <= |digits| && p == end + 3 + k
      invariant len == Value(digits[..k])
      decreases |digits| - k
    {
      assert cmd[end + 3 + k] == digits[k];
      ValueStep(digits, k);
      len := len * 10 + (cmd[p] - 48);
      p, k := p + 1, k + 1;
    }
    assert k < |digits| ==> IsDigit(digits[k]);
    assert digits[..|digits|] == digits;
  }

  /** The bytes from a key's end up to and including the CRLF of its value. */
  method RemainLen(cmd: bytes, end: nat, ghost value: bytes, ghost tail: bytes) returns (remain: nat)
    requires tail == CRLF + FormatArg(value)
    requires end + |tail| <= |cmd| && cmd[end..end + |tail|] == tail
    ensures remain == |tail|
  {
    ghost var digits := Decimal(|value|);
    TailText(value, digits);
    LengthStands(cmd, end, value, digits, tail);
    ValueOfDecimal(|value|);
    var len, p := ReadLength(cmd, end, digits);
    remain := len + 2 * 2 + (p - end);
  }

  // ----- grouping -----

  /** Slot s of the table after the given items. */
  ghost predicate EntryFor(kind: Kind, slotOf: SlotFn, cmd: bytes, items: seq<Item>, s: nat, entry: Option<Sub>) {
    var piece := Piece(slotOf, items, s);
    if piece == [] then entry.None? else entry.Some? && entry.value.slot == s && SubFor(kind, cmd, entry.value, piece)
  }

  ghost predicate TableFor(kind: Kind, slotOf: SlotFn, cmd: bytes, items: seq<Item>, table: seq<Option<Sub>>) {
    |table| == SLOTS && forall s :: 0 <= s < SLOTS ==> EntryFor(kind, slotOf, cmd, items, s, table[s])
  }

  /** The narg, clen and keys of a sub-command after one more key, clen's number coming from uint_len. */
  function Join(sub: Option<Sub>, slot: nat, k: SubKey, keyBytes: nat): Sub {
    var was := if sub.None? then Sub(slot, 0, 0, []) else sub.value;
    Sub(slot, was.narg + 1, was.clen + keyBytes, was.keys + [k])
  }

  lemma SubKeysSnoc(kind: Kind, cmd: bytes, keys: seq<SubKey>, items: seq<Item>, k: SubKey, item: Item)
    requires SubKeysFor(kind, cmd, keys, items) && SubKeyFor(kind, cmd, k, item)
    ensures SubKeysFor(kind, cmd, keys + [k], items + [item])
  {
  }

  lemma AllKeyBytesSnoc(kind: Kind, items: seq<Item>, item: Item)
    ensures AllKeyBytes(kind, items + [item]) == AllKeyBytes(kind, items) + KeyBytes(kind, item)
  {
    assert (items + [item])[..|items|] == items;
  }

  lemma JoinedFor(kind: Kind, slotOf: SlotFn, cmd: bytes, init: seq<Item>, item: Item, s: nat,
                  entry: Option<Sub>, k: SubKey)
    requires s == slotOf(item.key) && EntryFor(kind, slotOf, cmd, init, s, entry)
    requires SubKeyFor(kind, cmd, k, item)
    ensures EntryFor(kind, slotOf, cmd, init + [item], s, Some(Join(entry, s, k, KeyBytes(kind, item))))
  {
    var piece := Piece(slotOf, init, s);
    PieceSnoc(slotOf, init, item, s);
    AllKeyBytesSnoc(kind, piece, item);
    SubKeysSnoc(kind, cmd, if entry.None? then [] else entry.value.keys, piece, k, item);
  }

  lemma OthersKeep(kind: Kind, slotOf: SlotFn, cmd: bytes, init: seq<Item>, item: Item, table: seq<Option<Sub>>,
                   entry: Option<Sub>)
    requires TableFor(kind, slotOf, cmd, init, table)
    requires EntryFor(kind, slotOf, cmd, init + [item], slotOf(item.key), entry)
    ensures TableFor(kind, slotOf, cmd, init + [item], table[slotOf(item.key) := entry])
  {
    forall s | 0 <= s < SLOTS && s != slotOf(item.key)
      ensures EntryFor(kind, slotOf, cmd, init + [item], s, table[s])
    {
      PieceSnoc(slotOf, init, item, s);
      assert Piece(slotOf, init, s) + [] == Piece(slotOf, init, s);
      assert EntryFor(kind, slotOf, cmd, init, s, table[s]);
    }
  }

  /** One key of the first loop: its span, the length uint_len counts and, for MSET, the value scan. */
  method KeyOf(kind: Kind, cmd: bytes, pos: KeyPos, ghost item: Item) returns (k: SubKey, keyBytes: nat)
    requires StandsAt(kind, cmd, pos.start, pos.end, item)
    ensures SubKeyFor(kind, cmd, k, item) && k.start == pos.start && k.end == pos.end
    ensures keyBytes == KeyBytes(kind, item)
  {
    var keyLen := pos.end - pos.start;
    var digits := UintLen(keyLen);
    keyBytes := keyLen + digits;
    if kind.MSet? {
      var remain := RemainLen(cmd, pos.end, item.value, Tail(kind, item));
      k := SubKey(pos.start, pos.end, remain);
      keyBytes := keyBytes + remain;
    } else {
      k := SubKey(pos.start, pos.end, 0);
    }
  }

  predicate SizesFit(items: seq<Item>) {
    && 2 * |items| + 1 < INT_LIMIT
    && forall i :: 0 <= i < |items| ==> |items[i].key| < INT_LIMIT && |items[i].value| < INT_LIMIT
  }

  /** A key joining the table. */
  method GroupKey(kind: Kind, slotOf: SlotFn, cmd: bytes, pos: KeyPos, table: array<Option<Sub>>,
                  ghost init: seq<Item>, ghost item: Item)
    returns (s: nat)
    requires StandsAt(kind, cmd, pos.start, pos.end, item)
    requires TableFor(kind, slotOf, cmd, init, table[..])
    modifies table
    ensures s == slotOf(item.key) && TableFor(kind, slotOf, cmd, init + [item], table[..])
  {
    s := slotOf(cmd[pos.start..pos.end]);
    var k, keyBytes := KeyOf(kind, cmd, pos, item);
    ghost var was := table[..];
    assert EntryFor(kind, slotOf, cmd, init, s, was[s]);
    JoinedFor(kind, slotOf, cmd, init, item, s, table[s], k);
    ghost var entry := Some(Join(table[s], s, k, keyBytes));
    OthersKeep(kind, slotOf, cmd, init, item, was, entry);
    table[s] := Some(Join(table[s], s, k, keyBytes));
    assert table[..] == was[s := entry];
  }

  method NewTable(ghost kind: Kind, ghost slotOf: SlotFn, ghost cmd: bytes) returns (table: array<Option<Sub>>)
    ensures fresh(table) && TableFor(kind, slotOf, cmd, [], table[..])
  {
    table := new Option<Sub>[SLOTS](i => None);
  }

  /** The first loop: every key joins the sub-command of its slot, in order. */
  method GroupKeys(kind: Kind, slotOf: SlotFn, cmd: bytes, keys: seq<KeyPos>, ghost items: seq<Item>)
    returns (table: array<Option<Sub>>, frag: seq<nat>, slotNum: int)
    requires KeysStand(kind, cmd, keys, items)
    ensures fresh(table) && TableFor(kind, slotOf, cmd, items, table[..])
    ensures frag == SlotsOf(slotOf, items)
    ensures slotNum == if items == [] then -1 else slotOf(items[|items| - 1].key)
  {
    ghost var slots := SlotsOf(slotOf, items);
    table := NewTable(kind, slotOf, cmd);
    frag := [];
    slotNum := -1;
    ghost var init: seq<Item> := [];
    for i := 0 to |keys|
      invariant fresh(table) && |keys| == |items| == |slots|
      invariant init == items[..i] && TableFor(kind, slotOf, cmd, init, table[..])
      invariant frag == slots[..i]
      invariant slotNum == if i == 0 then -1 else slots[i - 1]
    {
      KeyStands(kind, slotOf, cmd, keys, items, i, slots);
      slotNum := GroupKey(kind, slotOf, cmd, keys[i], table, init, items[i]);
      frag := frag + [slotNum];
      init := init + [items[i]];
    }
    assert init == items;
  }

  lemma KeyStands(kind: Kind, slotOf: SlotFn, cmd: bytes, keys: seq<KeyPos>, items: seq<Item>, i: nat, slots: seq<nat>)
    requires KeysStand(kind, cmd, keys, items) && i < |keys| && slots == SlotsOf(slotOf, items)
    ensures StandsAt(kind, cmd, keys[i].start, keys[i].end, items[i]) && slotOf(items[i].key) == slots[i]
    ensures items[..i] + [items[i]] == items[..i + 1] && slots[..i] + [slots[i]] == slots[..i + 1]
  {
  }

  // ----- writing one command -----

  /** The number buffer holds a C string. */
  predicate HoldsText(buffer: bytes, t: bytes) {
    |t| < |buffer| && buffer[..|t|] == t && buffer[|t|] == 0 && 0 !in t
  }

  /** hi_itoa into the number buffer, then strlen of it. */
  method PrintNumber(buffer: array<byte>, n: nat, ghost prev: bytes, ghost text: bytes) returns (len: nat)
    requires buffer.Length == 12 && n < INT_LIMIT && prev != [] && (n == 0 ==> HoldsText(buffer[..], prev))
    requires text == Printed(prev, n)
    modifies buffer
    ensures HoldsText(buffer[..], text) && len == |text| && buffer[..len] == text
  {
    ghost var was := buffer[..];
    Itoa(buffer, n);
    if n > 0 {
      assert buffer[..|text| + 1] == text + [0];
      assert buffer[..|text| + 1][..|text|] == text && buffer[..|text| + 1][|text|] == 0;
    } else {
      assert buffer[..|text|] == was[..|text|][0 := 48];
    }
    assert forall k :: 0 <= k < |text| ==> buffer[k] == buffer[..|text|][k];
    len := 0;
    while buffer[len] != 0
      invariant len <= |text|
      decreases |text| - len
    {
      len := len + 1;
    }
  }

  /** "$", the number text and CRLF. */
  method PutLength(out: array<byte>, idx: nat, text: bytes) returns (next: nat)
    requires idx + 3 + |text| <= out.Length
    modifies out
    ensures next == idx + 3 + |text| && out[..next] == old(out[..idx]) + ([36] + text + CRLF)
  {
    ghost var before := out[..idx];
    next := Put(out, idx, [36]);
    next := Put(out, next, text);
    next := Put(out, next, CRLF);
    assert before + [36] + text + CRLF == before + ([36] + text + CRLF);
  }

  /** The key's bytes and what follows them, for MSET copied in one go. */
  method PutBody(kind: Kind, cmd: bytes, k: SubKey, out: array<byte>, idx: nat, ghost item: Item) returns (next: nat)
    requires SubKeyFor(kind, cmd, k, item)
    requires idx + |item.key| + |Tail(kind, item)| <= out.Length
    modifies out
    ensures next == idx + |item.key| + |Tail(kind, item)|
    ensures out[..next] == old(out[..idx]) + (item.key + Tail(kind, item))
  {
    ghost var before := out[..idx];
    if kind.MSet? {
      assert cmd[k.start..k.end + k.remain] == item.key + Tail(kind, item);
      next := Put(out, idx, cmd[k.start..k.end + k.remain]);
    } else {
      next := Put(out, idx, cmd[k.start..k.end]);
      next := Put(out, next, CRLF);
      assert before + item.key + CRLF == before + (item.key + CRLF);
    }
  }

  lemma WrittenInTwo(kind: Kind, before: bytes, text: bytes, item: Item, field: bytes, body: bytes)
    requires field == [36] + text + CRLF && body == item.key + Tail(kind, item)
    ensures before + field + body == before + WrittenItem(kind, text, item)
    ensures |WrittenItem(kind, text, item)| == 3 + |text| + |body|
  {
    assert field + body == WrittenItem(kind, text, item);
    Regroup(before, field, body);
  }

  /** One key of the encoder's loop. */
  method PutKey(kind: Kind, cmd: bytes, k: SubKey, out: array<byte>, idx: nat, buffer: array<byte>,
                ghost prev: bytes, ghost text: bytes, ghost item: Item, ghost written: bytes)
    returns (next: nat)
    requires SubKeyFor(kind, cmd, k, item) && |item.key| < INT_LIMIT
    requires buffer.Length == 12 && prev != [] && HoldsText(buffer[..], prev) && out != buffer
    requires text == Printed(prev, |item.key|) && written == WrittenItem(kind, text, item)
    requires idx + |written| <= out.Length
    modifies out, buffer
    ensures HoldsText(buffer[..], text)
    ensures next == idx + |written| && out[..next] == old(out[..idx]) + written
  {
    ghost var before := out[..idx];
    WrittenInTwo(kind, before, text, item, [36] + text + CRLF, item.key + Tail(kind, item));
    var len := PrintNumber(buffer, k.end - k.start, prev, text);
    next := PutLength(out, idx, buffer[..len]);
    next := PutBody(kind, cmd, k, out, next, item);
  }

  lemma {:induction false} WrittenGrows(kind: Kind, narg: nat, items: seq<Item>, j: nat)
    requires j <= |items|
    ensures |WrittenItems(kind, narg, items[..j])| <= |WrittenItems(kind, narg, items)|
    decreases |items|
  {
    if j == |items| {
      assert items[..j] == items;
    } else {
      var init := items[..|items| - 1];
      assert init[..j] == items[..j];
      WrittenGrows(kind, narg, init, j);
    }
  }

  /** What has been written, and the number text, after the first j keys. */
  ghost predicate WrittenUpTo(kind: Kind, narg: nat, items: seq<Item>, j: nat, header: bytes, sofar: bytes, prev: bytes) {
    && j <= |items|
    && sofar == header + WrittenItems(kind, narg, items[..j])
    && prev == NumberText(narg, items[..j])
  }

  lemma WrittenSnoc(kind: Kind, narg: nat, init: seq<Item>, item: Item, text: bytes)
    requires text == Printed(NumberText(narg, init), |item.key|)
    ensures NumberText(narg, init + [item]) == text
    ensures WrittenItems(kind, narg, init + [item]) == WrittenItems(kind, narg, init) + WrittenItem(kind, text, item)
  {
    var all := init + [item];
    assert all[..|all| - 1] == init && all[|all| - 1] == item;
  }

  /** One more key written. */
  lemma WrittenStep(kind: Kind, narg: nat, items: seq<Item>, j: nat, header: bytes, sofar: bytes, prev: bytes,
                    item: Item, text: bytes, written: bytes)
    requires j < |items| && item == items[j] && WrittenUpTo(kind, narg, items, j, header, sofar, prev)
    requires text == Printed(prev, |item.key|) && written == WrittenItem(kind, text, item)
    ensures WrittenUpTo(kind, narg, items, j + 1, header, sofar + written, text)
  {
    var init, next := items[..j], items[..j + 1];
    assert next == init + [item];
    WrittenSnoc(kind, narg, init, item, text);
    Appended(header, WrittenItems(kind, narg, init), written, sofar, WrittenItems(kind, narg, next));
  }

  lemma WrittenFits(kind: Kind, narg: nat, items: seq<Item>, j: nat, header: bytes, sofar: bytes, prev: bytes)
    requires WrittenUpTo(kind, narg, items, j, header, sofar, prev)
    ensures |sofar| <= |header| + |WrittenItems(kind, narg, items)|
  {
    WrittenGrows(kind, narg, items, j);
  }

  lemma Appended(header: bytes, before: bytes, more: bytes, sofar: bytes, after: bytes)
    requires sofar == header + before && after == before + more
    ensures sofar + more == header + after && |sofar| + |more| == |header| + |after|
  {
  }

  lemma NothingWritten(kind: Kind, narg: nat, items: seq<Item>, header: bytes)
    ensures WrittenUpTo(kind, narg, items, 0, header, header, Decimal(narg))
  {
    assert items[..0] == [] && header + [] == header;
  }

  lemma AllWritten(kind: Kind, narg: nat, items: seq<Item>, header: bytes, sofar: bytes, prev: bytes)
    requires WrittenUpTo(kind, narg, items, |items|, header, sofar, prev)
    ensures sofar == header + WrittenItems(kind, narg, items)
  {
    assert items[..|items|] == items;
  }

  /** One round of the key loop. */
  method PutNext(kind: Kind, cmd: bytes, keys: seq<SubKey>, j: nat, out: array<byte>, idx: nat, buffer: array<byte>,
                 ghost narg: nat, ghost header: bytes, ghost items: seq<Item>, ghost sofar: bytes, ghost prev: bytes)
    returns (next: nat, ghost after: bytes, ghost text: bytes)
    requires SubKeysFor(kind, cmd, keys, items) && SizesFit(items) && j < |items|
    requires buffer.Length == 12 && HoldsText(buffer[..], prev) && out != buffer && prev != []
    requires WrittenUpTo(kind, narg, items, j, header, sofar, prev)
    requires |header| + |WrittenItems(kind, narg, items)| <= out.Length
    requires idx == |sofar| <= out.Length && out[..idx] == sofar
    modifies out, buffer
    ensures text != [] && HoldsText(buffer[..], text)
    ensures WrittenUpTo(kind, narg, items, j + 1, header, after, text)
    ensures next == |after| <= out.Length && out[..next] == after
  {
    ghost var item := items[j];
    text := Printed(prev, |item.key|);
    ghost var written := WrittenItem(kind, text, item);
    WrittenStep(kind, narg, items, j, header, sofar, prev, item, text, written);
    WrittenFits(kind, narg, items, j + 1, header, sofar + written, text);
    next := PutKey(kind, cmd, keys[j], out, idx, buffer, prev, text, item, written);
    after := sofar + written;
  }

  /** The key loop: what is written is WrittenItems, whatever the keys. */
  method PutKeys(kind: Kind, cmd: bytes, keys: seq<SubKey>, out: array<byte>, start: nat, buffer: array<byte>,
                 ghost narg: nat, ghost header: bytes, ghost items: seq<Item>, ghost all: bytes)
    returns (idx: nat)
    requires SubKeysFor(kind, cmd, keys, items) && SizesFit(items)
    requires buffer.Length == 12 && HoldsText(buffer[..], Decimal(narg)) && out != buffer
    requires all == header + WrittenItems(kind, narg, items)
    requires |all| <= out.Length && start == |header| && out[..start] == header
    modifies out, buffer
    ensures idx == |all| && out[..idx] == all
  {
    idx := start;
    ghost var prev, sofar := Decimal(narg), header;
    NothingWritten(kind, narg, items, header);
    for j := 0 to |keys|
      invariant WrittenUpTo(kind, narg, items, j, header, sofar, prev) && prev != []
      invariant HoldsText(buffer[..], prev)
      invariant idx == |sofar| <= out.Length && out[..idx] == sofar
    {
      idx, sofar, prev := PutNext(kind, cmd, keys, j, out, idx, buffer, narg, header, items, sofar, prev);
    }
    AllWritten(kind, narg, items, header, sofar, prev);
  }

  /** The count and the verb. */
  method PutHeader(kind: Kind, out: array<byte>, text: bytes) returns (idx: nat)
    requires 1 + |text| + |VerbText(kind)| <= out.Length
    modifies out
    ensures idx == 1 + |text| + |VerbText(kind)| && out[..idx] == [42] + text + VerbText(kind)
  {
    idx := Put(out, 0, [42]);
    idx := Put(out, idx, text);
    idx := Put(out, idx, VerbText(kind));
  }

  lemma WrittenIsCommand(kind: Kind, items: seq<Item>, narg: nat, header: bytes)
    requires NoStaleText(Narg(kind, |items|), items)
    requires narg == Narg(kind, |items|) && header == [42] + Decimal(narg) + VerbText(kind)
    ensures var cmd := FormatCommand(Argv(kind, VerbOf(kind), items));
            && cmd == header + WrittenItems(kind, narg, items)
            && |cmd| == CompleteLength(kind, AllKeyBytes(kind, items), |items|)
  {
    EncodingIsExact(kind, items);
  }

  /** The buffer of the completed length, and the three writes that fill it. */
  method EncodeInto(kind: Kind, cmd: bytes, keys: seq<SubKey>, clen: nat, narg: nat, ghost items: seq<Item>,
                    ghost header: bytes, ghost all: bytes)
    returns (out: array<byte>)
    requires SubKeysFor(kind, cmd, keys, items) && SizesFit(items) && 0 < narg < INT_LIMIT
    requires header == [42] + Decimal(narg) + VerbText(kind)
    requires all == header + WrittenItems(kind, narg, items)
    requires |all| == clen + 1 + |VerbText(kind)| + |Decimal(narg)|
    ensures fresh(out) && out[..] == all
  {
    var buffer := new byte[12](i => 0);
    var len := PrintNumber(buffer, narg, [48], Decimal(narg));
    out := new byte[clen + 1 + |VerbText(kind)| + len](i => 0);
    var idx := PutHeader(kind, out, buffer[..len]);
    idx := PutKeys(kind, cmd, keys, out, idx, buffer, narg, header, items, all);
    assert out[..idx] == out[..];
  }

  /**
   One slot's command. The buffer has the pre-computed length; without stale number text it is filled
   exactly, with what the formatter would write for the lower-case verb and the slot's arguments.
   */
  method EncodeSub(kind: Kind, cmd: bytes, sub: Sub, ghost items: seq<Item>) returns (out: array<byte>)
    requires SubFor(kind, cmd, sub, items) && SizesFit(items)
    requires NoStaleText(Narg(kind, |items|), items)
    ensures fresh(out) && out[..] == FormatCommand(Argv(kind, VerbOf(kind), items))
  {
    var clen := sub.clen + (if kind.MSet? then 3 else 5) * sub.narg;
    var narg := if kind.MSet? then 2 * sub.narg + 1 else sub.narg + 1;
    ghost var header := [42] + Decimal(narg) + VerbText(kind);
    WrittenIsCommand(kind, items, narg, header);
    out := EncodeInto(kind, cmd, sub.keys, clen, narg, items, header, FormatCommand(Argv(kind, VerbOf(kind), items)));
  }

  // ----- the whole split -----

  /** The command of a slot that has items. */
  function CommandOf(kind: Kind, slotOf: SlotFn, items: seq<Item>): nat -> Option<Encoded> {
    (s: nat) =>
      var piece := Piece(slotOf, items, s);
      if piece == [] then None else Some(Encoded(s, FormatCommand(Argv(kind, VerbOf(kind), piece))))
  }

  /** No slot's command meets stale number text. */
  ghost predicate NeverStale(kind: Kind, slotOf: SlotFn, items: seq<Item>) {
    forall s: nat :: NoStaleText(Narg(kind, |Piece(slotOf, items, s)|), Piece(slotOf, items, s))
  }

  lemma {:induction false} PieceSizes(slotOf: SlotFn, items: seq<Item>, s: nat)
    requires SizesFit(items)
    ensures SizesFit(Piece(slotOf, items, s)) && |Piece(slotOf, items, s)| <= |items|
    ensures (forall i :: 0 <= i < |items| ==> items[i].key != []) ==>
              forall i :: 0 <= i < |Piece(slotOf, items, s)| ==> Piece(slotOf, items, s)[i].key != []
  {
    if items != [] { PieceSizes(slotOf, items[..|items| - 1], s); }
  }

  /** Non-empty keys never meet stale number text. */
  lemma NonEmptyKeysNeverStale(kind: Kind, slotOf: SlotFn, items: seq<Item>)
    requires SizesFit(items) && forall i :: 0 <= i < |items| ==> items[i].key != []
    ensures NeverStale(kind, slotOf, items)
  {
    forall s: nat ensures NoStaleText(Narg(kind, |Piece(slotOf, items, s)|), Piece(slotOf, items, s)) {
      PieceSizes(slotOf, items, s);
    }
  }

  /** One slot of the second loop. */
  method EncodeEntry(kind: Kind, ghost slotOf: SlotFn, cmd: bytes, ghost items: seq<Item>, s: nat, entry: Option<Sub>,
                     ghost f: nat -> Option<Encoded>)
    returns (e: Option<Encoded>)
    requires EntryFor(kind, slotOf, cmd, items, s, entry)
    requires SizesFit(items) && NeverStale(kind, slotOf, items) && f == CommandOf(kind, slotOf, items)
    ensures e == f(s)
  {
    if entry.None? { return None; }
    ghost var piece := Piece(slotOf, items, s);
    PieceSizes(slotOf, items, s);
    var out := EncodeSub(kind, cmd, entry.value, piece);
    e := Some(Encoded(s, out[..]));
  }

  /** The second loop: one command per slot with keys, in slot order. */
  method EncodeTable(kind: Kind, ghost slotOf: SlotFn, cmd: bytes, ghost items: seq<Item>, table: array<Option<Sub>>,
                     ghost f: nat -> Option<Encoded>)
    returns (commands: seq<Encoded>)
    requires forall s :: 0 <= s < table.Length ==> EntryFor(kind, slotOf, cmd, items, s, table[s])
    requires SizesFit(items) && NeverStale(kind, slotOf, items) && f == CommandOf(kind, slotOf, items)
    ensures commands == Gather(f, table.Length)
  {
    commands := [];
    for s := 0 to table.Length
      invariant commands == Gather(f, s)
    {
      var e := EncodeEntry(kind, slotOf, cmd, items, s, table[s], f);
      if e.Some? { commands := commands + [e.value]; }
    }
  }

  /**
   command_pre_fragment. With several slots: one command per slot, each exactly the formatter's text
   for that slot's items, and every key's slot. With one slot: nothing to split.
   */
  method PreFragment(kind: Kind, slotOf: SlotFn, cmd: bytes, keys: seq<KeyPos>, ghost items: seq<Item>)
    returns (commands: seq<Encoded>, frag: Option<seq<nat>>, slotNum: int)
    requires KeysStand(kind, cmd, keys, items) && SizesFit(items) && NeverStale(kind, slotOf, items)
    ensures slotNum == if items == [] then -1 else slotOf(items[|items| - 1].key)
    ensures var all := Gather(CommandOf(kind, slotOf, items), SLOTS);
            if |all| == 1 then commands == [] && frag == None
            else commands == all && frag == Some(SlotsOf(slotOf, items))
  {
    var table, seqOf, last := GroupKeys(kind, slotOf, cmd, keys, items);
    slotNum := last;
    frag := Some(seqOf);
    ghost var f := CommandOf(kind, slotOf, items);
    assert forall s :: 0 <= s < table.Length ==> table[..][s] == table[s];
    commands := EncodeTable(kind, slotOf, cmd, items, table, f);
    if items == [] { GatheredNone(f, SLOTS); }
    if slotNum >= 0 && |commands| == 1 {
      commands, frag := [], None;
    }
  }

  lemma {:induction false} GatheredOne<T>(f: nat -> Option<T>, n: nat, t: nat)
    requires t < n && f(t).Some?
    ensures |Gather(f, n)| >= 1
    ensures |Gather(f, n)| == 1 <==> forall s: nat :: s < n && s != t ==> f(s).None?
  {
    if t < n - 1 {
      GatheredOne(f, n - 1, t);
    } else {
      GatheredNone(f, n - 1);
    }
  }

  lemma {:induction false} GatheredNone<T>(f: nat -> Option<T>, n: nat)
    ensures Gather(f, n) == [] <==> forall s: nat :: s < n ==> f(s).None?
  {
    if n > 0 { GatheredNone(f, n - 1); }
  }

  /** The slots that get a command are those of the items' keys. */
  lemma SlotHasCommand(kind: Kind, slotOf: SlotFn, items: seq<Item>, i: nat)
    requires i < |items|
    ensures CommandOf(kind, slotOf, items)(slotOf(items[i].key)).Some?
  {
    var k := items[i].key;
    assert HasKey(items, k);
    PieceHasKey(slotOf, items, slotOf(k), k);
  }

  lemma CommandHasSlot(kind: Kind, slotOf: SlotFn, items: seq<Item>, s: nat) returns (i: nat)
    requires CommandOf(kind, slotOf, items)(s).Some?
    ensures i < |items| && slotOf(items[i].key) == s
  {
    var k := Piece(slotOf, items, s)[0].key;
    assert HasKey(Piece(slotOf, items, s), k);
    PieceHasKey(slotOf, items, s, k);
    i :| 0 <= i < |items| && items[i].key == k;
  }

  /** The split is given up exactly when all keys share one slot, the one the command is then sent to. */
  lemma OneSlotNeedsNoSplit(kind: Kind, slotOf: SlotFn, items: seq<Item>, f: nat -> Option<Encoded>, t: nat, slots: nat)
    requires items != [] && f == CommandOf(kind, slotOf, items) && t == slotOf(items[|items| - 1].key)
    requires forall i :: 0 <= i < |items| ==> slotOf(items[i].key) < slots
    ensures |Gather(f, slots)| == 1 <==> forall i :: 0 <= i < |items| ==> slotOf(items[i].key) == t
  {
    SlotHasCommand(kind, slotOf, items, |items| - 1);
    GatheredOne(f, slots, t);
    forall i | 0 <= i < |items| ensures f(slotOf(items[i].key)).Some? {
      SlotHasCommand(kind, slotOf, items, i);
    }
    forall s: nat | f(s).Some? ensures exists i :: 0 <= i < |items| && slotOf(items[i].key) == s {
      var i := CommandHasSlot(kind, slotOf, items, s);
    }
  }
}
