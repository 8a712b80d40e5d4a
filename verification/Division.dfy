/** Division of a 16-bit remainder by the CRC polynomial, bit by bit and byte by byte through a table. */
module Division {
  /** One bit of division by x^16 + x^12 + x^5 + 1: shift, and subtract the divisor when the top bit falls out. */
  function Shift(crc: bv16): bv16 { if crc & 0x8000 != 0 then (crc << 1) ^ 0x1021 else crc << 1 }

  /** A step taken n times. */
  function Times(step: bv16 -> bv16, x: bv16, n: nat): bv16
    decreases n
  {
    if n == 0 then x else Times(step, step(x), n - 1)
  }

  // ----- the table -----

  function Row0(j: bv8): bv16 {
    if j == 0 then 0x0000 else if j == 1 then 0x1021 else if j == 2 then 0x2042 else if j == 3 then 0x3063
    else if j == 4 then 0x4084 else if j == 5 then 0x50a5 else if j == 6 then 0x60c6 else if j == 7 then 0x70e7
    else if j == 8 then 0x8108 else if j == 9 then 0x9129 else if j == 10 then 0xa14a else if j == 11 then 0xb16b
    else if j == 12 then 0xc18c else if j == 13 then 0xd1ad else if j == 14 then 0xe1ce else 0xf1ef
  }

  function Row1(j: bv8): bv16 {
    if j == 0 then 0x1231 else if j == 1 then 0x0210 else if j == 2 then 0x3273 else if j == 3 then 0x2252
    else if j == 4 then 0x52b5 else if j == 5 then 0x4294 else if j == 6 then 0x72f7 else if j == 7 then 0x62d6
    else if j == 8 then 0x9339 else if j == 9 then 0x8318 else if j == 10 then 0xb37b else if j == 11 then 0xa35a
    else if j == 12 then 0xd3bd else if j == 13 then 0xc39c else if j == 14 then 0xf3ff else 0xe3de
  }

  function Row2(j: bv8): bv16 {
    if j == 0 then 0x2462 else if j == 1 then 0x3443 else if j == 2 then 0x0420 else if j == 3 then 0x1401
    else if j == 4 then 0x64e6 else if j == 5 then 0x74c7 else if j == 6 then 0x44a4 else if j == 7 then 0x5485
    else if j == 8 then 0xa56a else if j == 9 then 0xb54b else if j == 10 then 0x8528 else if j == 11 then 0x9509
    else if j == 12 then 0xe5ee else if j == 13 then 0xf5cf else if j == 14 then 0xc5ac else 0xd58d
  }

  function Row3(j: bv8): bv16 {
    if j == 0 then 0x3653 else if j == 1 then 0x2672 else if j == 2 then 0x1611 else if j == 3 then 0x0630
    else if j == 4 then 0x76d7 else if j == 5 then 0x66f6 else if j == 6 then 0x5695 else if j == 7 then 0x46b4
    else if j == 8 then 0xb75b else if j == 9 then 0xa77a else if j == 10 then 0x9719 else if j == 11 then 0x8738
    else if j == 12 then 0xf7df else if j == 13 then 0xe7fe else if j == 14 then 0xd79d else 0xc7bc
  }

  function Row4(j: bv8): bv16 {
    if j == 0 then 0x48c4 else if j == 1 then 0x58e5 else if j == 2 then 0x6886 else if j == 3 then 0x78a7
    else if j == 4 then 0x0840 else if j == 5 then 0x1861 else if j == 6 then 0x2802 else if j == 7 then 0x3823
    else if j == 8 then 0xc9cc else if j == 9 then 0xd9ed else if j == 10 then 0xe98e else if j == 11 then 0xf9af
    else if j == 12 then 0x8948 else if j == 13 then 0x9969 else if j == 14 then 0xa90a else 0xb92b
  }

  function Row5(j: bv8): bv16 {
    if j == 0 then 0x5af5 else if j == 1 then 0x4ad4 else if j == 2 then 0x7ab7 else if j == 3 then 0x6a96
    else if j == 4 then 0x1a71 else if j == 5 then 0x0a50 else if j == 6 then 0x3a33 else if j == 7 then 0x2a12
    else if j == 8 then 0xdbfd else if j == 9 then 0xcbdc else if j == 10 then 0xfbbf else if j == 11 then 0xeb9e
    else if j == 12 then 0x9b79 else if j == 13 then 0x8b58 else if j == 14 then 0xbb3b else 0xab1a
  }

  function Row6(j: bv8): bv16 {
    if j == 0 then 0x6ca6 else if j == 1 then 0x7c87 else if j == 2 then 0x4ce4 else if j == 3 then 0x5cc5
    else if j == 4 then 0x2c22 else if j == 5 then 0x3c03 else if j == 6 then 0x0c60 else if j == 7 then 0x1c41
    else if j == 8 then 0xedae else if j == 9 then 0xfd8f else if j == 10 then 0xcdec else if j == 11 then 0xddcd
    else if j == 12 then 0xad2a else if j == 13 then 0xbd0b else if j == 14 then 0x8d68 else 0x9d49
  }

  function Row7(j: bv8): bv16 {
    if j == 0 then 0x7e97 else if j == 1 then 0x6eb6 else if j == 2 then 0x5ed5 else if j == 3 then 0x4ef4
    else if j == 4 then 0x3e13 else if j == 5 then 0x2e32 else if j == 6 then 0x1e51 else if j == 7 then 0x0e70
    else if j == 8 then 0xff9f else if j == 9 then 0xefbe else if j == 10 then 0xdfdd else if j == 11 then 0xcffc
    else if j == 12 then 0xbf1b else if j == 13 then 0xaf3a else if j == 14 then 0x9f59 else 0x8f78
  }

  function Row8(j: bv8): bv16 {
    if j == 0 then 0x9188 else if j == 1 then 0x81a9 else if j == 2 then 0xb1ca else if j == 3 then 0xa1eb
    else if j == 4 then 0xd10c else if j == 5 then 0xc12d else if j == 6 then 0xf14e else if j == 7 then 0xe16f
    else if j == 8 then 0x1080 else if j == 9 then 0x00a1 else if j == 10 then 0x30c2 else if j == 11 then 0x20e3
    else if j == 12 then 0x5004 else if j == 13 then 0x4025 else if j == 14 then 0x7046 else 0x6067
  }

  function Row9(j: bv8): bv16 {
    if j == 0 then 0x83b9 else if j == 1 then 0x9398 else if j == 2 then 0xa3fb else if j == 3 then 0xb3da
    else if j == 4 then 0xc33d else if j == 5 then 0xd31c else if j == 6 then 0xe37f else if j == 7 then 0xf35e
    else if j == 8 then 0x02b1 else if j == 9 then 0x1290 else if j == 10 then 0x22f3 else if j == 11 then 0x32d2
    else if j == 12 then 0x4235 else if j == 13 then 0x5214 else if j == 14 then 0x6277 else 0x7256
  }

  function Row10(j: bv8): bv16 {
    if j == 0 then 0xb5ea else if j == 1 then 0xa5cb else if j == 2 then 0x95a8 else if j == 3 then 0x8589
    else if j == 4 then 0xf56e else if j == 5 then 0xe54f else if j == 6 then 0xd52c else if j == 7 then 0xc50d
    else if j == 8 then 0x34e2 else if j == 9 then 0x24c3 else if j == 10 then 0x14a0 else if j == 11 then 0x0481
    else if j == 12 then 0x7466 else if j == 13 then 0x6447 else if j == 14 then 0x5424 else 0x4405
  }

  function Row11(j: bv8): bv16 {
    if j == 0 then 0xa7db else if j == 1 then 0xb7fa else if j == 2 then 0x8799 else if j == 3 then 0x97b8
    else if j == 4 then 0xe75f else if j == 5 then 0xf77e else if j == 6 then 0xc71d else if j == 7 then 0xd73c
    else if j == 8 then 0x26d3 else if j == 9 then 0x36f2 else if j == 10 then 0x0691 else if j == 11 then 0x16b0
    else if j == 12 then 0x6657 else if j == 13 then 0x7676 else if j == 14 then 0x4615 else 0x5634
  }

  function Row12(j: bv8): bv16 {
    if j == 0 then 0xd94c else if j == 1 then 0xc96d else if j == 2 then 0xf90e else if j == 3 then 0xe92f
    else if j == 4 then 0x99c8 else if j == 5 then 0x89e9 else if j == 6 then 0xb98a else if j == 7 then 0xa9ab
    else if j == 8 then 0x5844 else if j == 9 then 0x4865 else if j == 10 then 0x7806 else if j == 11 then 0x6827
    else if j == 12 then 0x18c0 else if j == 13 then 0x08e1 else if j == 14 then 0x3882 else 0x28a3
  }

  function Row13(j: bv8): bv16 {
    if j == 0 then 0xcb7d else if j == 1 then 0xdb5c else if j == 2 then 0xeb3f else if j == 3 then 0xfb1e
    else if j == 4 then 0x8bf9 else if j == 5 then 0x9bd8 else if j == 6 then 0xabbb else if j == 7 then 0xbb9a
    else if j == 8 then 0x4a75 else if j == 9 then 0x5a54 else if j == 10 then 0x6a37 else if j == 11 then 0x7a16
    else if j == 12 then 0x0af1 else if j == 13 then 0x1ad0 else if j == 14 then 0x2ab3 else 0x3a92
  }

  function Row14(j: bv8): bv16 {
    if j == 0 then 0xfd2e else if j == 1 then 0xed0f else if j == 2 then 0xdd6c else if j == 3 then 0xcd4d
    else if j == 4 then 0xbdaa else if j == 5 then 0xad8b else if j == 6 then 0x9de8 else if j == 7 then 0x8dc9
    else if j == 8 then 0x7c26 else if j == 9 then 0x6c07 else if j == 10 then 0x5c64 else if j == 11 then 0x4c45
    else if j == 12 then 0x3ca2 else if j == 13 then 0x2c83 else if j == 14 then 0x1ce0 else 0x0cc1
  }

  function Row15(j: bv8): bv16 {
    if j == 0 then 0xef1f else if j == 1 then 0xff3e else if j == 2 then 0xcf5d else if j == 3 then 0xdf7c
    else if j == 4 then 0xaf9b else if j == 5 then 0xbfba else if j == 6 then 0x8fd9 else if j == 7 then 0x9ff8
    else if j == 8 then 0x6e17 else if j == 9 then 0x7e36 else if j == 10 then 0x4e55 else if j == 11 then 0x5e74
    else if j == 12 then 0x2e93 else if j == 13 then 0x3eb2 else if j == 14 then 0x0ed1 else 0x1ef0
  }

  /** The 256-entry table, sixteen entries to a row. */
  function Table(i: bv8): bv16 {
    var h, j := i >> 4, i & 0x0F;
    if h == 0 then Row0(j) else if h == 1 then Row1(j) else if h == 2 then Row2(j) else if h == 3 then Row3(j)
    else if h == 4 then Row4(j) else if h == 5 then Row5(j) else if h == 6 then Row6(j) else if h == 7 then Row7(j)
    else if h == 8 then Row8(j) else if h == 9 then Row9(j) else if h == 10 then Row10(j) else if h == 11 then Row11(j)
    else if h == 12 then Row12(j) else if h == 13 then Row13(j) else if h == 14 then Row14(j) else Row15(j)
  }

  /** The step of a division, eight times over. */
  function Shift8(x: bv16): bv16 { Shift(Shift(Shift(Shift(Shift(Shift(Shift(Shift(x)))))))) }

  lemma TableEntryDivides(i: bv8, x: bv16)
    requires x == (i as bv16) << 8
    ensures Table(i) == Shift8(x)
  {
  }

  lemma EightTimes(step: bv16 -> bv16, x: bv16)
    ensures Times(step, x, 8) == step(step(step(step(step(step(step(step(x))))))))
  {
  }

  // ----- any division and its table -----

  /** Addition is exclusive or. */
  predicate Sum(x: bv16, y: bv16, z: bv16) { z == x ^ y }

  /** A value without top bit, moved by one. */
  predicate Moves(y: bv16, m: bv16) { y < 0x8000 && m == y << 1 }

  /** A byte at the top of a remainder. */
  predicate AtTop(i: bv8, x: bv16) { x == (i as bv16) << 8 }

  /** A step of division respects addition and just moves what has no top bit. */
  ghost predicate Linear(step: bv16 -> bv16) {
    && (forall x, y, z :: Sum(x, y, z) ==> Sum(step(x), step(y), step(z)))
    && (forall y, m :: Moves(y, m) ==> step(y) == m)
  }

  /** Each entry is the remainder of its index. */
  ghost predicate Tabulates(table: bv8 -> bv16, step: bv16 -> bv16) {
    forall i, x :: AtTop(i, x) ==> table(i) == Times(step, x, 8)
  }

  // That one step respects addition, by which of the two top bits are set.

  predicate Top(x: bv16) { x & 0x8000 != 0 }

  lemma TopAdds(x: bv16, y: bv16, z: bv16)
    requires z == x ^ y
    ensures Top(z) == (Top(x) != Top(y))
  {
  }

  lemma ShiftByTop(x: bv16, a: bv16)
    requires a == Shift(x)
    ensures a == if Top(x) then (x << 1) ^ 0x1021 else x << 1
  {
  }

  lemma NeitherTop(x: bv16, y: bv16, z: bv16, a: bv16, b: bv16, c: bv16)
    requires z == x ^ y && a == x << 1 && b == y << 1 && c == z << 1
    ensures c == a ^ b
  {
  }

  lemma FirstTop(x: bv16, y: bv16, z: bv16, a: bv16, b: bv16, c: bv16)
    requires z == x ^ y && a == (x << 1) ^ 0x1021 && b == y << 1 && c == (z << 1) ^ 0x1021
    ensures c == a ^ b
  {
  }

  lemma SecondTop(x: bv16, y: bv16, z: bv16, a: bv16, b: bv16, c: bv16)
    requires z == x ^ y && a == x << 1 && b == (y << 1) ^ 0x1021 && c == (z << 1) ^ 0x1021
    ensures c == a ^ b
  {
  }

  lemma BothTop(x: bv16, y: bv16, z: bv16, a: bv16, b: bv16, c: bv16)
    requires z == x ^ y && a == (x << 1) ^ 0x1021 && b == (y << 1) ^ 0x1021 && c == z << 1
    ensures c == a ^ b
  {
  }

  lemma AddsNeither(x: bv16, y: bv16, z: bv16, a: bv16, b: bv16, c: bv16)
    requires z == x ^ y && a == Shift(x) && b == Shift(y) && c == Shift(z) && !Top(x) && !Top(y)
    ensures c == a ^ b
  {
    TopAdds(x, y, z);
    ShiftByTop(x, a);
    ShiftByTop(y, b);
    ShiftByTop(z, c);
    NeitherTop(x, y, z, a, b, c);
  }

  lemma AddsFirst(x: bv16, y: bv16, z: bv16, a: bv16, b: bv16, c: bv16)
    requires z == x ^ y && a == Shift(x) && b == Shift(y) && c == Shift(z) && Top(x) && !Top(y)
    ensures c == a ^ b
  {
    TopAdds(x, y, z);
    ShiftByTop(x, a);
    ShiftByTop(y, b);
    ShiftByTop(z, c);
    FirstTop(x, y, z, a, b, c);
  }

  lemma AddsSecond(x: bv16, y: bv16, z: bv16, a: bv16, b: bv16, c: bv16)
    requires z == x ^ y && a == Shift(x) && b == Shift(y) && c == Shift(z) && !Top(x) && Top(y)
    ensures c == a ^ b
  {
    TopAdds(x, y, z);
    ShiftByTop(x, a);
    ShiftByTop(y, b);
    ShiftByTop(z, c);
    SecondTop(x, y, z, a, b, c);
  }

  lemma AddsBoth(x: bv16, y: bv16, z: bv16, a: bv16, b: bv16, c: bv16)
    requires z == x ^ y && a == Shift(x) && b == Shift(y) && c == Shift(z) && Top(x) && Top(y)
    ensures c == a ^ b
  {
    TopAdds(x, y, z);
    ShiftByTop(x, a);
    ShiftByTop(y, b);
    ShiftByTop(z, c);
    BothTop(x, y, z, a, b, c);
  }

  lemma ShiftAdds(x: bv16, y: bv16, z: bv16, a: bv16, b: bv16, c: bv16)
    requires z == x ^ y && a == Shift(x) && b == Shift(y) && c == Shift(z)
    ensures c == a ^ b
  {
    if Top(x) {
      if Top(y) { AddsBoth(x, y, z, a, b, c); } else { AddsFirst(x, y, z, a, b, c); }
    } else {
      if Top(y) { AddsSecond(x, y, z, a, b, c); } else { AddsNeither(x, y, z, a, b, c); }
    }
  }

  lemma ShiftMoves(y: bv16, m: bv16)
    requires Moves(y, m)
    ensures Shift(y) == m
  {
  }

  lemma ShiftIsLinear()
    ensures Linear(Shift)
  {
    forall x, y, z | Sum(x, y, z) ensures Sum(Shift(x), Shift(y), Shift(z)) {
      ShiftAdds(x, y, z, Shift(x), Shift(y), Shift(z));
    }
    forall y, m | Moves(y, m) ensures Shift(y) == m { ShiftMoves(y, m); }
  }

  lemma TableTabulates()
    ensures Tabulates(Table, Shift)
  {
    forall i, x | AtTop(i, x) ensures Table(i) == Times(Shift, x, 8) {
      TableEntryDivides(i, x);
      EightTimes(Shift, x);
    }
  }

  /** Room for n moves before the top bit falls out, and the value moved. */
  predicate Room(l: bv16, n: nat)
    decreases n
  {
    n == 0 || (l < 0x8000 && Room(l << 1, n - 1))
  }

  function Moved(l: bv16, n: nat): bv16
    decreases n
  {
    if n == 0 then l else Moved(l << 1, n - 1)
  }

  lemma LowByteMoves(l: bv16)
    requires l <= 0x00FF
    ensures Room(l, 8) && Moved(l, 8) == l << 8
  {
  }

  lemma StepApart(step: bv16 -> bv16, x: bv16, high: bv16, low: bv16, moved: bv16)
    requires Linear(step) && Sum(high, low, x) && Moves(low, moved)
    ensures Sum(step(high), moved, step(x))
  {
  }

  lemma RoomMoves(low: bv16, n: nat)
    requires n > 0 && Room(low, n)
    ensures Moves(low, low << 1) && Room(low << 1, n - 1) && Moved(low, n) == Moved(low << 1, n - 1)
  {
  }

  /** What has room just moves, while the rest is divided. */
  lemma {:induction false} DivideApart(step: bv16 -> bv16, x: bv16, high: bv16, low: bv16, n: nat)
    requires Linear(step) && Sum(high, low, x) && Room(low, n)
    ensures Sum(Times(step, high, n), Moved(low, n), Times(step, x, n))
    decreases n
  {
    if n > 0 {
      RoomMoves(low, n);
      StepApart(step, x, high, low, low << 1);
      DivideApart(step, step(x), step(high), low << 1, n - 1);
    }
  }

  /** A message byte added at the top of the remainder and divided away in eight steps. */
  function FeedByte(step: bv16 -> bv16, crc: bv16, b: bv8): bv16 { Times(step, crc ^ ((b as bv16) << 8), 8) }

  /** The index the loop body uses is the high byte with the message byte added; the low byte is left. */
  lemma StepParts(crc: bv16, b: bv8, x: bv16, i: bv8, high: bv16, low: bv16)
    requires x == crc ^ ((b as bv16) << 8) && i == (((crc >> 8) ^ (b as bv16)) & 0x00FF) as bv8
    requires high == (i as bv16) << 8 && low == crc & 0x00FF
    ensures AtTop(i, high) && Sum(high, low, x) && low <= 0x00FF && low << 8 == crc << 8
  {
  }

  lemma Swap(x: bv16, y: bv16)
    ensures x ^ y == y ^ x
  {
  }

  /** Eight bits of division: the high byte is looked up, the low byte moves up. */
  lemma DividedTogether(table: bv8 -> bv16, step: bv16 -> bv16, x: bv16, i: bv8, high: bv16, low: bv16, up: bv16, t: bv16)
    requires Linear(step) && Tabulates(table, step) && AtTop(i, high) && Sum(high, low, x)
    requires Room(low, 8) && up == Moved(low, 8) && t == table(i)
    ensures Sum(t, up, Times(step, x, 8))
  {
    DivideApart(step, x, high, low, 8);
    assert t == Times(step, high, 8);
  }

  /** The loop body of crc16. */
  method TableStep(table: bv8 -> bv16, ghost step: bv16 -> bv16, crc: bv16, b: bv8) returns (next: bv16)
    requires Linear(step) && Tabulates(table, step)
    ensures next == FeedByte(step, crc, b)
  {
    var i := (((crc >> 8) ^ (b as bv16)) & 0x00FF) as bv8;
    ghost var x, high, low := crc ^ ((b as bv16) << 8), (i as bv16) << 8, crc & 0x00FF;
    StepParts(crc, b, x, i, high, low);
    LowByteMoves(low);
    DividedTogether(table, step, x, i, high, low, low << 8, table(i));
    Swap(crc << 8, table(i));
    next := (crc << 8) ^ table(i);
  }
}
