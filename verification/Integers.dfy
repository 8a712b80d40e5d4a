/** Integer text: the strict 64-bit reader of the protocol parser and the four digit writers. */
module Integers {
  import opened Bytes

  const LLONG_MAX: int := 0x7fff_ffff_ffff_ffff
  const LLONG_MIN: int := -0x8000_0000_0000_0000
  const ULLONG_MAX: int := 0xffff_ffff_ffff_ffff

  predicate InLongLong(v: int) { LLONG_MIN <= v <= LLONG_MAX }

  /** The one text of an integer: "%d" with a sign only when negative. */
  function Text(v: int): (s: bytes)
    ensures |s| >= 1
    ensures v >= 0 ==> AllDigits(s)
  {
    if v < 0 then [MINUS] + Decimal(-v) else Decimal(v)
  }

  /** Digits without a leading zero, the only digit run string2ll accepts besides "0". */
  predicate Canonical(s: bytes) {
    |s| >= 1 && AllDigits(s) && s[0] != 48
  }

  /** The integer a strict text denotes, or None. */
  function ParseLongLong(s: bytes): Option<int> {
    if s == [48] then Some(0)
    else if |s| >= 1 && s[0] == MINUS then
      if Canonical(s[1..]) && Value(s[1..]) <= LLONG_MAX + 1 then Some(0 - Value(s[1..])) else None
    else if Canonical(s) && Value(s) <= LLONG_MAX then Some(Value(s)) else None
  }

  lemma TextParses(v: int)
    requires InLongLong(v)
    ensures ParseLongLong(Text(v)) == Some(v)
  {
    var s := Text(v);
    var d := Decimal(if v < 0 then -v else v);
    ValueOfDecimal(if v < 0 then -v else v);
    if v < 0 {
      assert s[0] == MINUS && s[1..] == d;
      assert Canonical(d);
    } else {
      assert s == d && IsDigit(d[0]);
      if v == 0 { assert d == [48]; } else { assert Canonical(d); }
    }
  }

  lemma ParsedIsText(s: bytes)
    requires ParseLongLong(s).Some?
    ensures InLongLong(ParseLongLong(s).value) && s == Text(ParseLongLong(s).value)
  {
    if s == [48] {
      assert Decimal(0) == [48];
    } else if s[0] == MINUS {
      DecimalOfValue(s[1..]);
      assert s == [MINUS] + s[1..];
    } else {
      DecimalOfValue(s);
    }
  }

  /** Strict parsing and printing are inverse: nothing but the printed text of a 64-bit value is accepted. */
  lemma ParseIsInverseOfText(s: bytes, v: int)
    ensures ParseLongLong(s) == Some(v) <==> InLongLong(v) && s == Text(v)
  {
    if ParseLongLong(s) == Some(v) { ParsedIsText(s); }
    if InLongLong(v) && s == Text(v) { TextParses(v); }
  }

  /** Once a digit prefix is past a bound, the whole text is rejected. */
  lemma PrefixTooLarge(digits: bytes, i: nat, bound: nat)
    requires i <= |digits| && AllDigits(digits[..i]) && Value(digits[..i]) > bound
    ensures !(AllDigits(digits) && Value(digits) <= bound)
  {
    if AllDigits(digits) { ValueGrows(digits, i); }
  }

  /** The digit loop of string2ll with its unsigned 64-bit overflow guards. */
  method DigitRun(s: bytes, start: nat) returns (v: int, plen: nat, overflow: bool)
    requires start < |s| && 49 <= s[start] <= 57
    ensures start <= plen <= |s|
    ensures overflow ==> !(AllDigits(s[start..]) && Value(s[start..]) <= LLONG_MAX + 1)
    ensures !overflow && plen < |s| ==> !AllDigits(s[start..])
    ensures !overflow && plen == |s| ==> AllDigits(s[start..]) && v == Value(s[start..])
  {
    ghost var digits := s[start..];
    ghost var run: bytes := [] + [s[start]];
    ValueSnoc([], s[start]);
    v, plen, overflow := s[start] - 48, start + 1, false;
    while plen < |s| && IsDigit(s[plen])
      invariant start + 1 <= plen <= |s|
      invariant run == digits[..plen - start] && AllDigits(run)
      invariant v == Value(run) <= ULLONG_MAX
    {
      ValueSnoc(run, s[plen]);
      run := run + [s[plen]];
      assert run == digits[..plen + 1 - start];
      if v > ULLONG_MAX / 10 || v * 10 > ULLONG_MAX - (s[plen] - 48) {
        PrefixTooLarge(digits, |run|, LLONG_MAX + 1);
        overflow := true;
        return;
      }
      v := v * 10 + (s[plen] - 48);
      plen := plen + 1;
    }
    if plen < |s| {
      assert digits[plen - start] == s[plen];
    } else {
      assert run == digits;
    }
  }

  /** string2ll accepts exactly the strict texts of 64-bit values, and returns their value. */
  method String2ll(s: bytes) returns (r: Option<int>)
    ensures r == ParseLongLong(s)
  {
    if |s| == 0 { return None; }
    if |s| == 1 && s[0] == 48 { return Some(0); }
    var start := 0;
    var negative := false;
    if s[0] == MINUS {
      negative := true;
      start := 1;
      if start == |s| { return None; }
    }
    if !(49 <= s[start] <= 57) {
      // the source's second test for "0" needs slen == 1 and was answered above
      assert s[1..] != [] ==> s[1..][0] == s[1];
      return None;
    }
    assert s[start..][0] == s[start];
    var v, plen, overflow := DigitRun(s, start);
    assert s[0..] == s;
    if overflow || plen < |s| { return None; }
    if negative {
      if v > LLONG_MAX + 1 { return None; }
      return Some(-v);
    } else {
      if v > LLONG_MAX { return None; }
      return Some(v);
    }
  }

  // ----- writers -----

  function Reversed(s: bytes): (r: bytes)
    ensures |r| == |s|
    ensures forall k :: 0 <= k < |s| ==> r[k] == s[|s| - 1 - k]
  {
    if s == [] then [] else Reversed(s[1..]) + [s[0]]
  }

  /** The in-place swap loop that ends sdsll2str, sdsull2str and _hi_itoa. */
  method ReverseInPlace(s: array<byte>, l: nat)
    requires l <= s.Length
    modifies s
    ensures s[..l] == Reversed(old(s[..l]))
    ensures s[l..] == old(s[l..])
  {
    var i := 0;
    while i < l / 2
      invariant i <= l / 2
      invariant forall k :: 0 <= k < i ==> s[k] == old(s[l - 1 - k]) && s[l - 1 - k] == old(s[k])
      invariant forall k :: i <= k < l - i ==> s[k] == old(s[k])
      invariant s[l..] == old(s[l..])
    {
      s[i], s[l - 1 - i] := s[l - 1 - i], s[i];
      i := i + 1;
    }
    ghost var was := old(s[..l]);
    assert forall k :: 0 <= k < l ==> s[..l][k] == Reversed(was)[k];
  }

  lemma {:induction false} ReversedAppend(s: bytes, b: byte)
    ensures Reversed(s + [b]) == [b] + Reversed(s)
  {
    assert forall k :: 0 <= k <= |s| ==> Reversed(s + [b])[k] == ([b] + Reversed(s))[k];
  }

  /** The digits written so far, reversed, complete the digits of what is left of the number. */
  predicate DigitsLeft(done: bytes, v: nat, whole: bytes) {
    (if v == 0 then [] else Decimal(v)) + Reversed(done) == whole
  }

  lemma DigitsLeftStep(done: bytes, v: nat, whole: bytes)
    requires v > 0 && DigitsLeft(done, v, whole)
    ensures DigitsLeft(done + [48 + v % 10], v / 10, whole)
    ensures |done| < |whole|
  {
    ReversedAppend(done, 48 + v % 10);
    if v >= 10 {
      assert Decimal(v) + Reversed(done) == Decimal(v / 10) + ([48 + v % 10] + Reversed(done));
    }
  }

  lemma SmallDigits(v: nat)
    ensures v < 10 <==> |Decimal(v)| <= 1
    ensures v < 100 <==> |Decimal(v)| <= 2
    ensures v < 1000 <==> |Decimal(v)| <= 3
    ensures v < 10000 <==> |Decimal(v)| <= 4
  {
    OneDecade(v);
    OneDecade(v / 10);
    OneDecade(v / 10 / 10);
    OneDecade(v / 10 / 10 / 10);
  }

  lemma OneDecade(v: nat)
    ensures v >= 10 ==> |Decimal(v)| == |Decimal(v / 10)| + 1
  {
  }

  lemma FourDecades(v: nat)
    requires v >= 10000
    ensures |Decimal(v)| == |Decimal(v / 10000)| + 4
  {
    OneDecade(v);
    OneDecade(v / 10);
    OneDecade(v / 10 / 10);
    OneDecade(v / 10 / 10 / 10);
    assert v / 10 / 10 / 10 / 10 == v / 10000;
  }

  /** The room for a printed 64-bit value. */
  const SDS_LLSTR_SIZE: nat := 21

  /** Unsigned values have at most twenty digits, magnitudes of signed ones at most nineteen. */
  lemma {:induction false} DigitsOf64Bits(v: nat)
    requires v <= ULLONG_MAX
    ensures |Decimal(v)| <= 20
    ensures v <= LLONG_MAX + 1 ==> |Decimal(v)| <= 19
  {
    DigitsOfQuotient(v);
    DigitsOfQuotient(v / 10000);
    DigitsOfQuotient(v / 10000 / 10000);
    DigitsOfQuotient(v / 10000 / 10000 / 10000);
    SmallDigits(v / 10000 / 10000 / 10000 / 10000);
  }

  /** With its sign, if any, and the final NUL every 64-bit value fits into SDS_LLSTR_SIZE bytes, and some need them all. */
  lemma LlstrSizeSuffices(value: int)
    requires LLONG_MIN <= value <= ULLONG_MAX
    ensures |Text(value)| + 1 <= SDS_LLSTR_SIZE
    ensures |Text(LLONG_MIN)| + 1 == SDS_LLSTR_SIZE
  {
    DigitsOf64Bits(if value < 0 then -value else value);
    SmallestHasNineteen(-LLONG_MIN);
  }

  lemma SmallestHasNineteen(v: nat)
    requires v == LLONG_MAX + 1
    ensures |Decimal(v)| == 19
  {
    FourDecades(v);
    FourDecades(v / 10000);
    FourDecades(v / 10000 / 10000);
    FourDecades(v / 10000 / 10000 / 10000);
    SmallDigits(v / 10000 / 10000 / 10000 / 10000);
  }

  lemma DigitsOfQuotient(v: nat)
    ensures |Decimal(v)| <= |Decimal(v / 10000)| + 4
  {
    if v >= 10000 { FourDecades(v); } else { SmallDigits(v); }
  }

  lemma FirstDigit(v: nat, done: bytes)
    requires done == [48 + v % 10]
    ensures DigitsLeft(done, v / 10, Decimal(v))
  {
    assert Reversed(done) == done;
  }

  /** The digit loop of sdsll2str and sdsull2str: at least one digit, least significant first. */
  method LlDigits(s: array<byte>, v0: nat) returns (p: nat)
    requires v0 <= ULLONG_MAX && s.Length >= SDS_LLSTR_SIZE
    modifies s
    ensures 1 <= p <= 20 && Reversed(s[..p]) == Decimal(v0)
  {
    DigitsOf64Bits(v0);
    ghost var whole, done: bytes := Decimal(v0), [48 + v0 % 10];
    FirstDigit(v0, done);
    s[0] := 48 + v0 % 10;
    var v: nat := v0 / 10;
    p := 1;
    while v != 0
      invariant 1 <= p == |done| <= 20 && s[..p] == done
      invariant DigitsLeft(done, v, whole)
    {
      DigitsLeftStep(done, v, whole);
      done := done + [48 + v % 10];
      s[p] := 48 + v % 10;
      v := v / 10;
      p := p + 1;
    }
    assert [] + Reversed(done) == Reversed(done);
  }

  lemma ReversedLength(s: bytes, v: nat)
    requires Reversed(s) == Decimal(v)
    ensures |s| == |Decimal(v)|
  {
  }

  /** sdsll2str (and, for non-negative values, sdsull2str): length returned, text written, NUL appended. */
  method Ll2Str(s: array<byte>, value: int) returns (l: nat)
    requires LLONG_MIN <= value <= ULLONG_MAX
    requires s.Length >= SDS_LLSTR_SIZE
    modifies s
    ensures l < SDS_LLSTR_SIZE && s[..l] == Text(value) && s[l] == 0
  {
    var v: nat := if value < 0 then 0 - value else value;
    DigitsOf64Bits(v);
    l := LlDigits(s, v);
    ReversedLength(s[..l], v);
    if value < 0 {
      ghost var digits := s[..l];
      s[l] := MINUS;
      l := l + 1;
      assert s[..l] == digits + [MINUS];
      ReversedAppend(digits, MINUS);
    }
    ghost var text := s[..l];
    s[l] := 0;
    assert s[..l] == text;
    ReverseInPlace(s, l);
    assert s[l..][0] == 0;
  }

  /** countDigits: four decades per round, and never a digit off. */
  method CountDigits(v0: nat) returns (result: nat)
    ensures result == |Decimal(v0)|
  {
    var v := v0;
    result := 1;
    while true
      invariant |Decimal(v0)| == |Decimal(v)| + result - 1
      decreases v
    {
      SmallDigits(v);
      if v < 10 { return result; }
      if v < 100 { return result + 1; }
      if v < 1000 { return result + 2; }
      if v < 10000 { return result + 3; }
      FourDecades(v);
      v := v / 10000;
      result := result + 4;
    }
  }

  /** _uint_len: one digit per division, with zero counted as one digit. */
  method UintLen(num0: nat) returns (n: nat)
    ensures n == |Decimal(num0)|
  {
    if num0 == 0 { return 1; }
    var num := num0;
    n := 0;
    while num != 0
      invariant |Decimal(num0)| == n + (if num == 0 then 0 else |Decimal(num)|)
    {
      n := n + 1;
      num := num / 10;
    }
  }

  lemma TenDigits(v: nat)
    requires v < 0x8000_0000
    ensures |Decimal(v)| <= 10
  {
    DigitsOfQuotient(v);
    DigitsOfQuotient(v / 10000);
    SmallDigits(v / 10000 / 10000);
  }

  /** The digit loop of _hi_itoa, which shifts one byte ahead of itself. */
  method ItoaDigits(s: array<byte>, num0: nat) returns (len: nat)
    requires 0 < num0 < 0x8000_0000 && s.Length == 12
    modifies s
    ensures len == |Decimal(num0)| <= 10 && Reversed(s[..len]) == Decimal(num0)
  {
    TenDigits(num0);
    ghost var whole, done: bytes := Decimal(num0), [];
    assert whole + Reversed(done) == whole;
    var num := num0;
    len := 0;
    while num % 10 != 0 || num / 10 != 0
      invariant 0 <= num && len == |done| <= 10
      invariant s[..len] == done && DigitsLeft(done, num, whole)
      decreases num
    {
      DigitsLeftStep(done, num, whole);
      var c := 48 + num % 10;
      num := num / 10;
      s[len + 1] := s[len];
      s[len] := c;
      done := done + [c];
      len := len + 1;
    }
    assert [] + Reversed(done) == Reversed(done);
  }

  /**
   _hi_itoa: the digits, a sign after them if the number is negative, the terminator and the reversal.
   The absolute value of the smallest int is not an int.
   */
  method Itoa(s: array<byte>, num0: int)
    requires -0x8000_0000 < num0 < 0x8000_0000 && s.Length == 12
    modifies s
    ensures num0 == 0 ==> s[..] == old(s[..])[0 := 48]
    ensures num0 != 0 ==> |Text(num0)| < 12 && s[..|Text(num0)| + 1] == Text(num0) + [0]
  {
    if num0 == 0 {
      s[0] := 48;
      return;
    }
    var len := ItoaDigits(s, if num0 < 0 then -num0 else num0);
    ghost var digits := s[..len];
    if num0 < 0 {
      s[len] := MINUS;
      len := len + 1;
      assert s[..len] == digits + [MINUS];
      ReversedAppend(digits, MINUS);
    }
    ghost var text := s[..len];
    s[len] := 0;
    assert s[..len] == text;
    ReverseInPlace(s, len);
    assert s[len..][0] == 0;
    assert s[..len + 1] == s[..len] + [s[len]];
  }
}
