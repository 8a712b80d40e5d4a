/** Bytes, the CRLF line discipline and decimal text: what every codec of the client shares. */
module Bytes {

  type byte = b: int | 0 <= b < 256
  type bytes = seq<byte>

  datatype Option<+T> = None | Some(value: T)

  const CR: byte := 13
  const LF: byte := 10
  const CRLF: bytes := [13, 10]
  const MINUS: byte := 45

  lemma Regroup<T>(a: seq<T>, b: seq<T>, c: seq<T>)
    ensures a + b + c == a + (b + c)
  {
  }

  lemma Regroup4<T>(a: seq<T>, b: seq<T>, c: seq<T>, d: seq<T>)
    ensures a + b + c + d == a + (b + c + d)
  {
  }

  predicate IsDigit(b: byte) { 48 <= b <= 57 }

  predicate AllDigits(s: bytes) { forall i :: 0 <= i < |s| ==> IsDigit(s[i]) }

  // ----- lines -----

  /** Index of the first CR that is directly followed by LF. */
  function FindCrlf(s: bytes): Option<nat> {
    if |s| < 2 then None
    else if s[0] == CR && s[1] == LF then Some(0)
    else match FindCrlf(s[1..])
      case None => None
      case Some(i) => Some(i + 1)
  }

  /** FindCrlf is the first occurrence: nothing earlier matches, and None means there is none. */
  lemma {:induction false} FindCrlfIsFirst(s: bytes)
    ensures FindCrlf(s).Some? ==>
              var i := FindCrlf(s).value;
              i + 1 < |s| && s[i] == CR && s[i + 1] == LF
              && forall j :: 0 <= j < i ==> !(s[j] == CR && s[j + 1] == LF)
    ensures FindCrlf(s).None? ==> forall j :: 0 <= j < |s| - 1 ==> !(s[j] == CR && s[j + 1] == LF)
  {
    if |s| >= 2 && !(s[0] == CR && s[1] == LF) {
      FindCrlfIsFirst(s[1..]);
      match FindCrlf(s[1..])
      case None =>
        forall j | 0 <= j < |s| - 1 ensures !(s[j] == CR && s[j + 1] == LF) {
          if j > 0 { assert s[1..][j - 1] == s[j] && s[1..][j] == s[j + 1]; }
        }
      case Some(i) =>
        forall j | 0 <= j < i + 1 ensures !(s[j] == CR && s[j + 1] == LF) {
          if j > 0 { assert s[1..][j - 1] == s[j] && s[1..][j] == s[j + 1]; }
        }
    }
  }

  /** Bytes that arrive later never move the first line end. */
  lemma {:induction false} FindCrlfStable(s: bytes, t: bytes)
    requires FindCrlf(s).Some?
    ensures FindCrlf(s + t) == FindCrlf(s)
  {
    if !(s[0] == CR && s[1] == LF) {
      FindCrlfStable(s[1..], t);
      assert (s + t)[1..] == s[1..] + t;
    }
  }

  /** A line without CR ends exactly at the CRLF that was written after it. */
  lemma {:induction false} FindCrlfAfter(line: bytes, rest: bytes)
    requires CR !in line
    ensures FindCrlf(line + CRLF + rest) == Some(|line|)
  {
    var s := line + CRLF + rest;
    if line != [] {
      assert s[0] == line[0];
      FindCrlfAfter(line[1..], rest);
      assert s[1..] == line[1..] + CRLF + rest;
    }
  }

  datatype LineCut = NoLine | Line(text: bytes, rest: bytes)

  /** The first line of a stream and what follows its CRLF. */
  function CutLine(s: bytes): (c: LineCut)
    ensures c.Line? <==> FindCrlf(s).Some?
    ensures c.Line? ==> |c.text| + 2 + |c.rest| == |s|
  {
    match FindCrlf(s)
    case None => NoLine
    case Some(i) =>
      FindCrlfIsFirst(s);
      Line(s[..i], s[i + 2..])
  }

  /** Cutting gives back a line that was written, and what was written after it. */
  lemma CutWrittenLine(line: bytes, rest: bytes)
    requires CR !in line
    ensures CutLine(line + CRLF + rest) == Line(line, rest)
  {
    FindCrlfAfter(line, rest);
  }

  lemma CutLineStable(s: bytes, t: bytes)
    requires CutLine(s).Line?
    ensures CutLine(s + t) == Line(CutLine(s).text, CutLine(s).rest + t)
  {
    FindCrlfIsFirst(s);
    FindCrlfStable(s, t);
    var i := FindCrlf(s).value;
    assert (s + t)[..i] == s[..i] && (s + t)[i + 2..] == s[i + 2..] + t;
  }

  // ----- decimal text -----

  /** What "%d" prints for a non-negative number. */
  function Decimal(n: nat): (s: bytes)
    ensures |s| >= 1 && AllDigits(s)
    ensures s[0] == 48 <==> n == 0
    ensures n < 10 <==> |s| == 1
  {
    if n < 10 then [48 + n] else Decimal(n / 10) + [48 + n % 10]
  }

  /** The number a digit string denotes. */
  function Value(s: bytes): nat
    requires AllDigits(s)
  {
    if s == [] then 0 else 10 * Value(s[..|s| - 1]) + (s[|s| - 1] - 48)
  }

  lemma {:induction false} ValueOfDecimal(n: nat)
    ensures Value(Decimal(n)) == n
  {
    var s := Decimal(n);
    if n < 10 {
      assert s[..0] == [];
    } else {
      ValueOfDecimal(n / 10);
      assert s[..|s| - 1] == Decimal(n / 10);
    }
  }

  /** Reading one more digit, the step of every digit loop. */
  lemma ValueStep(s: bytes, i: nat)
    requires AllDigits(s) && i < |s|
    ensures Value(s[..i + 1]) == 10 * Value(s[..i]) + (s[i] - 48)
  {
    assert s[..i + 1][..i] == s[..i];
  }

  lemma ValueSnoc(s: bytes, d: byte)
    requires AllDigits(s) && IsDigit(d)
    ensures AllDigits(s + [d]) && Value(s + [d]) == 10 * Value(s) + (d - 48)
  {
    assert (s + [d])[..|s|] == s;
  }

  lemma {:induction false} ValueGrows(s: bytes, i: nat)
    requires AllDigits(s) && i <= |s|
    ensures Value(s[..i]) <= Value(s)
    decreases |s| - i
  {
    if i == |s| {
      assert s[..i] == s;
    } else {
      ValueStep(s, i);
      ValueGrows(s, i + 1);
    }
  }

  /** A digit string without leading zeros is the text of its value. */
  lemma {:induction false} DecimalOfValue(s: bytes)
    requires AllDigits(s) && |s| >= 1
    requires |s| > 1 ==> s[0] != 48
    ensures Decimal(Value(s)) == s
    ensures |s| > 1 ==> Value(s) >= 10
  {
    var n := |s|;
    if n == 1 {
      assert s[..0] == [];
      assert Value(s[..0]) == 0;
      assert s == [48 + Value(s)];
    } else {
      var front := s[..n - 1];
      DecimalOfValue(front);
      if n == 2 {
        assert front[..0] == [];
        assert Value(front) == front[0] - 48;
      }
      assert Value(s) == 10 * Value(front) + (s[n - 1] - 48);
      assert Value(s) / 10 == Value(front) && Value(s) % 10 == s[n - 1] - 48;
      assert s == front + [s[n - 1]];
    }
  }

  lemma DigitsHaveNoCr(s: bytes)
    requires AllDigits(s)
    ensures CR !in s
  {
  }
}
