/** Quoted string text: writing arbitrary bytes as a quoted token, and splitting a line into tokens. */
module Quoting {
  import opened Bytes

  const QUOTE: byte := 34
  const APOSTROPHE: byte := 39
  const BACKSLASH: byte := 92
  const SPACE: byte := 32

  predicate IsPrint(c: byte) { 32 <= c <= 126 }

  predicate IsSpace(c: byte) { c == SPACE || 9 <= c <= 13 }

  predicate IsHexDigit(c: byte) { IsDigit(c) || 97 <= c <= 102 || 65 <= c <= 70 }

  function HexDigit(n: nat): (c: byte)
    requires n < 16
    ensures IsHexDigit(c)
  {
    if n < 10 then 48 + n else 97 + (n - 10)
  }

  /** hex_digit_to_int. */
  function HexValue(c: byte): (n: nat)
    ensures n < 16
  {
    if IsDigit(c) then c - 48
    else if 97 <= c <= 102 then c - 87
    else if 65 <= c <= 70 then c - 55
    else 0
  }

  // ----- writing -----

  function Escape(c: byte): bytes {
    if c == BACKSLASH || c == QUOTE then [BACKSLASH, c]
    else if c == 10 then [BACKSLASH, 110]
    else if c == 13 then [BACKSLASH, 114]
    else if c == 9 then [BACKSLASH, 116]
    else if c == 7 then [BACKSLASH, 97]
    else if c == 8 then [BACKSLASH, 98]
    else if IsPrint(c) then [c]
    else [BACKSLASH, 120, HexDigit(c / 16), HexDigit(c % 16)]
  }

  function Escaped(s: bytes): bytes { if s == [] then [] else Escape(s[0]) + Escaped(s[1..]) }

  function Repr(s: bytes): bytes { [QUOTE] + Escaped(s) + [QUOTE] }

  lemma {:induction false} EscapedSnoc(s: bytes, c: byte)
    ensures Escaped(s + [c]) == Escaped(s) + Escape(c)
  {
    if s == [] {
      assert Escaped([c]) == Escape(c) + Escaped([c][1..]);
    } else {
      assert (s + [c])[1..] == s[1..] + [c];
      EscapedSnoc(s[1..], c);
    }
  }

  /** The cases of sdscatrepr's switch. */
  method CatChar(s: bytes, c: byte) returns (r: bytes)
    ensures r == s + Escape(c)
  {
    if c == BACKSLASH || c == QUOTE {
      r := s + [BACKSLASH, c];
    } else if c == 10 {
      r := s + [BACKSLASH, 110];
    } else if c == 13 {
      r := s + [BACKSLASH, 114];
    } else if c == 9 {
      r := s + [BACKSLASH, 116];
    } else if c == 7 {
      r := s + [BACKSLASH, 97];
    } else if c == 8 {
      r := s + [BACKSLASH, 98];
    } else if IsPrint(c) {
      r := s + [c];
    } else {
      r := s + [BACKSLASH, 120, HexDigit(c / 16), HexDigit(c % 16)];
    }
  }

  /** sdscatrepr. */
  method CatRepr(s: bytes, p: bytes) returns (r: bytes)
    ensures r == s + Repr(p)
  {
    r := s + [QUOTE];
    for i := 0 to |p|
      invariant r == s + ([QUOTE] + Escaped(p[..i]))
    {
      assert p[..i + 1] == p[..i] + [p[i]];
      EscapedSnoc(p[..i], p[i]);
      r := CatChar(r, p[i]);
    }
    assert p[..|p|] == p;
    r := r + [QUOTE];
  }

  // ----- splitting -----

  /** The byte k places ahead, zero at the end of the line. */
  function Peek(line: bytes, k: nat): byte { if k < |line| then line[k] else 0 }

  datatype Quotes = Bare | Double | Single

  /** One round of the token loop: bytes taken, or the token's end, or an unbalanced quote. */
  datatype Round = Take(n: nat, text: bytes, quotes: Quotes) | Finish(n: nat) | Unbalanced

  function Unescape(c: byte): byte {
    if c == 110 then 10 else if c == 114 then 13 else if c == 116 then 9
    else if c == 98 then 8 else if c == 97 then 7 else c
  }

  function InDouble(line: bytes): Round {
    var c := Peek(line, 0);
    if c == BACKSLASH && Peek(line, 1) == 120 && IsHexDigit(Peek(line, 2)) && IsHexDigit(Peek(line, 3)) then
      Take(4, [HexValue(Peek(line, 2)) * 16 + HexValue(Peek(line, 3))], Double)
    else if c == BACKSLASH && Peek(line, 1) != 0 then Take(2, [Unescape(Peek(line, 1))], Double)
    else if c == QUOTE then (if Peek(line, 1) != 0 && !IsSpace(Peek(line, 1)) then Unbalanced else Finish(1))
    else if c == 0 then Unbalanced
    else Take(1, [c], Double)
  }

  function InSingle(line: bytes): Round {
    var c := Peek(line, 0);
    if c == BACKSLASH && Peek(line, 1) == APOSTROPHE then Take(2, [APOSTROPHE], Single)
    else if c == APOSTROPHE then (if Peek(line, 1) != 0 && !IsSpace(Peek(line, 1)) then Unbalanced else Finish(1))
    else if c == 0 then Unbalanced
    else Take(1, [c], Single)
  }

  function InBare(line: bytes): Round {
    var c := Peek(line, 0);
    if c == 0 then Finish(0)
    else if c == SPACE || c == 10 || c == 13 || c == 9 then Finish(1)
    else if c == QUOTE then Take(1, [], Double)
    else if c == APOSTROPHE then Take(1, [], Single)
    else Take(1, [c], Bare)
  }

  function RoundOf(line: bytes, quotes: Quotes): (r: Round)
    ensures r.Take? ==> 1 <= r.n <= |line|
    ensures r.Finish? ==> r.n <= |line|
  {
    match quotes
    case Bare => InBare(line)
    case Double => InDouble(line)
    case Single => InSingle(line)
  }

  datatype Cut = Token(text: bytes, rest: bytes) | NoToken

  /** The rest of a token, and what follows it. */
  function TokenOf(line: bytes, quotes: Quotes, current: bytes): (t: Cut)
    ensures t.Token? ==> |t.rest| <= |line|
    decreases |line|
  {
    match RoundOf(line, quotes)
    case Take(n, text, q) => TokenOf(line[n..], q, current + text)
    case Finish(n) => Token(current, line[n..])
    case Unbalanced => NoToken
  }

  function SkipBlanks(line: bytes): (r: bytes)
    ensures |r| <= |line| && (r != [] ==> !IsSpace(r[0]))
  {
    if line != [] && IsSpace(line[0]) then SkipBlanks(line[1..]) else line
  }

  /** The tokens of a line, None when a quote is unbalanced or followed by more text; a NUL ends the line. */
  function Split(line: bytes): Option<seq<bytes>>
    decreases |line|
  {
    var start := SkipBlanks(line);
    if Peek(start, 0) == 0 then Some([])
    else
      TokenShrinks(start);
      match TokenOf(start, Bare, [])
      case NoToken => None
      case Token(text, rest) =>
        match Split(rest)
        case None => None
        case Some(more) => Some([text] + more)
  }

  lemma TokenShrinks(start: bytes)
    requires Peek(start, 0) != 0 && !IsSpace(start[0])
    ensures TokenOf(start, Bare, []).Token? ==> |TokenOf(start, Bare, []).rest| < |start|
  {
    assert RoundOf(start, Bare).Take?;
  }

  lemma TokenTakes(line: bytes, quotes: Quotes, current: bytes, r: Round, rest: bytes, next: bytes)
    requires r == RoundOf(line, quotes) && r.Take? && rest == line[r.n..] && next == current + r.text
    ensures TokenOf(line, quotes, current) == TokenOf(rest, r.quotes, next)
  {
  }

  lemma TokenEnds(line: bytes, quotes: Quotes, current: bytes, r: Round)
    requires r == RoundOf(line, quotes) && !r.Take?
    ensures TokenOf(line, quotes, current) == if r.Finish? then Token(current, line[r.n..]) else NoToken
  {
  }

  /** The token loop of sdssplitargs. */
  method GetToken(line: bytes, p0: nat) returns (ok: bool, current: bytes, p: nat)
    requires p0 <= |line|
    ensures ok <==> TokenOf(line[p0..], Bare, []).Token?
    ensures ok ==> p <= |line| && TokenOf(line[p0..], Bare, []) == Token(current, line[p..])
  {
    p := p0;
    current := [];
    var quotes := Bare;
    ghost var whole := TokenOf(line[p0..], Bare, []);
    while true
      invariant p <= |line| && whole == TokenOf(line[p..], quotes, current)
      decreases |line| - p
    {
      var here := line[p..];
      var r := RoundOf(here, quotes);
      if !r.Take? {
        TokenEnds(here, quotes, current, r);
        if r.Unbalanced? { return false, current, p; }
        assert here[r.n..] == line[p + r.n..];
        return true, current, p + r.n;
      }
      TokenTakes(here, quotes, current, r, line[p + r.n..], current + r.text);
      current, quotes, p := current + r.text, r.quotes, p + r.n;
    }
  }

  /** Tokens already cut off, before those of the rest. */
  function After(vector: seq<bytes>, r: Option<seq<bytes>>): Option<seq<bytes>> {
    if r.None? then None else Some(vector + r.value)
  }

  lemma AfterNothing(r: Option<seq<bytes>>)
    ensures After([], r) == r
  {
    if r.Some? { assert [] + r.value == r.value; }
  }

  lemma SplitStep(line: bytes, start: bytes, vector: seq<bytes>)
    requires start == SkipBlanks(line)
    ensures Peek(start, 0) == 0 ==> After(vector, Split(line)) == Some(vector)
    ensures Peek(start, 0) != 0 ==>
              var t := TokenOf(start, Bare, []);
              After(vector, Split(line)) == if t.NoToken? then None else After(vector + [t.text], Split(t.rest))
  {
    if Peek(start, 0) == 0 {
      assert vector + [] == vector;
    } else {
      TokenShrinks(start);
      var t := TokenOf(start, Bare, []);
      if t.Token? && Split(t.rest).Some? {
        assert vector + ([t.text] + Split(t.rest).value) == (vector + [t.text]) + Split(t.rest).value;
      }
    }
  }

  /** The blanks before a token. */
  method SkipFrom(line: bytes, p0: nat) returns (p: nat)
    requires p0 <= |line|
    ensures p0 <= p <= |line| && line[p..] == SkipBlanks(line[p0..])
  {
    p := p0;
    while p < |line| && IsSpace(line[p])
      invariant p0 <= p <= |line| && SkipBlanks(line[p0..]) == SkipBlanks(line[p..])
    {
      assert line[p..][1..] == line[p + 1..];
      p := p + 1;
    }
  }

  /** sdssplitargs. */
  method SplitArgs(line: bytes) returns (r: Option<seq<bytes>>)
    ensures r == Split(line)
  {
    var p: nat, vector := 0, [];
    assert line[0..] == line;
    AfterNothing(Split(line));
    while true
      invariant p <= |line| && Split(line) == After(vector, Split(line[p..]))
      decreases |line| - p
    {
      var q := SkipFrom(line, p);
      SplitStep(line[p..], line[q..], vector);
      if q == |line| || line[q] == 0 { return Some(vector); }
      TokenShrinks(line[q..]);
      var ok, current, next := GetToken(line, q);
      if !ok { return None; }
      vector := vector + [current];
      p := next;
    }
  }

  // ----- the round trip -----

  /** What an escape is read back as, whatever follows. */
  lemma EscapeIsRead(c: byte, rest: bytes)
    ensures InDouble(Escape(c) + rest) == Take(|Escape(c)|, [c], Double)
  {
    var line := Escape(c) + rest;
    assert forall k :: 0 <= k < |Escape(c)| ==> line[k] == Escape(c)[k];
  }

  lemma CloseIsRead(current: bytes, rest: bytes)
    requires rest != [] ==> IsSpace(rest[0])
    ensures TokenOf([QUOTE] + rest, Double, current) == Token(current, rest)
  {
    var line := [QUOTE] + rest;
    assert InDouble(line) == Finish(1) && line[1..] == rest;
    TokenEnds(line, Double, current, Finish(1));
  }

  lemma OneEscapeIsRead(c: byte, more: bytes, current: bytes, next: bytes)
    requires next == current + [c]
    ensures TokenOf(Escape(c) + more, Double, current) == TokenOf(more, Double, next)
  {
    EscapeIsRead(c, more);
    assert (Escape(c) + more)[|Escape(c)|..] == more;
    TokenTakes(Escape(c) + more, Double, current, Take(|Escape(c)|, [c], Double), more, next);
  }

  /** Inside double quotes, escaped text is read back up to the closing quote. */
  lemma {:induction false} EscapedIsRead(s: bytes, line: bytes, current: bytes, all: bytes, rest: bytes)
    requires rest != [] ==> IsSpace(rest[0])
    requires line == Escaped(s) + [QUOTE] + rest && all == current + s
    ensures TokenOf(line, Double, current) == Token(all, rest)
    decreases |s|
  {
    if s == [] {
      NothingEscaped(rest);
      CloseIsRead(current, rest);
      assert all == current;
    } else {
      var more, next := Escaped(s[1..]) + [QUOTE] + rest, current + [s[0]];
      EscapeStep(s, line, more, current, next, rest);
      assert all == next + s[1..];
      EscapedIsRead(s[1..], more, next, all, rest);
    }
  }

  lemma EscapeStep(s: bytes, line: bytes, more: bytes, current: bytes, next: bytes, rest: bytes)
    requires s != [] && line == Escaped(s) + [QUOTE] + rest && more == Escaped(s[1..]) + [QUOTE] + rest
    requires next == current + [s[0]]
    ensures TokenOf(line, Double, current) == TokenOf(more, Double, next)
  {
    EscapedSplits(s, rest, more);
    OneEscapeIsRead(s[0], more, current, next);
  }

  lemma NothingEscaped(rest: bytes)
    ensures Escaped([]) + [QUOTE] + rest == [QUOTE] + rest
  {
  }

  lemma EscapedSplits(s: bytes, rest: bytes, more: bytes)
    requires s != [] && more == Escaped(s[1..]) + [QUOTE] + rest
    ensures Escaped(s) + [QUOTE] + rest == Escape(s[0]) + more
  {
    Regroup4(Escape(s[0]), Escaped(s[1..]), [QUOTE], rest);
  }

  /** A quoted word at the head of a line is read back as one token. */
  lemma ReprIsRead(s: bytes, rest: bytes)
    requires rest != [] ==> IsSpace(rest[0])
    ensures TokenOf(Repr(s) + rest, Bare, []) == Token(s, rest)
  {
    var inside := Escaped(s) + [QUOTE] + rest;
    assert Repr(s) + rest == [QUOTE] + inside;
    assert [] + s == s;
    EscapedIsRead(s, inside, [], s, rest);
    QuoteOpens(inside);
  }

  lemma QuoteOpens(inside: bytes)
    ensures TokenOf([QUOTE] + inside, Bare, []) == TokenOf(inside, Double, [])
  {
    var line := [QUOTE] + inside;
    assert InBare(line) == Take(1, [], Double) && line[1..] == inside;
    TokenTakes(line, Bare, [], Take(1, [], Double), inside, []);
  }

  /** The words, quoted and separated by single spaces. */
  function Line(args: seq<bytes>): bytes {
    if args == [] then []
    else if |args| == 1 then Repr(args[0])
    else Repr(args[0]) + [SPACE] + Line(args[1..])
  }

  lemma SpaceSkipped(line: bytes)
    ensures Split([SPACE] + line) == Split(line)
  {
    assert ([SPACE] + line)[1..] == line;
  }

  lemma SplitWord(s: bytes, rest: bytes)
    requires rest != [] ==> IsSpace(rest[0])
    ensures Split(Repr(s) + rest) == After([s], Split(rest))
  {
    var line := Repr(s) + rest;
    assert line[0] == QUOTE && SkipBlanks(line) == line;
    ReprIsRead(s, rest);
    TokenShrinks(line);
  }

  /** Splitting gives back every list of byte strings that was written quoted, whatever bytes they contain. */
  lemma {:induction false} SplitOfLine(args: seq<bytes>)
    ensures Split(Line(args)) == Some(args)
  {
    if args == [] {
    } else if |args| == 1 {
      assert Repr(args[0]) + [] == Repr(args[0]);
      SplitWord(args[0], []);
      assert [args[0]] + [] == args;
    } else {
      SplitOfLine(args[1..]);
      SplitWordAndLine(args[0], Line(args[1..]));
      assert [args[0]] + args[1..] == args;
    }
  }

  lemma SplitWordAndLine(s: bytes, line: bytes)
    ensures Split(Repr(s) + [SPACE] + line) == After([s], Split(line))
  {
    SpaceSkipped(line);
    SplitWord(s, [SPACE] + line);
    assert Repr(s) + [SPACE] + line == Repr(s) + ([SPACE] + line);
  }
}
