/** Lines of words in every style: bare, in double quotes and in single quotes; and the lines that are refused. */
module QuotedWords {
  import opened Bytes
  import opened Quoting

  /** How a word is written. */
  datatype Word = Plain(text: bytes) | InDoubles(text: bytes) | InSingles(text: bytes)

  /** Without blanks, quotes and NUL. */
  predicate IsPlain(s: bytes) {
    s != [] && s[0] !in {11, 12} && forall i :: 0 <= i < |s| ==> s[i] !in {0, 9, 10, 13, 32, 34, 39}
  }

  /** Without NUL; a final backslash would take the closing quote with it. */
  predicate FitsSingles(s: bytes) { 0 !in s && (s != [] ==> s[|s| - 1] != 92) }

  predicate CanBeWritten(w: Word) {
    match w
    case Plain(s) => IsPlain(s)
    case InDoubles(_) => true
    case InSingles(s) => FitsSingles(s)
  }

  /** An apostrophe is written with a backslash before it, everything else as it is. */
  function SingleEscaped(s: bytes): bytes {
    if s == [] then [] else (if s[0] == 39 then [92, 39] else [s[0]]) + SingleEscaped(s[1..])
  }

  function Write(w: Word): bytes {
    match w
    case Plain(s) => s
    case InDoubles(s) => Repr(s)
    case InSingles(s) => [39] + SingleEscaped(s) + [39]
  }

  predicate EndsWord(rest: bytes) { rest == [] || rest[0] in {9, 10, 13, 32} }

  lemma Takes(line: bytes, quotes: Quotes, current: bytes, r: Round, rest: bytes)
    requires r == RoundOf(line, quotes) && r.Take? && rest == line[r.n..]
    ensures TokenOf(line, quotes, current) == TokenOf(rest, r.quotes, current + r.text)
  {
    TokenTakes(line, quotes, current, r, rest, current + r.text);
  }

  // ----- bare words -----

  /** What follows a bare word: the blank that ends it is consumed with it. */
  function AfterBare(rest: bytes): bytes { if rest == [] then [] else rest[1..] }

  lemma {:induction false} BareIsRead(s: bytes, rest: bytes, current: bytes)
    requires EndsWord(rest) && forall i :: 0 <= i < |s| ==> s[i] !in {0, 9, 10, 13, 32, 34, 39}
    ensures TokenOf(s + rest, Bare, current) == Token(current + s, AfterBare(rest))
    decreases |s|
  {
    if s == [] {
      assert s + rest == rest && current + s == current;
      TokenEnds(rest, Bare, current, if rest == [] then Finish(0) else Finish(1));
    } else {
      var line := s + rest;
      assert line[0] == s[0] && line[1..] == s[1..] + rest;
      Takes(line, Bare, current, Take(1, [s[0]], Bare), s[1..] + rest);
      BareIsRead(s[1..], rest, current + [s[0]]);
      assert current + [s[0]] + s[1..] == current + s;
    }
  }

  // ----- single quotes -----

  lemma SingleStep(s: bytes, more: bytes, current: bytes)
    requires s != [] && 0 !in s && (s[0] == 92 ==> more != [] && more[0] != 39)
    ensures var w := if s[0] == 39 then [92, 39] else [s[0]];
            TokenOf(w + more, Single, current) == TokenOf(more, Single, current + [s[0]])
  {
    var w := if s[0] == 39 then [92, 39] else [s[0]];
    var line := w + more;
    assert line[|w|..] == more && line[0] == w[0];
    assert |w| == 2 ==> line[1] == 39;
    assert |w| == 1 && more != [] ==> line[1] == more[0];
    Takes(line, Single, current, Take(|w|, [s[0]], Single), more);
  }

  /** The first byte written for a text is its first byte, or a backslash for an apostrophe. */
  lemma FirstWritten(s: bytes, rest: bytes)
    requires s != []
    ensures var line := SingleEscaped(s) + [39] + rest; line != [] && line[0] == if s[0] == 39 then 92 else s[0]
  {
  }

  lemma SinglesSplit(s: bytes, rest: bytes)
    requires s != []
    ensures SingleEscaped(s) + [39] + rest
         == (if s[0] == 39 then [92, 39] else [s[0]]) + (SingleEscaped(s[1..]) + [39] + rest)
  {
    Regroup4(if s[0] == 39 then [92, 39] else [s[0]], SingleEscaped(s[1..]), [39], rest);
  }

  /** The rest of a line inside single quotes. */
  function Inside(s: bytes, rest: bytes): bytes { SingleEscaped(s) + [39] + rest }

  lemma SinglesStep(s: bytes, current: bytes, next: bytes, rest: bytes)
    requires s != [] && FitsSingles(s) && next == current + [s[0]]
    ensures TokenOf(Inside(s, rest), Single, current) == TokenOf(Inside(s[1..], rest), Single, next)
    ensures FitsSingles(s[1..])
  {
    SinglesSplit(s, rest);
    if s[0] == 92 { FirstWritten(s[1..], rest); }
    SingleStep(s, Inside(s[1..], rest), current);
  }

  lemma SinglesEnd(current: bytes, rest: bytes)
    requires rest != [] ==> IsSpace(rest[0])
    ensures TokenOf(Inside([], rest), Single, current) == Token(current, rest)
  {
    var line := [39] + rest;
    assert Inside([], rest) == line && line[1..] == rest;
    TokenEnds(line, Single, current, Finish(1));
  }

  lemma OneFurther(current: bytes, s: bytes, next: bytes)
    requires s != [] && next == current + [s[0]]
    ensures next + s[1..] == current + s
  {
  }

  lemma {:induction false} SinglesAreRead(s: bytes, current: bytes, all: bytes, rest: bytes)
    requires FitsSingles(s) && (rest != [] ==> IsSpace(rest[0])) && all == current + s
    ensures TokenOf(Inside(s, rest), Single, current) == Token(all, rest)
    decreases |s|
  {
    if s == [] {
      SinglesEnd(current, rest);
      assert all == current;
    } else {
      var next := current + [s[0]];
      SinglesStep(s, current, next, rest);
      OneFurther(current, s, next);
      SinglesAreRead(s[1..], next, all, rest);
    }
  }

  lemma NothingTaken(s: bytes)
    ensures [] + s == s
  {
  }

  lemma SingleOpens(inside: bytes)
    ensures TokenOf([39] + inside, Bare, []) == TokenOf(inside, Single, [])
  {
    var line := [39] + inside;
    assert line[1..] == inside;
    Takes(line, Bare, [], Take(1, [], Single), inside);
    NothingTaken([]);
  }

  // ----- lines -----

  lemma WordIsRead(w: Word, rest: bytes)
    requires CanBeWritten(w) && EndsWord(rest)
    ensures TokenOf(Write(w) + rest, Bare, []) == Token(w.text, if w.Plain? then AfterBare(rest) else rest)
  {
    assert [] + w.text == w.text;
    match w
    case Plain(s) => BareIsRead(s, rest, []);
    case InDoubles(s) => ReprIsRead(s, rest);
    case InSingles(s) =>
      var inside := SingleEscaped(s) + [39] + rest;
      assert Write(w) + rest == [39] + inside;
      SingleOpens(inside);
      SinglesAreRead(s, [], s, rest);
  }

  /** The words, separated by single blanks. */
  function LineOf(ws: seq<Word>): bytes {
    if ws == [] then [] else if |ws| == 1 then Write(ws[0]) else Write(ws[0]) + ([32] + LineOf(ws[1..]))
  }

  function Texts(ws: seq<Word>): seq<bytes> { if ws == [] then [] else [ws[0].text] + Texts(ws[1..]) }

  lemma FirstByte(w: Word, rest: bytes)
    requires CanBeWritten(w)
    ensures var line := Write(w) + rest; line != [] && line[0] != 0 && !IsSpace(line[0])
  {
    assert Write(w) != [] && (Write(w) + rest)[0] == Write(w)[0];
  }

  lemma SplitFirst(w: Word, rest: bytes)
    requires CanBeWritten(w) && EndsWord(rest)
    ensures Split(Write(w) + rest) == After([w.text], Split(rest))
  {
    var line := Write(w) + rest;
    FirstByte(w, rest);
    assert SkipBlanks(line) == line;
    WordIsRead(w, rest);
    TokenShrinks(line);
    if rest != [] {
      assert SkipBlanks(rest) == SkipBlanks(rest[1..]);
      SameBlanks(rest, rest[1..]);
    }
  }

  lemma SameBlanks(a: bytes, b: bytes)
    requires SkipBlanks(a) == SkipBlanks(b)
    ensures Split(a) == Split(b)
  {
  }

  /** Splitting gives back the words of a line in whatever style each of them is written. */
  lemma {:induction false} SplitOfWords(ws: seq<Word>)
    requires forall i :: 0 <= i < |ws| ==> CanBeWritten(ws[i])
    ensures Split(LineOf(ws)) == Some(Texts(ws))
    decreases |ws|
  {
    if ws == [] {
    } else if |ws| == 1 {
      assert Write(ws[0]) + [] == Write(ws[0]) && ws[1..] == [];
      SplitFirst(ws[0], []);
      assert [ws[0].text] + [] == Texts(ws);
    } else {
      SplitOfWords(ws[1..]);
      SpaceSkipped(LineOf(ws[1..]));
      SplitFirst(ws[0], [32] + LineOf(ws[1..]));
    }
  }

  // ----- refused lines -----

  /** A closing quote directly followed by more text. */
  lemma TextAfterQuote(rest: bytes, current: bytes)
    requires rest != [] && rest[0] != 0 && !IsSpace(rest[0])
    ensures TokenOf([34] + rest, Double, current) == NoToken && TokenOf([39] + rest, Single, current) == NoToken
  {
    TokenEnds([34] + rest, Double, current, Unbalanced);
    TokenEnds([39] + rest, Single, current, Unbalanced);
  }

  /** A quote that is never closed. */
  lemma {:induction false} DoubleNotClosed(s: bytes, current: bytes)
    ensures TokenOf(Escaped(s), Double, current) == NoToken
    decreases |s|
  {
    if s == [] {
      TokenEnds([], Double, current, Unbalanced);
    } else {
      OneEscapeIsRead(s[0], Escaped(s[1..]), current, current + [s[0]]);
      DoubleNotClosed(s[1..], current + [s[0]]);
    }
  }

  lemma {:induction false} SingleNotClosed(s: bytes, current: bytes)
    requires 39 !in s && 0 !in s
    ensures TokenOf(s, Single, current) == NoToken
    decreases |s|
  {
    if s == [] {
      TokenEnds([], Single, current, Unbalanced);
    } else {
      Takes(s, Single, current, Take(1, [s[0]], Single), s[1..]);
      SingleNotClosed(s[1..], current + [s[0]]);
    }
  }

  /** Lines that are refused: an open quote, and text right after a closing one. */
  lemma RefusedLines(s: bytes, rest: bytes)
    ensures Split([34] + Escaped(s)) == None
    ensures 39 !in s && 0 !in s ==> Split([39] + s) == None
    ensures rest != [] && rest[0] != 0 && !IsSpace(rest[0]) ==> Split([34, 34] + rest) == None && Split([39, 39] + rest) == None
  {
    QuoteOpens(Escaped(s));
    DoubleNotClosed(s, []);
    Refuses([34] + Escaped(s));
    SingleOpens(s);
    if 39 !in s && 0 !in s {
      SingleNotClosed(s, []);
      Refuses([39] + s);
    }
    if rest != [] && rest[0] != 0 && !IsSpace(rest[0]) {
      assert [34, 34] + rest == [34] + ([34] + rest) && [39, 39] + rest == [39] + ([39] + rest);
      QuoteOpens([34] + rest);
      SingleOpens([39] + rest);
      TextAfterQuote(rest, []);
      Refuses([34, 34] + rest);
      Refuses([39, 39] + rest);
    }
  }

  lemma Refuses(line: bytes)
    requires line != [] && line[0] != 0 && !IsSpace(line[0]) && TokenOf(line, Bare, []) == NoToken
    ensures Split(line) == None
  {
    assert SkipBlanks(line) == line;
  }

  /** Hexadecimal escapes in either case, and a backslash before any other character. */
  lemma EscapesAreRead(h: byte, l: byte, c: byte, rest: bytes)
    ensures IsHexDigit(h) && IsHexDigit(l) ==>
              InDouble([92, 120, h, l] + rest) == Take(4, [16 * Digit(h) + Digit(l)], Double)
    ensures c != 0 && c !in {110, 114, 116, 97, 98, 120} ==> InDouble([92, c] + rest) == Take(2, [c], Double)
  {
    assert ([92, 120, h, l] + rest)[..4] == [92, 120, h, l];
    assert ([92, c] + rest)[0] == 92 && ([92, c] + rest)[1] == c;
  }

  /** The value of a hexadecimal digit: its place in "0123456789abcdef", upper case counting as lower. */
  function Digit(h: byte): (n: nat)
    requires IsHexDigit(h)
    ensures n < 16
  {
    if h <= 57 then h - 48 else h % 32 + 9
  }

  /** What is written for a byte is printable: the byte itself, a backslash and a character, or a hexadecimal escape. */
  lemma WrittenText(c: byte)
    ensures forall i :: 0 <= i < |Escape(c)| ==> 32 <= Escape(c)[i] <= 126
    ensures |Escape(c)| == 1 <==> 32 <= c <= 126 && c != 34 && c != 92
    ensures |Escape(c)| == 2 <==> c in {7, 8, 9, 10, 13, 34, 92}
    ensures |Escape(c)| in {1, 2} || (|Escape(c)| == 4 && Escape(c)[..2] == [92, 120])
  {
  }
}
