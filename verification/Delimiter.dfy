/**
 Searching a delimiter with the simplest restart: after a mismatch only the current byte may begin a
 new match. Which delimiters this finds wherever they first occur, and which it can miss.
 */
module Delimiter {
  import opened Bytes

  predicate Occurs(d: bytes, s: bytes, i: nat) { i + |d| <= |s| && s[i..i + |d|] == d }

  /** How much of the delimiter is matched after one more byte. */
  function Advance(d: bytes, m: nat, c: byte): (n: nat)
    requires m < |d|
    ensures n <= m + 1 && n <= |d|
  {
    if c == d[m] then m + 1 else if c == d[0] then 1 else 0
  }

  /** How many bytes are consumed when the whole delimiter has been matched, starting with m bytes matched. */
  function Found(d: bytes, m: nat, s: bytes): Option<nat>
    requires m < |d|
    decreases |s|
  {
    if s == [] then None
    else
      var n := Advance(d, m, s[0]);
      if n == |d| then Some(1)
      else match Found(d, n, s[1..])
        case None => None
        case Some(k) => Some(k + 1)
  }

  /** The matched part: what the bytes seen so far end with. */
  ghost predicate EndsWith(t: bytes, p: bytes) { |p| <= |t| && t[|t| - |p|..] == p }

  /** m bytes are matched, and no longer beginning of the delimiter ends the text seen so far. */
  ghost predicate Longest(d: bytes, m: nat, t: bytes)
    requires m < |d|
  {
    EndsWith(t, d[..m]) && forall j :: m < j <= |d| ==> !EndsWith(t, d[..j])
  }

  /** The delimiter's first k bytes end with its first m. */
  predicate Border(d: bytes, m: nat, k: nat) { 0 < m < k < |d| && d[..m] == d[k - m..k] }

  /** Wherever the delimiter repeats its beginning, it goes on there as it did at the beginning. */
  predicate Restartable(d: bytes) {
    forall m: nat, k: nat | m < |d| && k < |d| :: Border(d, m, k) ==> d[m] == d[k]
  }

  lemma EndsWithSnoc(t: bytes, c: byte, d: bytes, j: nat)
    requires j < |d|
    ensures EndsWith(t + [c], d[..j + 1]) <==> EndsWith(t, d[..j]) && d[j] == c
  {
    var p, q, u := d[..j], d[..j + 1], t + [c];
    assert q == p + [d[j]];
    if EndsWith(u, q) {
      assert u[|u| - |q|..][..j] == p && u[|u| - |q|..][j] == c;
      assert t[|t| - |p|..] == u[|u| - |q|..][..j];
    }
    if EndsWith(t, p) && d[j] == c {
      assert u[|u| - |q|..] == t[|t| - |p|..] + [c];
    }
  }

  /** Two beginnings of the delimiter that both end a text: the shorter ends the longer. */
  lemma ShorterEndsLonger(d: bytes, t: bytes, j: nat, m: nat)
    requires 0 < j < m < |d| && EndsWith(t, d[..j]) && EndsWith(t, d[..m])
    ensures Border(d, j, m)
  {
    assert d[m - j..m] == d[..m][m - j..];
    assert t[|t| - j..] == t[|t| - m..][m - j..];
  }

  /** No beginning longer than the new match ends the text with one more byte. */
  lemma NoLonger(d: bytes, m: nat, t: bytes, c: byte, j: nat)
    requires Restartable(d) && m < |d| && Longest(d, m, t) && Advance(d, m, c) < j <= |d|
    ensures !EndsWith(t + [c], d[..j])
  {
    EndsWithSnoc(t, c, d, j - 1);
    if 0 < j - 1 < m && EndsWith(t, d[..j - 1]) {
      ShorterEndsLonger(d, t, j - 1, m);
    }
  }

  /** One more byte keeps the matched part the longest, in a restartable delimiter. */
  lemma AdvanceKeepsLongest(d: bytes, m: nat, t: bytes, c: byte)
    requires Restartable(d) && m < |d| && Longest(d, m, t)
    ensures EndsWith(t + [c], d[..Advance(d, m, c)])
    ensures forall j :: Advance(d, m, c) < j <= |d| ==> !EndsWith(t + [c], d[..j])
  {
    var n := Advance(d, m, c);
    if n > 0 { EndsWithSnoc(t, c, d, n - 1); }
    assert d[..0] == [] && EndsWith(t, []);
    forall j | n < j <= |d| ensures !EndsWith(t + [c], d[..j]) {
      NoLonger(d, m, t, c, j);
    }
  }

  /** The end of the first occurrence in t + s that ends after t. */
  ghost predicate FirstEnd(d: bytes, t: bytes, s: bytes, r: Option<nat>) {
    match r
    case None => forall k :: 1 <= k <= |s| ==> !EndsWith(t + s[..k], d)
    case Some(e) => 1 <= e <= |s| && EndsWith(t + s[..e], d) && forall k :: 1 <= k < e ==> !EndsWith(t + s[..k], d)
  }

  lemma FirstEndCons(d: bytes, t: bytes, s: bytes, r: Option<nat>)
    requires s != [] && !EndsWith(t + [s[0]], d) && FirstEnd(d, t + [s[0]], s[1..], r)
    ensures FirstEnd(d, t, s, if r.None? then None else Some(r.value + 1))
  {
    var u := t + [s[0]];
    assert forall k :: 2 <= k <= |s| ==> t + s[..k] == u + s[1..][..k - 1];
    assert t + s[..1] == u;
  }

  lemma FoundAtOnce(d: bytes, t: bytes, s: bytes)
    requires s != [] && d != [] && EndsWith(t + [s[0]], d)
    ensures FirstEnd(d, t, s, Some(1))
  {
    assert t + s[..1] == t + [s[0]];
  }

  lemma {:induction false} FoundIsFirst(d: bytes, m: nat, t: bytes, s: bytes)
    requires Restartable(d) && m < |d| && Longest(d, m, t)
    ensures FirstEnd(d, t, s, Found(d, m, s))
    decreases |s|
  {
    if s != [] {
      var n, u := Advance(d, m, s[0]), t + [s[0]];
      AdvanceKeepsLongest(d, m, t, s[0]);
      assert d[..|d|] == d;
      if n == |d| {
        FoundAtOnce(d, t, s);
      } else {
        assert !EndsWith(u, d[..|d|]);
        FoundIsFirst(d, n, u, s[1..]);
        FirstEndCons(d, t, s, Found(d, n, s[1..]));
      }
    }
  }

  /** The search reports every text's first occurrence, and reports nothing where there is none. */
  ghost predicate NeverMisses(d: bytes)
    requires d != []
  {
    forall s: bytes :: FirstEnd(d, [], s, Found(d, 0, s))
  }

  lemma {:induction false} SearchAhead(d: bytes, m: nat, p: bytes, s: bytes)
    requires m + |p| < |d| && p == d[m..m + |p|]
    ensures Found(d, m, p + s) == match Found(d, m + |p|, s) case None => None case Some(k) => Some(|p| + k)
    decreases |p|
  {
    if p == [] {
      assert p + s == s;
    } else {
      assert (p + s)[1..] == p[1..] + s;
      assert p[1..] == d[m + 1..m + 1 + |p[1..]|];
      SearchAhead(d, m + 1, p[1..], s);
    }
  }

  /** Too few bytes are left to match what is missing. */
  lemma {:induction false} TooShort(d: bytes, m: nat, s: bytes)
    requires m + |s| < |d|
    ensures Found(d, m, s) == None
    decreases |s|
  {
    if s != [] { TooShort(d, Advance(d, m, s[0]), s[1..]); }
  }

  /** The text that defeats the search: the delimiter, begun once more inside itself. */
  lemma BadBorderMisses(d: bytes, m: nat, k: nat)
    requires Border(d, m, k) && d[m] != d[k]
    ensures Found(d, 0, d[..k - m] + d) == None
    ensures Occurs(d, d[..k - m] + d, k - m)
  {
    var s := d[..k - m] + d;
    assert d[..k] == d[..k - m] + d[k - m..k];
    assert s == d[..k] + d[m..];
    SearchAhead(d, 0, d[..k], d[m..]);
    var n := Advance(d, k, d[m]);
    assert d[m..][1..] == d[m + 1..];
    TooShort(d, n, d[m + 1..]);
    assert s[k - m..k - m + |d|] == d;
  }

  lemma MissedText(d: bytes, m: nat, k: nat)
    requires Border(d, m, k) && d[m] != d[k]
    ensures !FirstEnd(d, [], d[..k - m] + d, None) && Found(d, 0, d[..k - m] + d) == None
  {
    BadBorderMisses(d, m, k);
    var s := d[..k - m] + d;
    assert [] + s[..|s|] == s && s[|s| - |d|..] == d;
    assert EndsWith([] + s[..|s|], d);
  }

  /** A delimiter is always found where it first occurs exactly when it is restartable. */
  lemma NeverMissesIffRestartable(d: bytes)
    requires d != []
    ensures NeverMisses(d) <==> Restartable(d)
  {
    if Restartable(d) {
      assert d[..0] == [];
      forall s: bytes ensures FirstEnd(d, [], s, Found(d, 0, s)) {
        FoundIsFirst(d, 0, [], s);
      }
    } else {
      var m: nat, k: nat :| m < |d| && k < |d| && Border(d, m, k) && d[m] != d[k];
      MissedText(d, m, k);
    }
  }

  /** A first byte that never recurs makes a delimiter restartable. */
  lemma FreshFirstByte(d: bytes)
    requires d != [] && forall i :: 0 < i < |d| ==> d[i] != d[0]
    ensures Restartable(d)
  {
    forall m: nat, k: nat | 0 < m < k < |d| ensures !Border(d, m, k) {
      assert d[..m][0] == d[0] && d[k - m..k][0] == d[k - m];
    }
  }
}
