/**
 What the cuts of a multipart body into buffers change. The bytes of a header name scanned at the end of
 a buffer are reported there; a header line that ends without a colon loses those not yet reported. So
 the reports are the same for all cuts of a body exactly when every begun header name reaches its colon.
 */
module BodyCuts {
  import opened Bytes
  import opened Multipart

  /** At the end of a buffer the held part of a name is reported. */
  function Flush(p: Progress): Progress {
    if p.mode.Field? then Progress(p.consumed, Field([]), p.atoms + NameBytes(p.mode.held)) else p
  }

  /** One buffer, flushed if it is accepted in full. */
  function Buffer(b: bytes, mode: Mode, s: bytes): Progress {
    var p := Run(b, mode, s);
    if p.consumed == |s| then Flush(p) else p
  }

  function Joined(chunks: seq<bytes>): bytes {
    if chunks == [] then [] else Joined(chunks[..|chunks| - 1]) + chunks[|chunks| - 1]
  }

  /** A body in buffers, up to the first that is not accepted in full. */
  function Buffers(b: bytes, chunks: seq<bytes>): Progress {
    if chunks == [] then Progress(0, Opening(0), [])
    else
      var init := chunks[..|chunks| - 1];
      var p := Buffers(b, init);
      if p.consumed == |Joined(init)| then Then(p.consumed, p.atoms, Buffer(b, p.mode, chunks[|chunks| - 1])) else p
  }

  /** A begun header name meets a CR, or a byte that is refused. */
  predicate DropsName(b: bytes, mode: Mode, s: bytes)
    decreases |s|
  {
    s != [] &&
    var move := Step(b, mode, s[0]);
    || (mode.Field? && mode.held != [] && (move.Reject? || move.mode.HeadersAlmostDone?))
    || (move.To? && DropsName(b, move.mode, s[1..]))
  }

  // ----- names that reach their colon -----

  lemma NameBytesApp(a: bytes, c: bytes)
    ensures NameBytes(a + c) == NameBytes(a) + NameBytes(c)
  {
  }

  lemma ThenBuffer(b: bytes, mode: Mode, s: bytes, next: Mode, atoms: seq<Atom>)
    requires s != [] && Step(b, mode, s[0]) == To(next, atoms)
    ensures Buffer(b, mode, s) == Then(1, atoms, Buffer(b, next, s[1..]))
  {
    var p := Run(b, next, s[1..]);
    if p.mode.Field? { Regroup(atoms, p.atoms, NameBytes(p.mode.held)); }
  }

  /** Reporting the first part of a name early changes nothing if the name reaches its colon. */
  lemma {:induction false} EarlyReport(b: bytes, h: bytes, g: bytes, t: bytes)
    requires !DropsName(b, Field(h + g), t)
    ensures Buffer(b, Field(h + g), t) == Then(0, NameBytes(h), Buffer(b, Field(g), t))
    decreases |t|
  {
    NameBytesApp(h, g);
    if t == [] {
      assert [] + NameBytes(h + g) == NameBytes(h + g) && [] + NameBytes(g) == NameBytes(g);
    } else if t[0] == COLON {
      ThenBuffer(b, Field(h + g), t, ValueStart, NameBytes(h + g));
      ThenBuffer(b, Field(g), t, ValueStart, NameBytes(g));
      Regroup(NameBytes(h), NameBytes(g), Buffer(b, ValueStart, t[1..]).atoms);
    } else if IsNameByte(t[0]) {
      assert (h + g) + [t[0]] == h + (g + [t[0]]);
      ThenBuffer(b, Field(h + g), t, Field(h + (g + [t[0]])), []);
      ThenBuffer(b, Field(g), t, Field(g + [t[0]]), []);
      EarlyReport(b, h, g + [t[0]], t[1..]);
      NoAtomsFirst(NameBytes(h), Buffer(b, Field(g + [t[0]]), t[1..]));
    } else {
      assert h == [] && g == [];
      NothingEarly(Buffer(b, Field(g), t));
    }
  }

  lemma NoAtomsFirst(a: seq<Atom>, p: Progress)
    ensures Then(1, [], Then(0, a, p)) == Then(0, a, Then(1, [], p))
  {
    assert [] + (a + p.atoms) == a + ([] + p.atoms);
  }

  lemma NothingEarly(p: Progress)
    ensures Then(0, NameBytes([]), p) == p
  {
    assert NameBytes([]) + p.atoms == p.atoms;
  }

  lemma {:induction false} DropsInPrefix(b: bytes, mode: Mode, s: bytes, t: bytes)
    requires !DropsName(b, mode, s + t)
    ensures !DropsName(b, mode, s)
    ensures Run(b, mode, s).consumed == |s| ==> !DropsName(b, Run(b, mode, s).mode, t)
    decreases |s|
  {
    if s == [] {
      assert s + t == t;
    } else {
      assert (s + t)[1..] == s[1..] + t;
      var move := Step(b, mode, s[0]);
      if move.To? { DropsInPrefix(b, move.mode, s[1..], t); }
    }
  }

  lemma FlushThen(k: nat, atoms: seq<Atom>, p: Progress)
    ensures Flush(Then(k, atoms, p)) == Then(k, atoms, Flush(p))
  {
    if p.mode.Field? { Regroup(atoms, p.atoms, NameBytes(p.mode.held)); }
  }

  /** Running on from an accepted first piece. */
  lemma BufferApp(b: bytes, mode: Mode, s: bytes, t: bytes, p: Progress)
    requires p == Run(b, mode, s)
    ensures p.consumed < |s| ==> Buffer(b, mode, s + t) == p
    ensures p.consumed == |s| ==> Buffer(b, mode, s + t) == Then(|s|, p.atoms, Buffer(b, p.mode, t))
  {
    RunApp(b, mode, s, t);
    RunApp(b, p.mode, t, []);
    FlushThen(|s|, p.atoms, Run(b, p.mode, t));
  }

  /** A cut at which no name is lost. */
  lemma CutChangesNothing(b: bytes, mode: Mode, s: bytes, t: bytes, p: Progress)
    requires p == Run(b, mode, s) && p.consumed == |s| && !DropsName(b, mode, s + t)
    ensures Buffer(b, mode, s + t) == Then(|s|, Flush(p).atoms, Buffer(b, Flush(p).mode, t))
  {
    BufferApp(b, mode, s, t, p);
    DropsInPrefix(b, mode, s, t);
    if p.mode.Field? {
      var h := p.mode.held;
      assert h + [] == h;
      EarlyReport(b, h, [], t);
      ThenThen(|s|, p.atoms, 0, NameBytes(h), Buffer(b, Field([]), t));
    }
  }

  lemma BuffersSnoc(b: bytes, init: seq<bytes>, last: bytes, p: Progress)
    requires p == Buffers(b, init)
    ensures Joined(init + [last]) == Joined(init) + last
    ensures Buffers(b, init + [last]) ==
              if p.consumed == |Joined(init)| then Then(p.consumed, p.atoms, Buffer(b, p.mode, last)) else p
  {
    assert (init + [last])[..|init|] == init;
  }

  /** If every begun name reaches its colon, all cuts of a body give the same reports. */
  lemma {:induction false} CutsDoNotMatter(b: bytes, chunks: seq<bytes>)
    requires !DropsName(b, Opening(0), Joined(chunks))
    ensures Buffers(b, chunks) == Buffer(b, Opening(0), Joined(chunks))
  {
    if chunks != [] {
      var init, last := chunks[..|chunks| - 1], chunks[|chunks| - 1];
      var s := Joined(init);
      assert chunks == init + [last];
      DropsInPrefix(b, Opening(0), s, last);
      CutsDoNotMatter(b, init);
      BuffersSnoc(b, init, last, Buffers(b, init));
      var p := Run(b, Opening(0), s);
      RunApp(b, Opening(0), s, []);
      if p.consumed == |s| {
        CutChangesNothing(b, Opening(0), s, last, p);
      } else {
        BufferApp(b, Opening(0), s, last, p);
      }
    }
  }

  // ----- names that do not -----

  /** Just before a name is dropped. */
  lemma {:induction false} BeforeTheDrop(b: bytes, mode: Mode, s: bytes) returns (u: bytes, v: bytes, h: bytes)
    requires DropsName(b, mode, s)
    ensures s == u + v && v != [] && h != []
    ensures Run(b, mode, u).consumed == |u| && Run(b, mode, u).mode == Field(h)
    ensures Step(b, Field(h), v[0]).Reject? || Step(b, Field(h), v[0]).mode.HeadersAlmostDone?
    decreases |s|
  {
    var move := Step(b, mode, s[0]);
    if mode.Field? && mode.held != [] && (move.Reject? || move.mode.HeadersAlmostDone?) {
      u, v, h := [], s, mode.held;
      assert s == [] + s;
    } else {
      var rest;
      rest, v, h := BeforeTheDrop(b, move.mode, s[1..]);
      u := [s[0]] + rest;
      assert u[1..] == rest && s == u + v;
    }
  }

  /** Where a name is dropped, nothing later depends on it. */
  lemma DroppedIsForgotten(b: bytes, h: bytes, v: bytes)
    requires v != [] && (Step(b, Field(h), v[0]).Reject? || Step(b, Field(h), v[0]).mode.HeadersAlmostDone?)
    ensures Buffer(b, Field(h), v).atoms == Buffer(b, Field([]), v).atoms
  {
    var n := Step(b, Field(h), v[0]);
    if n.To? {
      ThenBuffer(b, Field(h), v, n.mode, []);
      ThenBuffer(b, Field([]), v, n.mode, []);
    }
  }

  /** Cut there, the body's name is reported; uncut, it is not. */
  lemma CutBeforeTheDrop(b: bytes, s: bytes) returns (u: bytes, v: bytes)
    requires DropsName(b, Opening(0), s)
    ensures u + v == s && |Buffers(b, [u, v]).atoms| > |Buffer(b, Opening(0), s).atoms|
  {
    var h;
    u, v, h := BeforeTheDrop(b, Opening(0), s);
    var p := Run(b, Opening(0), u);
    BufferApp(b, Opening(0), u, v, p);
    DroppedIsForgotten(b, h, v);
    FirstBuffer(b, u);
    BuffersSnoc(b, [u], v, Buffers(b, [u]));
    assert [u] + [v] == [u, v];
  }

  lemma FirstBuffer(b: bytes, u: bytes)
    ensures Joined([u]) == u && Buffers(b, [u]) == Buffer(b, Opening(0), u)
  {
    var none: seq<bytes> := [];
    BuffersSnoc(b, none, u, Buffers(b, none));
    assert none + [u] == [u];
    var p := Buffer(b, Opening(0), u);
    assert [] + p.atoms == p.atoms && Joined(none) + u == u;
  }

  predicate CutsMatter(b: bytes, chunks: seq<bytes>) {
    Buffers(b, chunks).atoms != Buffer(b, Opening(0), Joined(chunks)).atoms
  }

  /** All cuts of a body give the same reports exactly when every begun header name reaches its colon. */
  lemma CutsMatterIffNameDropped(b: bytes, s: bytes)
    ensures (exists chunks :: Joined(chunks) == s && CutsMatter(b, chunks)) <==> DropsName(b, Opening(0), s)
  {
    if DropsName(b, Opening(0), s) {
      var u, v := CutBeforeTheDrop(b, s);
      FirstBuffer(b, u);
      BuffersSnoc(b, [u], v, Buffers(b, [u]));
      assert [u] + [v] == [u, v];
      assert Joined([u, v]) == s && CutsMatter(b, [u, v]);
    } else {
      forall chunks | Joined(chunks) == s ensures !CutsMatter(b, chunks) { CutsDoNotMatter(b, chunks); }
    }
  }

  /** The boundary "x" and a header line "a" without a colon: cut before its end it is reported, uncut it is not. */
  lemma NameWithoutColon()
    ensures Buffers([120], [[120, 13, 10, 97, 13]]).atoms == [Begin]
    ensures Buffers([120], [[120, 13, 10, 97], [13]]).atoms == [Begin, NameByte(97)]
  {
    var b: bytes, u: bytes, v: bytes := [120], [120, 13, 10, 97], [13];
    OpeningOfX(b, u);
    UncutName(b, u, v);
    assert u + v == [120, 13, 10, 97, 13];
    FirstBuffer(b, u + v);
    CutName(b, u, v);
  }

  lemma UncutName(b: bytes, u: bytes, v: bytes)
    requires Run(b, Opening(0), u) == Progress(|u|, Field([97]), [Begin]) && v == [13]
    ensures Buffer(b, Opening(0), u + v).atoms == [Begin]
  {
    BufferApp(b, Opening(0), u, v, Run(b, Opening(0), u));
    LoneCr(b, [97], v);
    assert [Begin] + [] == [Begin];
  }

  lemma CutName(b: bytes, u: bytes, v: bytes)
    requires Run(b, Opening(0), u) == Progress(|u|, Field([97]), [Begin]) && v == [13]
    ensures Buffers(b, [u, v]).atoms == [Begin, NameByte(97)]
  {
    FirstBuffer(b, u);
    BuffersSnoc(b, [u], v, Buffers(b, [u]));
    assert [u] + [v] == [u, v];
    LoneCr(b, [], v);
    assert NameBytes([97]) == [NameByte(97)];
    assert [Begin] + [NameByte(97)] + [] == [Begin, NameByte(97)];
  }

  lemma LoneCr(b: bytes, h: bytes, v: bytes)
    requires v == [13]
    ensures Buffer(b, Field(h), v) == Progress(1, HeadersAlmostDone, [])
  {
    ThenBuffer(b, Field(h), v, HeadersAlmostDone, []);
    assert v[1..] == [];
  }

  lemma OneByte(b: bytes, mode: Mode, s: bytes, c: byte, rest: bytes, next: Mode, atoms: seq<Atom>, p: Progress)
    requires s == [c] + rest && Step(b, mode, c) == To(next, atoms) && p == Run(b, next, rest)
    ensures Run(b, mode, s) == Then(1, atoms, p)
  {
    assert s[1..] == rest;
  }

  lemma OpeningOfX(b: bytes, u: bytes)
    requires b == [120] && u == [120, 13, 10, 97]
    ensures Run(b, Opening(0), u) == Progress(4, Field([97]), [Begin])
  {
    var name: bytes := [97];
    assert [] + name == name;
    OneByte(b, Field([]), name, 97, [], Field([97]), [], Progress(0, Field([97]), []));
    OneByte(b, Opening(2), [10, 97], 10, [97], Field([]), [Begin], Progress(1, Field([97]), []));
    OneByte(b, Opening(1), [13, 10, 97], 13, [10, 97], Opening(2), [], Progress(2, Field([97]), [Begin]));
    OneByte(b, Opening(0), u, 120, [13, 10, 97], Opening(1), [], Progress(3, Field([97]), [Begin]));
  }

  // ----- everything but names -----

  function Unnamed(atoms: seq<Atom>): seq<Atom> {
    if atoms == [] then []
    else (if atoms[0].NameByte? then [] else [atoms[0]]) + Unnamed(atoms[1..])
  }

  function Bare(mode: Mode): Mode { if mode.Field? then Field([]) else mode }

  /** The same bytes accepted, and the same reports but for header names. */
  ghost predicate Alike(p: Progress, q: Progress) {
    p.consumed == q.consumed && Bare(p.mode) == Bare(q.mode) && Unnamed(p.atoms) == Unnamed(q.atoms)
  }

  lemma {:induction false} UnnamedApp(a: seq<Atom>, c: seq<Atom>)
    ensures Unnamed(a + c) == Unnamed(a) + Unnamed(c)
  {
    if a == [] {
      assert a + c == c;
    } else {
      assert (a + c)[1..] == a[1..] + c;
      UnnamedApp(a[1..], c);
    }
  }

  lemma {:induction false} NamesAreUnnamed(s: bytes)
    ensures Unnamed(NameBytes(s)) == []
  {
    if s != [] {
      assert NameBytes(s)[1..] == NameBytes(s[1..]);
      NamesAreUnnamed(s[1..]);
    }
  }

  lemma ThenAlike(k: nat, a: seq<Atom>, c: seq<Atom>, p: Progress, q: Progress)
    requires Alike(p, q) && Unnamed(a) == Unnamed(c)
    ensures Alike(Then(k, a, p), Then(k, c, q))
  {
    UnnamedApp(a, p.atoms);
    UnnamedApp(c, q.atoms);
  }

  /** What is held of a name only matters for the names reported. */
  lemma {:induction false} HeldIsAlike(b: bytes, h: bytes, g: bytes, t: bytes)
    ensures Alike(Buffer(b, Field(h), t), Buffer(b, Field(g), t))
    decreases |t|
  {
    NamesAreUnnamed(h);
    NamesAreUnnamed(g);
    if t == [] {
      assert [] + NameBytes(h) == NameBytes(h) && [] + NameBytes(g) == NameBytes(g);
    } else if t[0] == COLON {
      ThenBuffer(b, Field(h), t, ValueStart, NameBytes(h));
      ThenBuffer(b, Field(g), t, ValueStart, NameBytes(g));
      ThenAlike(1, NameBytes(h), NameBytes(g), Buffer(b, ValueStart, t[1..]), Buffer(b, ValueStart, t[1..]));
    } else if IsNameByte(t[0]) {
      ThenBuffer(b, Field(h), t, Field(h + [t[0]]), []);
      ThenBuffer(b, Field(g), t, Field(g + [t[0]]), []);
      HeldIsAlike(b, h + [t[0]], g + [t[0]], t[1..]);
      ThenAlike(1, [], [], Buffer(b, Field(h + [t[0]]), t[1..]), Buffer(b, Field(g + [t[0]]), t[1..]));
    } else if t[0] == CR {
      ThenBuffer(b, Field(h), t, HeadersAlmostDone, []);
      ThenBuffer(b, Field(g), t, HeadersAlmostDone, []);
    }
  }

  lemma CutIsAlike(b: bytes, mode: Mode, s: bytes, t: bytes, p: Progress)
    requires p == Run(b, mode, s) && p.consumed == |s|
    ensures Alike(Then(|s|, Flush(p).atoms, Buffer(b, Flush(p).mode, t)), Buffer(b, mode, s + t))
  {
    BufferApp(b, mode, s, t, p);
    if p.mode.Field? {
      var h := p.mode.held;
      HeldIsAlike(b, [], h, t);
      NamesAreUnnamed(h);
      UnnamedApp(p.atoms, NameBytes(h));
      assert Unnamed(p.atoms) + [] == Unnamed(p.atoms);
      ThenAlike(|s|, Flush(p).atoms, p.atoms, Buffer(b, Field([]), t), Buffer(b, Field(h), t));
    }
  }

  lemma BareBuffer(b: bytes, m: Mode, n: Mode, t: bytes)
    requires Bare(m) == Bare(n)
    ensures Alike(Buffer(b, m, t), Buffer(b, n, t))
  {
    if m.Field? { HeldIsAlike(b, m.held, n.held, t); }
  }

  /** Apart from header names, all cuts of any body give the same reports and accept the same bytes. */
  lemma {:induction false} OnlyNamesDependOnCuts(b: bytes, chunks: seq<bytes>)
    ensures Alike(Buffers(b, chunks), Buffer(b, Opening(0), Joined(chunks)))
  {
    if chunks != [] {
      var init, last := chunks[..|chunks| - 1], chunks[|chunks| - 1];
      var s := Joined(init);
      assert chunks == init + [last];
      OnlyNamesDependOnCuts(b, init);
      var q, p := Buffers(b, init), Run(b, Opening(0), s);
      BuffersSnoc(b, init, last, q);
      RunApp(b, Opening(0), s, []);
      if p.consumed == |s| {
        CutIsAlike(b, Opening(0), s, last, p);
        BareBuffer(b, q.mode, Flush(p).mode, last);
        ThenAlike(|s|, q.atoms, Flush(p).atoms, Buffer(b, q.mode, last), Buffer(b, Flush(p).mode, last));
      } else {
        BufferApp(b, Opening(0), s, last, p);
      }
    }
  }
}
