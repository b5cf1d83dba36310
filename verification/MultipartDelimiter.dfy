/**
 When does the parser find the end of a part? It matches CR LF boundary with a single
 restart at the byte that failed, and no failure table. This never reports a delimiter
 that is not there, and it finds every delimiter that is there exactly when each
 carriage return inside the boundary starts a tail that is a prefix of the delimiter
 (so in particular when the boundary has none).
 */
module MultipartDelimiter {
  import opened MultipartMachine
  import opened MultipartChunking

  function Delimiter(bd: bytes): bytes {
    [CR, LF] + bd
  }

  ghost predicate OccursAt(d: bytes, w: bytes, p: nat) {
    p + |d| <= |w| && w[p..p + |d|] == d
  }

  ghost predicate Occurs(d: bytes, w: bytes) {
    exists p :: OccursAt(d, w, p)
  }

  lemma OccursInPrefix(d: bytes, w: bytes, n: nat, p: nat)
    requires n <= |w| && OccursAt(d, w[..n], p)
    ensures OccursAt(d, w, p)
  {
    assert w[p..p + |d|] == w[..n][p..p + |d|];
  }

  predicate Restartable(bd: bytes) {
    forall j :: 0 <= j < |bd| && bd[j] == CR ==> bd[j..] <= Delimiter(bd)
  }

  /** The start of part data, after the empty line. */
  function AtData(index: nat): Core {
    Core(PartDataStart, index)
  }

  predicate Scanning(q: Core) {
    q.state in {PartDataStart, PartData, PartDataAlmostBoundary, PartDataBoundary}
  }

  const EndOfPart := Notice(OnPartDataEnd)

  /** What is told of `u` while `held` bytes at its end are undecided. */
  function Scanned(u: bytes, held: nat): seq<Tok>
    requires held <= |u|
  {
    if u == [] then [] else [Notice(OnHeadersComplete)] + DataToks(u[..|u| - held])
  }

  /** Told data and undecided bytes together are all of `u`; the undecided ones begin a delimiter. */
  predicate Kept(bd: bytes, u: bytes, r: Read) {
    var h := Held(bd, r.core);
    && r.ok && Scanning(r.core)
    && (r.core.state == PartDataStart <==> u == [])
    && (r.core.state == PartDataBoundary ==> r.core.index < |bd|)
    && |h| <= |u| && u[|u| - |h|..] == h
    && h <= Delimiter(bd) && |h| < |Delimiter(bd)|
    && r.toks == Scanned(u, |h|)
  }

  lemma ReadSnoc(bd: bytes, q: Core, u: bytes, c: byte)
    requires ReadAll(bd, q, u).ok
    ensures var r, s := ReadAll(bd, q, u), Read1(bd, ReadAll(bd, q, u).core, c);
            && ReadAll(bd, q, u + [c]).toks == r.toks + s.toks
            && ReadAll(bd, q, u + [c]).core == s.core
            && ReadAll(bd, q, u + [c]).ok == s.ok
            && (s.ok ==> ReadAll(bd, q, u + [c]).count == |u| + 1)
  {
    ReadConcat(bd, q, u, [c]);
    var r, s := ReadAll(bd, q, u), Read1(bd, ReadAll(bd, q, u).core, c);
    assert ReadAll(bd, r.core, [c]).toks == s.toks + [] == s.toks;
  }

  predicate Settled(bd: bytes, q: Core) {
    Scanning(q) && (q.state == PartDataBoundary ==> q.index < |bd|)
  }

  /** The undecided bytes after one more: the match grows, or starts afresh at `c`. */
  function Grown(bd: bytes, h: bytes, c: byte): bytes
    requires |h| < |Delimiter(bd)|
  {
    if Delimiter(bd)[|h|] == c then h + [c] else if c == CR then [CR] else []
  }

  lemma HeldPrefix(bd: bytes, q: Core)
    requires Settled(bd, q) && 0 < |bd|
    ensures Held(bd, q) <= Delimiter(bd) && |Held(bd, q)| < |Delimiter(bd)|
  {
  }

  lemma ScanStep(bd: bytes, q: Core, c: byte)
    requires Settled(bd, q) && 0 < |bd|
    ensures var h, d, s := Held(bd, q), Delimiter(bd), Read1(bd, q, c);
            var pre := if q.state == PartDataStart then [Notice(OnHeadersComplete)] else [];
            && |h| < |d| && s.ok
            && if h + [c] == d then s.core == Core(PartDataAlmostEnd, |bd|) && s.toks == [EndOfPart]
               else
                 && Settled(bd, s.core) && s.core.state != PartDataStart
                 && Held(bd, s.core) == Grown(bd, h, c)
                 && s.toks == pre + if d[|h|] == c then []
                                    else if c == CR then DataToks(h) else DataToks(h) + [DataTok(c)]
  {
    HeldPrefix(bd, q);
    var h, d, s := Held(bd, q), Delimiter(bd), Read1(bd, q, c);
    assert DataToks([]) == [];
    if q.state == PartDataBoundary {
      assert d[|h|] == bd[q.index];
      assert h == [CR, LF] + bd[..q.index];
      if bd[q.index] == c {
        assert h + [c] == [CR, LF] + bd[..q.index + 1];
        if q.index + 1 == |bd| {
          assert h + [c] == d;
        }
      }
    }
  }

  lemma ScannedSnoc(u: bytes, c: byte, h: nat, h': nat)
    requires h <= |u| && h' <= |u| + 1
    ensures h' == h + 1 && u != [] ==> Scanned(u + [c], h') == Scanned(u, h)
    ensures h' <= 1 && u != [] ==>
              Scanned(u + [c], h') == Scanned(u, h) + DataToks(u[|u| - h..]) + (if h' == 1 then [] else [DataTok(c)])
    ensures h' <= 1 && u == [] ==>
              Scanned(u + [c], h') == [Notice(OnHeadersComplete)] + if h' == 1 then [] else [DataTok(c)]
  {
    hide DataToks;
    var u' := u + [c];
    OneDataTok(c);
    if h' == h + 1 {
      assert u'[..|u'| - h'] == u[..|u| - h];
    }
    if h' <= 1 {
      var told, held := u[..|u| - h], u[|u| - h..];
      assert told + held == u;
      assert u'[..|u'| - h'] == if h' == 1 then u else u';
      DataToksConcat(told, held);
      DataToksConcat(u, [c]);
    }
  }

  lemma DataToksConcat(a: bytes, b: bytes)
    ensures DataToks(a + b) == DataToks(a) + DataToks(b)
  {
  }

  lemma OneDataTok(c: byte)
    ensures DataToks([]) == [] && DataToks([c]) == [DataTok(c)]
  {
  }

  /** One byte more of part data. */
  lemma KeptSnoc(bd: bytes, q: Core, u: bytes, c: byte)
    requires 0 < |bd| && Kept(bd, u, ReadAll(bd, q, u))
    ensures var r, r' := ReadAll(bd, q, u), ReadAll(bd, q, u + [c]);
            var h, d := Held(bd, r.core), Delimiter(bd);
            if h + [c] == d then
              r' == Read(Core(PartDataAlmostEnd, |bd|), Scanned(u + [c], |d|) + [EndOfPart], |u| + 1, true)
            else
              Kept(bd, u + [c], r') && Held(bd, r'.core) == Grown(bd, h, c)
  {
    hide Read1, ReadAll, Held, DataToks;
    var r := ReadAll(bd, q, u);
    var h, d, s := Held(bd, r.core), Delimiter(bd), Read1(bd, r.core, c);
    ReadSnoc(bd, q, u, c);
    ScanStep(bd, r.core, c);
    if h + [c] == d {
      ScannedMatch(u, c, |h|);
    } else {
      KeptGrown(bd, u, h, c);
      ScannedGrown(bd, u, h, c);
      assert r.toks + s.toks == Scanned(u + [c], |Grown(bd, h, c)|);
    }
  }

  lemma ScannedMatch(u: bytes, c: byte, h: nat)
    requires 1 <= h <= |u|
    ensures Scanned(u + [c], h + 1) == Scanned(u, h)
  {
    ScannedSnoc(u, c, h, h + 1);
  }

  lemma ScannedGrown(bd: bytes, u: bytes, h: bytes, c: byte)
    requires |h| <= |u| && u[|u| - |h|..] == h && |h| < |Delimiter(bd)|
    ensures var pre := if u == [] then [Notice(OnHeadersComplete)] else [];
            |Grown(bd, h, c)| <= |u| + 1 &&
            Scanned(u + [c], |Grown(bd, h, c)|) ==
            Scanned(u, |h|) + (pre + if Delimiter(bd)[|h|] == c then []
                                     else if c == CR then DataToks(h) else DataToks(h) + [DataTok(c)])
  {
    hide Scanned, DataToks;
    ScannedSnoc(u, c, |h|, |Grown(bd, h, c)|);
    OneDataTok(c);
    NothingScanned(h);
  }

  lemma NothingScanned(h: bytes)
    ensures Scanned([], 0) == [] && (h == [] ==> DataToks(h) == [])
  {
  }

  lemma KeptGrown(bd: bytes, u: bytes, h: bytes, c: byte)
    requires |h| <= |u| && u[|u| - |h|..] == h && h <= Delimiter(bd) && |h| < |Delimiter(bd)|
    ensures var h', u' := Grown(bd, h, c), u + [c];
            |h'| <= |u'| && u'[|u'| - |h'|..] == h' && h' <= Delimiter(bd)
  {
    var d, u' := Delimiter(bd), u + [c];
    assert u == u[..|u| - |h|] + h;
    if d[|h|] == c {
      assert u' == u[..|u| - |h|] + (h + [c]);
      assert h + [c] == d[..|h| + 1];
    } else if c == CR {
      assert u'[|u|..] == [CR];
    } else {
      assert u'[|u'|..] == [];
    }
  }

  lemma KeptTellsNoEnd(bd: bytes, u: bytes, r: Read)
    requires Kept(bd, u, r)
    ensures EndOfPart !in r.toks
  {
  }

  lemma MatchOccurs(d: bytes, u: bytes, h: bytes, c: byte)
    requires |h| <= |u| && u[|u| - |h|..] == h && h + [c] == d
    ensures OccursAt(d, u + [c], |u| - |h|)
  {
    var u', p := u + [c], |u| - |h|;
    assert u'[p..p + |d|] == u[p..] + [c];
  }

  lemma OccursSnoc(d: bytes, u: bytes, c: byte)
    ensures Occurs(d, u) ==> Occurs(d, u + [c])
  {
    if Occurs(d, u) {
      var p: nat :| OccursAt(d, u, p);
      assert (u + [c])[p..p + |d|] == u[p..p + |d|];
      assert OccursAt(d, u + [c], p);
    }
  }

  /** Part data is still being scanned, or a delimiter has been read and reported. */
  lemma {:induction false} ScansOrEnds(bd: bytes, index: nat, u: bytes)
    requires 0 < |bd|
    ensures var r := ReadAll(bd, AtData(index), u);
            || (Kept(bd, u, r) && EndOfPart !in r.toks)
            || (Occurs(Delimiter(bd), u) && EndOfPart in r.toks)
    decreases |u|
  {
    hide Read1, DataToks;
    var q, d := AtData(index), Delimiter(bd);
    if u == [] {
      assert u[0..] == [];
    } else {
      var u', c := u[..|u| - 1], u[|u| - 1];
      assert u == u' + [c];
      ScansOrEnds(bd, index, u');
      var r := ReadAll(bd, q, u');
      var h := Held(bd, r.core);
      if !Kept(bd, u', r) {
        OccursSnoc(d, u', c);
        ReadConcat(bd, q, u', [c]);
      } else {
        KeptSnoc(bd, q, u', c);
        if h + [c] == d {
          MatchOccurs(d, u', h, c);
          assert EndOfPart in Scanned(u, |d|) + [EndOfPart];
        } else {
          KeptTellsNoEnd(bd, u, ReadAll(bd, q, u));
        }
      }
    }
  }

  /** A delimiter could still begin at `s`: nothing from there on speaks against it. */
  ghost predicate Viable(d: bytes, u: bytes, s: nat) {
    forall t :: 0 <= t < |d| && s + t < |u| ==> u[s + t] == d[t]
  }

  /** Restarting only at the byte that failed loses no delimiter: one beginning `k` bytes
      into what was held would already have failed somewhere. */
  lemma RestartLosesNothing(bd: bytes, h: bytes, c: byte, k: nat) returns (t: nat)
    requires Restartable(bd)
    requires h <= Delimiter(bd) && |h| < |Delimiter(bd)|
    requires k < |h| + 1 - |Grown(bd, h, c)|
    ensures t <= |h| - k && (h[k..] + [c])[t] != Delimiter(bd)[t]
  {
    var d := Delimiter(bd);
    assert d[|h|] != c && h == d[..|h|];
    if k == 0 {
      t := |h|;
    } else if k == |h| {
      t := 0;
    } else if h[k..] == d[..|h| - k] {
      assert d[k] == h[k] == h[k..][0] == CR;
      assert bd[k - 2] == CR && bd[k - 2..] == d[k..];
      assert d[|h|] == d[k..][|h| - k] == d[|h| - k];
      t := |h| - k;
    } else {
      t :| 0 <= t < |h| - k && h[k..][t] != d[..|h| - k][t];
    }
  }

  /** No delimiter can still begin before the last `held` bytes of `u`. */
  ghost predicate NoneBefore(d: bytes, u: bytes, held: nat) {
    forall s :: 0 <= s < |u| - held ==> !Viable(d, u, s)
  }

  lemma NoneBeforeSnoc(bd: bytes, u: bytes, h: bytes, c: byte)
    requires Restartable(bd)
    requires |h| <= |u| && u[|u| - |h|..] == h && h <= Delimiter(bd) && |h| < |Delimiter(bd)|
    requires NoneBefore(Delimiter(bd), u, |h|)
    ensures NoneBefore(Delimiter(bd), u + [c], |Grown(bd, h, c)|)
  {
    var d, u' := Delimiter(bd), u + [c];
    forall s | 0 <= s < |u'| - |Grown(bd, h, c)|
      ensures !Viable(d, u', s)
    {
      if s < |u| - |h| {
        assert !Viable(d, u, s);
        var t :| 0 <= t < |d| && s + t < |u| && u[s + t] != d[t];
        assert u'[s + t] != d[t];
      } else {
        var k := s - (|u| - |h|);
        var t := RestartLosesNothing(bd, h, c, k);
        assert u' == u[..|u| - |h|] + (h + [c]);
        assert u'[s + t] == (h + [c])[k + t] == (h[k..] + [c])[t];
      }
    }
  }

  /** No delimiter begins in what has been told as data. */
  lemma {:induction false} NothingMissed(bd: bytes, index: nat, u: bytes)
    requires 0 < |bd| && Restartable(bd)
    requires Kept(bd, u, ReadAll(bd, AtData(index), u))
    ensures NoneBefore(Delimiter(bd), u, |Held(bd, ReadAll(bd, AtData(index), u).core)|)
    decreases |u|
  {
    hide Read1, DataToks, Scanned;
    if u != [] {
      var u', c := u[..|u| - 1], u[|u| - 1];
      var r, r' := ReadAll(bd, AtData(index), u), ReadAll(bd, AtData(index), u');
      assert u == u' + [c];
      KeptBefore(bd, index, u', c);
      NothingMissed(bd, index, u');
      KeptSnoc(bd, AtData(index), u', c);
      NoneBeforeSnoc(bd, u', Held(bd, r'.core), c);
    }
  }

  lemma {:induction false} KeptBefore(bd: bytes, index: nat, u: bytes, c: byte)
    requires 0 < |bd| && Kept(bd, u + [c], ReadAll(bd, AtData(index), u + [c]))
    ensures Kept(bd, u, ReadAll(bd, AtData(index), u))
  {
    ReadConcat(bd, AtData(index), u, [c]);
    ScansOrEnds(bd, index, u);
    KeptTellsNoEnd(bd, u + [c], ReadAll(bd, AtData(index), u + [c]));
  }

  /** Just before the first delimiter is complete, all of it but its last byte is undecided. */
  lemma AllButLast(bd: bytes, index: nat, w: bytes, p: nat)
    requires 0 < |bd| && Restartable(bd)
    requires OccursAt(Delimiter(bd), w, p)
    requires forall p' :: 0 <= p' < p ==> !OccursAt(Delimiter(bd), w, p')
    ensures var d := Delimiter(bd);
            var u := w[..p + |d| - 1];
            var r := ReadAll(bd, AtData(index), u);
            Kept(bd, u, r) && Held(bd, r.core) == d[..|d| - 1]
  {
    hide Read1, ReadAll, DataToks, Scanned;
    var d := Delimiter(bd);
    var n := p + |d|;
    var u := w[..n - 1];
    forall p': nat | OccursAt(d, u, p')
      ensures OccursAt(d, w, p')
    {
      OccursInPrefix(d, w, n - 1, p');
    }
    ScansOrEnds(bd, index, u);
    NothingMissed(bd, index, u);
    var h := Held(bd, ReadAll(bd, AtData(index), u).core);
    forall t | 0 <= t < |d| && p + t < |u|
      ensures u[p + t] == d[t]
    {
      assert w[p..n][t] == d[t];
    }
    assert Viable(d, u, p);
    assert |h| == |d| - 1;
  }

  /** The end of the part is reported at the first delimiter, with all data before it told. */
  lemma FirstDelimiter(bd: bytes, index: nat, w: bytes, p: nat)
    requires 0 < |bd| && Restartable(bd)
    requires OccursAt(Delimiter(bd), w, p)
    requires forall p' :: 0 <= p' < p ==> !OccursAt(Delimiter(bd), w, p')
    ensures var n := p + |Delimiter(bd)|;
            ReadAll(bd, AtData(index), w[..n]) ==
            Read(Core(PartDataAlmostEnd, |bd|),
                 [Notice(OnHeadersComplete)] + DataToks(w[..p]) + [EndOfPart], n, true)
  {
    hide Read1, ReadAll, Held, DataToks;
    var d := Delimiter(bd);
    var n := p + |d|;
    var u, c := w[..n - 1], w[n - 1];
    assert w[..n] == u + [c];
    AllButLast(bd, index, w, p);
    assert c == w[p..n][|d| - 1];
    assert d[..|d| - 1] + [c] == d;
    KeptSnoc(bd, AtData(index), u, c);
    assert w[..n][..p] == w[..p];
  }

  // ----- boundaries for which delimiters are lost

  /** The least place where `d` disagrees with itself moved by `k`. */
  lemma FirstDisagreement(d: bytes, k: nat) returns (l: nat)
    requires k < |d| && !(d[k..] <= d)
    ensures k <= l < |d| && d[l] != d[l - k] && d[k..l] == d[..l - k]
  {
    l := k;
    while d[l] == d[l - k]
      invariant k <= l < |d| && d[k..l] == d[..l - k]
      decreases |d| - l
    {
      assert d[k..l + 1] == d[k..l] + [d[l]] && d[..l + 1 - k] == d[..l - k] + [d[l - k]];
      l := l + 1;
    }
  }

  /** A beginning of a delimiter is held, byte for byte. */
  lemma {:induction false} BeginningHeld(bd: bytes, index: nat, l: nat)
    requires 0 < |bd| && l < |Delimiter(bd)|
    ensures var u := Delimiter(bd)[..l];
            var r := ReadAll(bd, AtData(index), u);
            Kept(bd, u, r) && Held(bd, r.core) == u
  {
    var d := Delimiter(bd);
    if l == 0 {
      assert d[..0] == [];
    } else {
      BeginningHeld(bd, index, l - 1);
      assert d[..l] == d[..l - 1] + [d[l - 1]];
      KeptSnoc(bd, AtData(index), d[..l - 1], d[l - 1]);
    }
  }

  /** Fewer bytes than a delimiter lacks cannot complete one. */
  lemma {:induction false} TooShortToEnd(bd: bytes, q: Core, v: bytes)
    requires 0 < |bd| && Settled(bd, q)
    requires |Held(bd, q)| + |v| < |Delimiter(bd)|
    ensures EndOfPart !in ReadAll(bd, q, v).toks
    decreases |v|
  {
    hide Read1;
    if v != [] {
      ScanStep(bd, q, v[0]);
      var s := Read1(bd, q, v[0]);
      TooShortToEnd(bd, s.core, v[1..]);
    }
  }

  /** A delimiter that begins `k` bytes into a beginning of a delimiter of length `l`. */
  lemma Overlapping(d: bytes, k: nat, l: nat)
    requires 0 < k < l < |d| && d[k..l] == d[..l - k]
    ensures OccursAt(d, d[..l] + [d[l - k]] + d[l - k + 1..], k)
  {
    var c, v := d[l - k], d[l - k + 1..];
    var w := d[..l] + [c] + v;
    assert d == d[..l - k] + [c] + v;
    assert w[k..] == d[k..l] + [c] + v;
    assert w[k..k + |d|] == w[k..];
  }

  /** A byte that does not fit a beginning of length `l` leaves at most itself undecided. */
  lemma Restarts(bd: bytes, index: nat, l: nat, c: byte)
    requires 0 < |bd| && l < |Delimiter(bd)| && Delimiter(bd)[l] != c
    ensures var r := ReadAll(bd, AtData(index), Delimiter(bd)[..l] + [c]);
            r.ok && Settled(bd, r.core) && |Held(bd, r.core)| <= 1 && EndOfPart !in r.toks
  {
    hide Read1, ReadAll, Scanned, DataToks, Held;
    var u := Delimiter(bd)[..l];
    BeginningHeld(bd, index, l);
    KeptSnoc(bd, AtData(index), u, c);
    KeptTellsNoEnd(bd, u + [c], ReadAll(bd, AtData(index), u + [c]));
  }

  /** After a beginning of length `l` the byte `c` starts afresh, and `v` is too short. */
  lemma Overlooked(bd: bytes, index: nat, l: nat, c: byte, v: bytes)
    requires 0 < |bd| && l < |Delimiter(bd)| && Delimiter(bd)[l] != c
    requires |v| + 1 < |Delimiter(bd)|
    ensures EndOfPart !in ReadAll(bd, AtData(index), Delimiter(bd)[..l] + [c] + v).toks
  {
    hide Read1, ReadAll, Held;
    var u := Delimiter(bd)[..l] + [c];
    Restarts(bd, index, l, c);
    TooShortToEnd(bd, ReadAll(bd, AtData(index), u).core, v);
    ReadConcat(bd, AtData(index), u, v);
  }

  /** A delimiter that goes by unreported, for a boundary that is not restartable. */
  lemma LostDelimiter(bd: bytes, index: nat) returns (w: bytes)
    requires 0 < |bd| && !Restartable(bd)
    ensures Occurs(Delimiter(bd), w) && EndOfPart !in ReadAll(bd, AtData(index), w).toks
  {
    var d := Delimiter(bd);
    var j :| 0 <= j < |bd| && bd[j] == CR && !(bd[j..] <= d);
    var k := j + 2;
    assert d[k..] == bd[j..];
    var l := FirstDisagreement(d, k);
    assert d[k] == d[0] == CR;
    Overlapping(d, k, l);
    Overlooked(bd, index, l, d[l - k], d[l - k + 1..]);
    w := d[..l] + [d[l - k]] + d[l - k + 1..];
  }

  /** There are such boundaries. */
  lemma NotRestartable()
    ensures !Restartable([CR, CR])
  {
    var bd := [CR, CR];
    assert bd[0..][1] == CR && Delimiter(bd)[1] == LF;
  }

  lemma OccurrenceEnds(bd: bytes, index: nat, w: bytes, p: nat)
    requires 0 < |bd| && Restartable(bd) && OccursAt(Delimiter(bd), w, p)
    ensures EndOfPart in ReadAll(bd, AtData(index), w).toks
  {
    var d, q := Delimiter(bd), AtData(index);
    ScansOrEnds(bd, index, w);
    if Kept(bd, w, ReadAll(bd, q, w)) {
      NothingMissed(bd, index, w);
      forall t | 0 <= t < |d| && p + t < |w|
        ensures w[p + t] == d[t]
      {
        assert w[p..p + |d|][t] == d[t];
      }
      assert Viable(d, w, p);
    }
  }

  /** Every delimiter in part data ends the part if and only if the boundary is restartable;
      and without a delimiter the part never ends. */
  lemma {:induction false} DelimitersFound(bd: bytes, index: nat)
    requires 0 < |bd|
    ensures (forall w :: Occurs(Delimiter(bd), w) ==> EndOfPart in ReadAll(bd, AtData(index), w).toks)
            <==> Restartable(bd)
    ensures forall w :: EndOfPart in ReadAll(bd, AtData(index), w).toks ==> Occurs(Delimiter(bd), w)
  {
    var d, q := Delimiter(bd), AtData(index);
    forall w
      ensures EndOfPart in ReadAll(bd, q, w).toks ==> Occurs(d, w)
      ensures Restartable(bd) && Occurs(d, w) ==> EndOfPart in ReadAll(bd, q, w).toks
    {
      ScansOrEnds(bd, index, w);
      if Restartable(bd) && Occurs(d, w) {
        var p: nat :| OccursAt(d, w, p);
        OccurrenceEnds(bd, index, w, p);
      }
    }
    if !Restartable(bd) {
      var w := LostDelimiter(bd, index);
    }
  }
}
