/**
 Writing a multipart body and feeding it to the parser gives the parts back, whole or
 in chunks, with the headers as they were written unless a chunk ends right after a
 hyphen of a name or right after the carriage return of a value.
 */
module MultipartEncoding {
  import opened MultipartMachine
  import opened MultipartChunking
  import opened MultipartDelimiter
  import opened MultipartGathering

  datatype Header = Header(name: bytes, pad: nat, value: bytes)

  datatype Part = Part(headers: seq<Header>, data: bytes)

  function Spaces(n: nat): bytes {
    if n == 0 then [] else [SPACE] + Spaces(n - 1)
  }

  function EncodeHeader(h: Header): bytes {
    h.name + [COLON] + Spaces(h.pad) + (h.value + [CR, LF])
  }

  function EncodeHeaders(hs: seq<Header>): bytes {
    if hs == [] then [CR, LF] else EncodeHeader(hs[0]) + EncodeHeaders(hs[1..])
  }

  function EncodeParts(bd: bytes, parts: seq<Part>): bytes
    requires parts != []
    decreases |parts|
  {
    EncodeHeaders(parts[0].headers) + (parts[0].data + Delimiter(bd)) +
    if |parts| == 1 then [HYPHEN, HYPHEN] else [CR, LF] + EncodeParts(bd, parts[1..])
  }

  function Encode(bd: bytes, parts: seq<Part>): bytes
    requires parts != []
  {
    bd + [CR, LF] + EncodeParts(bd, parts)
  }

  predicate HeaderOk(h: Header) {
    && (forall i :: 0 <= i < |h.name| ==> NameCharacter(h.name[i] as char))
    && CR !in h.value
    && (h.value != [] ==> h.value[0] != SPACE)
  }

  lemma NameOfBytes(name: bytes)
    ensures (forall i :: 0 <= i < |name| ==> NameCharacter(name[i] as char)) <==>
            (forall i :: 0 <= i < |name| ==> IsNameByte(name[i]))
  {
    hide NameCharacter;
    forall i | 0 <= i < |name|
      ensures NameCharacter(name[i] as char) <==> IsNameByte(name[i])
    {
      NameCharacters(name[i]);
    }
  }

  /** What is written, in characters. */
  lemma WrittenText(bd: bytes, h: Header, parts: seq<Part>)
    requires parts != []
    ensures EncodeHeader(h) == h.name + Ascii(":") + Spaces(h.pad) + (h.value + Ascii("\r\n"))
    ensures forall i :: 0 <= i < |Spaces(h.pad)| ==> Spaces(h.pad)[i] as char == ' '
    ensures EncodeHeaders([]) == Ascii("\r\n")
    ensures Delimiter(bd) == Ascii("\r\n") + bd && Encode(bd, parts) == bd + Ascii("\r\n") + EncodeParts(bd, parts)
    ensures EncodeParts(bd, parts) == EncodeHeaders(parts[0].headers) + (parts[0].data + Delimiter(bd)) +
                                      if |parts| == 1 then Ascii("--") else Ascii("\r\n") + EncodeParts(bd, parts[1..])
  {
    hide Ascii;
    Characters();
    OnlySpaces(h.pad);
  }

  lemma {:induction false} OnlySpaces(n: nat)
    ensures forall i :: 0 <= i < |Spaces(n)| ==> Spaces(n)[i] as char == ' '
    ensures |Spaces(n)| == n
  {
    if n > 0 {
      OnlySpaces(n - 1);
      Characters();
    }
  }

  /** The first delimiter after the data is the one that is written there. */
  ghost predicate DataOk(bd: bytes, data: bytes) {
    forall p :: 0 <= p < |data| ==> !OccursAt(Delimiter(bd), data + Delimiter(bd), p)
  }

  ghost predicate PartOk(bd: bytes, part: Part) {
    (forall i :: 0 <= i < |part.headers| ==> HeaderOk(part.headers[i])) && DataOk(bd, part.data)
  }

  lemma OccurrenceAt(d: bytes, w: bytes, p: nat, i: nat)
    requires OccursAt(d, w, p) && i < |d|
    ensures w[p + i] == d[i]
  {
    assert w[p..p + |d|][i] == d[i];
  }

  /** For a boundary without carriage returns it is enough that the data has no delimiter. */
  lemma PlainBoundary(bd: bytes, data: bytes)
    requires CR !in bd
    ensures Restartable(bd)
    ensures DataOk(bd, data) <==> !Occurs(Delimiter(bd), data)
  {
    var d := Delimiter(bd);
    var w := data + d;
    if Occurs(d, data) {
      var p: nat :| OccursAt(d, data, p);
      assert w[p..p + |d|] == data[p..p + |d|];
      assert OccursAt(d, w, p);
    }
    forall p | 0 <= p < |data| && OccursAt(d, w, p)
      ensures Occurs(d, data)
    {
      if |data| < p + |d| {
        OccurrenceAt(d, w, p, |data| - p);
      }
      assert w[p..p + |d|] == data[p..p + |d|];
      assert OccursAt(d, data, p);
    }
  }

  function HeadersToks(hs: seq<Header>): seq<Tok> {
    if hs == [] then [] else FieldToks(hs[0].name) + ValueToks(hs[0].value) + HeadersToks(hs[1..])
  }

  function PartToks(part: Part): seq<Tok> {
    [Notice(OnPartDataBegin)] + HeadersToks(part.headers) +
    ([Notice(OnHeadersComplete)] + DataToks(part.data) + [EndOfPart])
  }

  function PartsToks(parts: seq<Part>): seq<Tok> {
    if parts == [] then [Notice(OnBodyEnd)] else PartToks(parts[0]) + PartsToks(parts[1..])
  }

  // ----- reading what was written

  /** No header name is broken off by a carriage return or a byte that is no name byte. */
  predicate Unbroken(bd: bytes, q: Core, w: bytes)
    decreases |w|
  {
    w == [] ||
    (&& (q.state == HeaderField ==> w[0] == COLON || IsNameByte(w[0]))
     && var s := Read1(bd, q, w[0]);
        s.ok ==> Unbroken(bd, s.core, w[1..]))
  }

  /** `w` is read whole from `q` to `q'`, telling `toks`, with no name broken off. */
  predicate Reads(bd: bytes, q: Core, w: bytes, q': Core, toks: seq<Tok>) {
    ReadAll(bd, q, w) == Read(q', toks, |w|, true) && Unbroken(bd, q, w)
  }

  lemma {:induction false} UnbrokenConcat(bd: bytes, q: Core, a: bytes, b: bytes)
    requires Unbroken(bd, q, a)
    requires var r := ReadAll(bd, q, a); r.ok ==> Unbroken(bd, r.core, b)
    ensures Unbroken(bd, q, a + b)
    decreases |a|
  {
    if a == [] {
      assert a + b == b;
    } else {
      assert (a + b)[1..] == a[1..] + b;
      var s := Read1(bd, q, a[0]);
      if s.ok {
        UnbrokenConcat(bd, s.core, a[1..], b);
      }
    }
  }

  lemma ReadsConcat(bd: bytes, q0: Core, a: bytes, q1: Core, s: seq<Tok>, b: bytes, q2: Core, t: seq<Tok>)
    requires Reads(bd, q0, a, q1, s) && Reads(bd, q1, b, q2, t)
    ensures Reads(bd, q0, a + b, q2, s + t)
  {
    ReadConcat(bd, q0, a, b);
    UnbrokenConcat(bd, q0, a, b);
  }

  lemma ReadsOne(bd: bytes, q: Core, c: byte)
    requires Read1(bd, q, c).ok
    requires q.state == HeaderField ==> c == COLON || IsNameByte(c)
    ensures Reads(bd, q, [c], Read1(bd, q, c).core, Read1(bd, q, c).toks)
  {
    var s := Read1(bd, q, c);
    assert [c][1..] == [] && s.toks + [] == s.toks;
  }

  lemma ReadsTwo(bd: bytes, q: Core, c: byte, c': byte)
    requires Read1(bd, q, c).ok && Read1(bd, Read1(bd, q, c).core, c').ok
    requires q.state != HeaderField && Read1(bd, q, c).core.state != HeaderField
    ensures var s := Read1(bd, q, c);
            var s' := Read1(bd, s.core, c');
            Reads(bd, q, [c, c'], s'.core, s.toks + s'.toks)
  {
    var s := Read1(bd, q, c);
    var s' := Read1(bd, s.core, c');
    ReadsOne(bd, q, c);
    ReadsOne(bd, s.core, c');
    ReadsConcat(bd, q, [c], s.core, s.toks, [c'], s'.core, s'.toks);
    assert [c] + [c'] == [c, c'];
  }

  lemma {:induction false} ReadsBoundary(bd: bytes, n: nat)
    requires n <= |bd|
    ensures Reads(bd, Initial, bd[..n], if n == 0 then Initial else Core(StartBoundary, n), [])
  {
    if n == 0 {
      assert bd[..0] == [];
    } else {
      ReadsBoundary(bd, n - 1);
      var q := if n == 1 then Initial else Core(StartBoundary, n - 1);
      assert (bd + [CR, LF])[n - 1] == bd[n - 1];
      ReadsOne(bd, q, bd[n - 1]);
      ReadsConcat(bd, Initial, bd[..n - 1], q, [], [bd[n - 1]], Core(StartBoundary, n), []);
      assert bd[..n] == bd[..n - 1] + [bd[n - 1]];
      var none: seq<Tok> := [];
      assert none + none == none;
    }
  }

  lemma ReadsOpening(bd: bytes)
    requires 0 < |bd|
    ensures Reads(bd, Initial, bd + [CR, LF], Core(HeaderFieldStart, 0), [Notice(OnPartDataBegin)])
  {
    var q := Core(StartBoundary, |bd|);
    ReadsBoundary(bd, |bd|);
    assert bd[..|bd|] == bd;
    var e := bd + [CR, LF];
    assert e[|bd|] == CR && e[|bd| + 1] == LF;
    ReadsTwo(bd, q, CR, LF);
    ReadsConcat(bd, Initial, bd, q, [], [CR, LF], Core(HeaderFieldStart, 0), [] + [Notice(OnPartDataBegin)]);
    assert [] + ([] + [Notice(OnPartDataBegin)]) == [Notice(OnPartDataBegin)];
  }

  lemma {:induction false} ReadsName(bd: bytes, q: Core, name: bytes)
    requires q.state == HeaderFieldStart || q.state == HeaderField
    requires forall i :: 0 <= i < |name| ==> IsNameByte(name[i])
    ensures Reads(bd, q, name + [COLON], Core(HeaderValueStart, q.index), FieldToks(name))
    decreases |name|
  {
    if name == [] {
      ReadsOne(bd, q, COLON);
      assert name + [COLON] == [COLON] && FieldToks(name) == [];
    } else {
      var q', rest := Core(HeaderField, q.index), name[1..];
      ReadsOne(bd, q, name[0]);
      ReadsName(bd, q', rest);
      ReadsConcat(bd, q, [name[0]], q', [FieldTok(name[0])], rest + [COLON], Core(HeaderValueStart, q.index), FieldToks(rest));
      assert name + [COLON] == [name[0]] + (rest + [COLON]);
      assert FieldToks(name) == [FieldTok(name[0])] + FieldToks(rest);
    }
  }

  lemma {:induction false} ReadsSpaces(bd: bytes, q: Core, n: nat)
    requires q.state == HeaderValueStart
    ensures Reads(bd, q, Spaces(n), q, [])
  {
    if n != 0 {
      ReadsOne(bd, q, SPACE);
      ReadsSpaces(bd, q, n - 1);
      ReadsConcat(bd, q, [SPACE], q, [], Spaces(n - 1), q, []);
      var none: seq<Tok> := [];
      assert none + none == none;
    }
  }

  lemma {:induction false} ReadsValue(bd: bytes, q: Core, value: bytes)
    requires q.state == HeaderValueStart || q.state == HeaderValue
    requires CR !in value
    requires q.state == HeaderValueStart && value != [] ==> value[0] != SPACE
    ensures Reads(bd, q, value + [CR, LF], Core(HeaderFieldStart, q.index), ValueToks(value))
    decreases |value|
  {
    if value == [] {
      ReadsTwo(bd, q, CR, LF);
      assert value + [CR, LF] == [CR, LF] && ValueToks(value) == [] + [];
    } else {
      var q', rest := Core(HeaderValue, q.index), value[1..];
      ReadsOne(bd, q, value[0]);
      ReadsValue(bd, q', rest);
      ReadsConcat(bd, q, [value[0]], q', [ValueTok(value[0])], rest + [CR, LF], Core(HeaderFieldStart, q.index), ValueToks(rest));
      assert value + [CR, LF] == [value[0]] + (rest + [CR, LF]);
      assert ValueToks(value) == [ValueTok(value[0])] + ValueToks(rest);
    }
  }

  lemma ReadsHeader(bd: bytes, q: Core, h: Header)
    requires q.state == HeaderFieldStart && HeaderOk(h)
    ensures Reads(bd, q, EncodeHeader(h), q, FieldToks(h.name) + ValueToks(h.value))
  {
    hide NameCharacter;
    var q' := Core(HeaderValueStart, q.index);
    NameOfBytes(h.name);
    ReadsName(bd, q, h.name);
    ReadsSpaces(bd, q', h.pad);
    ReadsConcat(bd, q, h.name + [COLON], q', FieldToks(h.name), Spaces(h.pad), q', []);
    ReadsValue(bd, q', h.value);
    ReadsConcat(bd, q, h.name + [COLON] + Spaces(h.pad), q', FieldToks(h.name) + [], h.value + [CR, LF], q, ValueToks(h.value));
    assert FieldToks(h.name) + [] == FieldToks(h.name);
  }

  lemma {:induction false} ReadsHeaders(bd: bytes, q: Core, hs: seq<Header>)
    requires q.state == HeaderFieldStart
    requires forall i :: 0 <= i < |hs| ==> HeaderOk(hs[i])
    ensures Reads(bd, q, EncodeHeaders(hs), AtData(q.index), HeadersToks(hs))
    decreases |hs|
  {
    if hs == [] {
      ReadsTwo(bd, q, CR, LF);
      var none: seq<Tok> := [];
      assert none + none == none;
    } else {
      ReadsHeader(bd, q, hs[0]);
      ReadsHeaders(bd, q, hs[1..]);
      ReadsConcat(bd, q, EncodeHeader(hs[0]), q, FieldToks(hs[0].name) + ValueToks(hs[0].value),
                  EncodeHeaders(hs[1..]), AtData(q.index), HeadersToks(hs[1..]));
    }
  }

  lemma {:induction false} ScanningUnbroken(bd: bytes, index: nat, u: bytes)
    requires 0 < |bd| && Kept(bd, u, ReadAll(bd, AtData(index), u))
    ensures Unbroken(bd, AtData(index), u)
    decreases |u|
  {
    if u != [] {
      var u', c := u[..|u| - 1], u[|u| - 1];
      assert u == u' + [c];
      KeptBefore(bd, index, u', c);
      ScanningUnbroken(bd, index, u');
      UnbrokenConcat(bd, AtData(index), u', [c]);
    }
  }

  /** Up to the last byte of the delimiter that was written, part data is being scanned. */
  lemma DataKept(bd: bytes, index: nat, data: bytes)
    requires 0 < |bd| && Restartable(bd) && DataOk(bd, data)
    ensures var w := data + Delimiter(bd);
            Kept(bd, w[..|w| - 1], ReadAll(bd, AtData(index), w[..|w| - 1]))
  {
    var d := Delimiter(bd);
    var w := data + d;
    var u := w[..|w| - 1];
    ScansOrEnds(bd, index, u);
    forall p: nat | OccursAt(d, u, p)
      ensures false
    {
      OccursInPrefix(d, w, |u|, p);
    }
  }

  lemma ReadsData(bd: bytes, index: nat, data: bytes)
    requires 0 < |bd| && Restartable(bd) && DataOk(bd, data)
    ensures Reads(bd, AtData(index), data + Delimiter(bd), Core(PartDataAlmostEnd, |bd|),
                  [Notice(OnHeadersComplete)] + DataToks(data) + [EndOfPart])
  {
    hide Read1, DataToks, Restartable;
    var q, d := AtData(index), Delimiter(bd);
    var w := data + d;
    assert w[|data|..|data| + |d|] == d;
    assert OccursAt(d, w, |data|);
    FirstDelimiter(bd, index, w, |data|);
    assert w[..|w|] == w && w[..|data|] == data;
    var u, c := w[..|w| - 1], w[|w| - 1];
    assert w == u + [c];
    DataKept(bd, index, data);
    hide ReadAll;
    ScanningUnbroken(bd, index, u);
    LastUnbroken(bd, q, u, c);
  }

  /** A byte after scanned data breaks off no name. */
  lemma LastUnbroken(bd: bytes, q: Core, u: bytes, c: byte)
    requires Unbroken(bd, q, u) && ReadAll(bd, q, u).core.state != HeaderField
    ensures Unbroken(bd, q, u + [c])
  {
    UnbrokenConcat(bd, q, u, [c]);
  }

  lemma ReadsPart(bd: bytes, index: nat, part: Part)
    requires 0 < |bd| && Restartable(bd) && PartOk(bd, part)
    ensures Reads(bd, Core(HeaderFieldStart, index),
                  EncodeHeaders(part.headers) + (part.data + Delimiter(bd)), Core(PartDataAlmostEnd, |bd|),
                  HeadersToks(part.headers) + ([Notice(OnHeadersComplete)] + DataToks(part.data) + [EndOfPart]))
  {
    var q := Core(HeaderFieldStart, index);
    ReadsHeaders(bd, q, part.headers);
    ReadsData(bd, index, part.data);
    ReadsConcat(bd, q, EncodeHeaders(part.headers), AtData(index), HeadersToks(part.headers),
                part.data + Delimiter(bd), Core(PartDataAlmostEnd, |bd|),
                [Notice(OnHeadersComplete)] + DataToks(part.data) + [EndOfPart]);
  }

  /** What follows a delimiter: the end of the body, or the line end before another part. */
  lemma ReadsTail(bd: bytes, last: bool)
    ensures Reads(bd, Core(PartDataAlmostEnd, |bd|), if last then [HYPHEN, HYPHEN] else [CR, LF],
                  if last then Core(End, |bd|) else Core(HeaderFieldStart, |bd|),
                  if last then [Notice(OnBodyEnd)] else [Notice(OnPartDataBegin)])
  {
    var q := Core(PartDataAlmostEnd, |bd|);
    if last {
      ReadsTwo(bd, q, HYPHEN, HYPHEN);
      assert [] + [Notice(OnBodyEnd)] == [Notice(OnBodyEnd)];
    } else {
      ReadsTwo(bd, q, CR, LF);
      assert [] + [Notice(OnPartDataBegin)] == [Notice(OnPartDataBegin)];
    }
  }

  /** All parts, from just after the notice that the first one begins. */
  lemma {:induction false} ReadsParts(bd: bytes, index: nat, parts: seq<Part>) returns (toks: seq<Tok>)
    requires 0 < |bd| && Restartable(bd) && parts != []
    requires forall i :: 0 <= i < |parts| ==> PartOk(bd, parts[i])
    ensures [Notice(OnPartDataBegin)] + toks == PartsToks(parts)
    ensures Reads(bd, Core(HeaderFieldStart, index), EncodeParts(bd, parts), Core(End, |bd|), toks)
    decreases |parts|
  {
    var q, part := Core(HeaderFieldStart, index), parts[0];
    var ended, last := Core(PartDataAlmostEnd, |bd|), |parts| == 1;
    var w := EncodeHeaders(part.headers) + (part.data + Delimiter(bd));
    var t := HeadersToks(part.headers) + ([Notice(OnHeadersComplete)] + DataToks(part.data) + [EndOfPart]);
    assert [Notice(OnPartDataBegin)] + t == PartToks(part);
    ReadsPart(bd, index, part);
    ReadsTail(bd, last);
    if last {
      ReadsConcat(bd, q, w, ended, t, [HYPHEN, HYPHEN], Core(End, |bd|), [Notice(OnBodyEnd)]);
      toks := t + [Notice(OnBodyEnd)];
      assert PartsToks(parts[1..]) == [Notice(OnBodyEnd)];
      Assoc([Notice(OnPartDataBegin)], t, [Notice(OnBodyEnd)]);
    } else {
      var next, begin := Core(HeaderFieldStart, |bd|), [Notice(OnPartDataBegin)];
      var rest := ReadsParts(bd, |bd|, parts[1..]);
      ReadsConcat(bd, ended, [CR, LF], next, begin, EncodeParts(bd, parts[1..]), Core(End, |bd|), rest);
      ReadsConcat(bd, q, w, ended, t, [CR, LF] + EncodeParts(bd, parts[1..]), Core(End, |bd|), begin + rest);
      toks := t + (begin + rest);
      Assoc(begin, t, begin + rest);
    }
  }

  // ----- what the bytes add up to

  /** The blanks before a value are not part of it. */
  function FieldsOf(hs: seq<Header>): (fields: seq<Field>)
    ensures |fields| == |hs|
  {
    seq(|hs|, i requires 0 <= i < |hs| => Field(hs[i].name, hs[i].value))
  }

  function ItemsOf(parts: seq<Part>): (items: seq<Item>)
    ensures |items| == |parts|
  {
    seq(|parts|, i requires 0 <= i < |parts| => Item(FieldsOf(parts[i].headers), parts[i].data))
  }

  lemma AbsorbOne(bd: bytes, q: Core, c: byte, g: Gathered)
    ensures Absorb(bd, q, [c], g) == if Read1(bd, q, c).ok then Absorb1(bd, q, c, g) else g
  {
    hide Read1, Absorb1;
    assert [c][1..] == [];
  }

  lemma AbsorbTwo(bd: bytes, q: Core, c: byte, c': byte, g: Gathered)
    requires Read1(bd, q, c).ok && Read1(bd, Read1(bd, q, c).core, c').ok
    ensures Absorb(bd, q, [c, c'], g) == Absorb1(bd, Read1(bd, q, c).core, c', Absorb1(bd, q, c, g))
  {
    hide Read1, Absorb1;
    assert [c, c'][1..] == [c'];
    AbsorbOne(bd, Read1(bd, q, c).core, c', Absorb1(bd, q, c, g));
  }

  lemma AbsorbFirst(bd: bytes, q: Core, c: byte, w: bytes, g: Gathered)
    requires Read1(bd, q, c).ok
    ensures Absorb(bd, q, [c] + w, g) == Absorb(bd, Read1(bd, q, c).core, w, Absorb1(bd, q, c, g))
  {
    hide Read1, Absorb1;
    assert ([c] + w)[1..] == w;
  }

  /** A byte of a name or of a value goes to it. */
  lemma HeaderByte(bd: bytes, q: Core, c: byte, g: Gathered)
    requires Follows(q, g)
    ensures InName(q.state) && IsNameByte(c) ==>
              && Read1(bd, q, c) == Reading(Core(HeaderField, q.index), [FieldTok(c)], true)
              && Absorb1(bd, q, c, g) == Named(g, [c]) && Follows(Core(HeaderField, q.index), Named(g, [c]))
    ensures InValue(q.state) && c != CR && (q.state == HeaderValueStart ==> c != SPACE) ==>
              && Read1(bd, q, c) == Reading(Core(HeaderValue, q.index), [ValueTok(c)], true)
              && Absorb1(bd, q, c, g) == Valued(g, [c]) && Follows(Core(HeaderValue, q.index), Valued(g, [c]))
  {
    AddedOne(g, FieldTok(c));
    AddedOne(g, ValueTok(c));
  }

  predicate InName(s: State) {
    s == HeaderFieldStart || s == HeaderField
  }

  predicate InValue(s: State) {
    s == HeaderValueStart || s == HeaderValue
  }

  /** Its end, which for an empty one is its beginning too. */
  lemma HeaderEnd(bd: bytes, q: Core, g: Gathered)
    requires Follows(q, g)
    ensures InName(q.state) ==> Absorb(bd, q, [COLON], g) == Named(g, [])
    ensures InValue(q.state) ==> Absorb(bd, q, [CR, LF], g) == Valued(g, [])
  {
    if q.state == HeaderField || q.state == HeaderValue {
      NothingAdded(g);
    }
    hide Absorb, Named, Valued;
    AddedNone(g);
    if InName(q.state) {
      AbsorbOne(bd, q, COLON, g);
      AddedNone(Named(g, []));
    } else if InValue(q.state) {
      AbsorbTwo(bd, q, CR, LF, g);
      AddedNone(Valued(g, []));
    }
  }

  /** A whole name, or what is left of it. */
  lemma {:induction false} AbsorbsName(bd: bytes, q: Core, name: bytes, g: Gathered)
    requires InName(q.state) && Follows(q, g)
    requires forall i :: 0 <= i < |name| ==> IsNameByte(name[i])
    ensures Absorb(bd, q, name + [COLON], g) == Named(g, name)
    decreases |name|
  {
    hide Absorb, Absorb1, Read1, Named, Follows;
    if name == [] {
      HeaderEnd(bd, q, g);
      assert name + [COLON] == [COLON];
    } else {
      var c, rest := name[0], name[1..];
      HeaderByte(bd, q, c, g);
      AbsorbFirst(bd, q, c, rest + [COLON], g);
      AbsorbsName(bd, Core(HeaderField, q.index), rest, Named(g, [c]));
      NamedTwice(g, [c], rest);
      assert [c] + rest == name && [c] + (rest + [COLON]) == name + [COLON];
    }
  }

  lemma {:induction false} AbsorbsSpaces(bd: bytes, q: Core, n: nat, g: Gathered)
    requires q.state == HeaderValueStart
    ensures Absorb(bd, q, Spaces(n), g) == g
  {
    if n != 0 {
      AddedNone(g);
      assert Spaces(n)[0] == SPACE && Spaces(n)[1..] == Spaces(n - 1);
      AbsorbsSpaces(bd, q, n - 1, g);
    }
  }

  lemma {:induction false} AbsorbsValue(bd: bytes, q: Core, value: bytes, g: Gathered)
    requires InValue(q.state) && Follows(q, g) && CR !in value
    requires q.state == HeaderValueStart && value != [] ==> value[0] != SPACE
    ensures Absorb(bd, q, value + [CR, LF], g) == Valued(g, value)
    decreases |value|
  {
    hide Absorb, Absorb1, Read1, Valued, Follows;
    if value == [] {
      HeaderEnd(bd, q, g);
      assert value + [CR, LF] == [CR, LF];
    } else {
      var c, rest := value[0], value[1..];
      HeaderByte(bd, q, c, g);
      AbsorbFirst(bd, q, c, rest + [CR, LF], g);
      AbsorbsValue(bd, Core(HeaderValue, q.index), rest, Valued(g, [c]));
      ValuedTwice(g, [c], rest);
      assert [c] + rest == value && [c] + (rest + [CR, LF]) == value + [CR, LF];
    }
  }

  /** A header is one more field of the part, whatever the lengths of its name and its value. */
  lemma AbsorbsHeader(bd: bytes, q: Core, h: Header, g: Gathered)
    requires q.state == HeaderFieldStart && Follows(q, g) && HeaderOk(h)
    ensures var item := LastItem(g);
            Absorb(bd, q, EncodeHeader(h), g) ==
            WithLast(g, item.(fields := item.fields + [Field(h.name, h.value)]), false)
  {
    var q', g' := Core(HeaderValueStart, q.index), Named(g, h.name);
    hide Absorb, NameCharacter;
    NameOfBytes(h.name);
    AbsorbsName(bd, q, h.name, g);
    ReadsName(bd, q, h.name);
    AbsorbConcat(bd, q, h.name + [COLON], Spaces(h.pad), g);
    AbsorbsSpaces(bd, q', h.pad, g');
    ReadsSpaces(bd, q', h.pad);
    ReadsConcat(bd, q, h.name + [COLON], q', FieldToks(h.name), Spaces(h.pad), q', []);
    AbsorbConcat(bd, q, h.name + [COLON] + Spaces(h.pad), h.value + [CR, LF], g);
    AbsorbsValue(bd, q', h.value, g');
    var item := LastItem(g);
    assert (item.fields + [Field(h.name, [])])[..|item.fields|] == item.fields;
    assert [] + h.value == h.value;
  }

  lemma {:induction false} AbsorbsHeaders(bd: bytes, q: Core, hs: seq<Header>, g: Gathered)
    requires q.state == HeaderFieldStart && Follows(q, g)
    requires forall i :: 0 <= i < |hs| ==> HeaderOk(hs[i])
    ensures var item := LastItem(g);
            Absorb(bd, q, EncodeHeaders(hs), g) == WithLast(g, item.(fields := item.fields + FieldsOf(hs)), false)
    decreases |hs|
  {
    hide Absorb, AddedAll, EncodeHeader, HeaderOk;
    var item := LastItem(g);
    if hs == [] {
      AddedNone(g);
      AbsorbTwo(bd, q, CR, LF, g);
      assert item.fields + FieldsOf(hs) == item.fields && g.items == g.items[..|g.items| - 1] + [item];
    } else {
      var f := Field(hs[0].name, hs[0].value);
      var g' := WithLast(g, item.(fields := item.fields + [f]), false);
      AbsorbsHeader(bd, q, hs[0], g);
      ReadsHeader(bd, q, hs[0]);
      AbsorbConcat(bd, q, EncodeHeader(hs[0]), EncodeHeaders(hs[1..]), g);
      AbsorbsHeaders(bd, q, hs[1..], g');
      assert item.fields + FieldsOf(hs) == item.fields + [f] + FieldsOf(hs[1..]);
    }
  }

  /** Scanning for the delimiter adds what is told and nothing else. */
  lemma {:induction false} AbsorbsScanned(bd: bytes, index: nat, u: bytes, g: Gathered)
    requires 0 < |bd| && Kept(bd, u, ReadAll(bd, AtData(index), u))
    ensures Absorb(bd, AtData(index), u, g) == AddedAll(g, ReadAll(bd, AtData(index), u).toks)
    decreases |u|
  {
    if u != [] {
      var u', c := u[..|u| - 1], u[|u| - 1];
      assert u == u' + [c];
      KeptBefore(bd, index, u', c);
      AbsorbsScanned(bd, index, u', g);
      AbsorbsScannedByte(bd, index, u', c, g);
    } else {
      AddedNone(g);
    }
  }

  lemma AbsorbsScannedByte(bd: bytes, index: nat, u: bytes, c: byte, g: Gathered)
    requires 0 < |bd| && Kept(bd, u, ReadAll(bd, AtData(index), u))
    requires ReadAll(bd, AtData(index), u + [c]).ok
    requires Absorb(bd, AtData(index), u, g) == AddedAll(g, ReadAll(bd, AtData(index), u).toks)
    ensures Absorb(bd, AtData(index), u + [c], g) == AddedAll(g, ReadAll(bd, AtData(index), u + [c]).toks)
  {
    hide Read1, ReadAll, Absorb, AddedAll, Held;
    var r := ReadAll(bd, AtData(index), u);
    AbsorbConcat(bd, AtData(index), u, [c], g);
    AbsorbOne(bd, r.core, c, AddedAll(g, r.toks));
    ReadSnoc(bd, AtData(index), u, c);
    AddedConcat(g, r.toks, Read1(bd, r.core, c).toks);
  }

  lemma AbsorbsData(bd: bytes, index: nat, data: bytes, g: Gathered)
    requires 0 < |bd| && Restartable(bd) && DataOk(bd, data) && g.items != []
    ensures var item := LastItem(g);
            Absorb(bd, AtData(index), data + Delimiter(bd), g) == WithLast(g, item.(data := item.data + data), false)
  {
    hide Absorb, ReadAll, Kept, Restartable, DataOk;
    var w := data + Delimiter(bd);
    var u, c := w[..|w| - 1], w[|w| - 1];
    assert w == u + [c];
    ReadsData(bd, index, data);
    DataKept(bd, index, data);
    AbsorbsScanned(bd, index, u, g);
    AbsorbsScannedByte(bd, index, u, c, g);
    AddsData(data, g);
  }

  lemma AddsData(data: bytes, g: Gathered)
    requires g.items != []
    ensures var item := LastItem(g);
            AddedAll(g, [Notice(OnHeadersComplete)] + DataToks(data) + [EndOfPart]) ==
            WithLast(g, item.(data := item.data + data), false)
  {
    hide AddedAll, DataToks;
    var g' := g.(naming := false);
    AddedConcat(g, [Notice(OnHeadersComplete)] + DataToks(data), [EndOfPart]);
    AddedConcat(g, [Notice(OnHeadersComplete)], DataToks(data));
    AddedOne(g, Notice(OnHeadersComplete));
    AddedData(g', data);
    AddedOne(Filled(g', data), EndOfPart);
  }

  lemma AbsorbsPart(bd: bytes, index: nat, part: Part, g: Gathered)
    requires 0 < |bd| && Restartable(bd) && PartOk(bd, part)
    requires g.items != [] && !g.naming && LastItem(g) == Item([], [])
    ensures Absorb(bd, Core(HeaderFieldStart, index), EncodeHeaders(part.headers) + (part.data + Delimiter(bd)), g) ==
            WithLast(g, Item(FieldsOf(part.headers), part.data), false)
  {
    hide Absorb, ReadAll;
    var q := Core(HeaderFieldStart, index);
    var g' := WithLast(g, Item(FieldsOf(part.headers), []), false);
    ReadsHeaders(bd, q, part.headers);
    AbsorbsHeaders(bd, q, part.headers, g);
    assert [] + FieldsOf(part.headers) == FieldsOf(part.headers);
    AbsorbConcat(bd, q, EncodeHeaders(part.headers), part.data + Delimiter(bd), g);
    AbsorbsData(bd, index, part.data, g');
    assert [] + part.data == part.data;
  }

  lemma AbsorbsEnd(bd: bytes, g: Gathered)
    requires !g.naming
    ensures Absorb(bd, Core(PartDataAlmostEnd, |bd|), [HYPHEN, HYPHEN], g) == g
  {
    hide Absorb, AddedAll;
    AddedNone(g);
    AbsorbTwo(bd, Core(PartDataAlmostEnd, |bd|), HYPHEN, HYPHEN, g);
    AddedOne(g, Notice(OnBodyEnd));
  }

  lemma AbsorbsNext(bd: bytes, g: Gathered)
    ensures Absorb(bd, Core(PartDataAlmostEnd, |bd|), [CR, LF], g) == Gathered(g.items + [Item([], [])], false)
  {
    hide Absorb, AddedAll;
    AddedNone(g);
    AbsorbTwo(bd, Core(PartDataAlmostEnd, |bd|), CR, LF, g);
    AddedOne(g, Notice(OnPartDataBegin));
  }

  /** All parts, from just after the notice that the first one begins. */
  lemma {:induction false} AbsorbsParts(bd: bytes, index: nat, parts: seq<Part>, items: seq<Item>)
    requires 0 < |bd| && Restartable(bd) && parts != []
    requires forall i :: 0 <= i < |parts| ==> PartOk(bd, parts[i])
    ensures Absorb(bd, Core(HeaderFieldStart, index), EncodeParts(bd, parts), Gathered(items + [Item([], [])], false)) ==
            Gathered(items + ItemsOf(parts), false)
    decreases |parts|
  {
    hide Absorb, ReadAll, PartOk, EncodeHeaders;
    var q, part, last := Core(HeaderFieldStart, index), parts[0], |parts| == 1;
    var ended, next := Core(PartDataAlmostEnd, |bd|), Core(HeaderFieldStart, |bd|);
    var w, tail := EncodeHeaders(part.headers) + (part.data + Delimiter(bd)), if last then [HYPHEN, HYPHEN] else [CR, LF];
    var g, item := Gathered(items + [Item([], [])], false), Item(FieldsOf(part.headers), part.data);
    var g' := Gathered(items + [item], false);
    assert g.items[..|items|] == items;
    ReadsPart(bd, index, part);
    AbsorbsPart(bd, index, part, g);
    ReadsTail(bd, last);
    if last {
      AbsorbsEnd(bd, g');
      AbsorbConcat(bd, q, w, tail, g);
      assert ItemsOf(parts) == [item];
    } else {
      AbsorbsNext(bd, g');
      AbsorbConcat(bd, q, w, tail + EncodeParts(bd, parts[1..]), g);
      AbsorbConcat(bd, ended, tail, EncodeParts(bd, parts[1..]), g');
      AbsorbsParts(bd, |bd|, parts[1..], items + [item]);
      assert items + ItemsOf(parts) == items + [item] + ItemsOf(parts[1..]);
    }
  }

  lemma {:induction false} AbsorbsBoundary(bd: bytes, n: nat)
    requires n <= |bd|
    ensures Absorb(bd, Initial, bd[..n], Nothing) == Nothing
  {
    if n == 0 {
      assert bd[..0] == [];
    } else {
      AbsorbsBoundary(bd, n - 1);
      ReadsBoundary(bd, n - 1);
      assert bd[..n] == bd[..n - 1] + [bd[n - 1]] && (bd + [CR, LF])[n - 1] == bd[n - 1];
      AbsorbConcat(bd, Initial, bd[..n - 1], [bd[n - 1]], Nothing);
      var q := if n == 1 then Initial else Core(StartBoundary, n - 1);
      AbsorbOne(bd, q, bd[n - 1], Nothing);
      AddedNone(Nothing);
    }
  }

  lemma AbsorbsOpening(bd: bytes)
    requires 0 < |bd|
    ensures Absorb(bd, Initial, bd + [CR, LF], Nothing) == Gathered([Item([], [])], false)
  {
    var q := Core(StartBoundary, |bd|);
    assert bd[..|bd|] == bd;
    AbsorbsBoundary(bd, |bd|);
    ReadsBoundary(bd, |bd|);
    AbsorbConcat(bd, Initial, bd, [CR, LF], Nothing);
    var e := bd + [CR, LF];
    assert e[|bd|] == CR && e[|bd| + 1] == LF;
    AddedNone(Nothing);
    AbsorbTwo(bd, q, CR, LF, Nothing);
    AddedOne(Nothing, Notice(OnPartDataBegin));
    assert [] + [Item([], [])] == [Item([], [])];
  }

  /** A written body is read whole, and adds up to the parts that were written. */
  lemma {:induction false} ReadsBody(bd: bytes, parts: seq<Part>)
    requires 0 < |bd| && Restartable(bd) && parts != []
    requires forall i :: 0 <= i < |parts| ==> PartOk(bd, parts[i])
    ensures Reads(bd, Initial, Encode(bd, parts), Core(End, |bd|), PartsToks(parts))
    ensures Absorb(bd, Initial, Encode(bd, parts), Nothing).items == ItemsOf(parts)
  {
    hide Absorb, ReadAll, PartOk, EncodeParts;
    ReadsOpening(bd);
    var toks := ReadsParts(bd, 0, parts);
    ReadsConcat(bd, Initial, bd + [CR, LF], Core(HeaderFieldStart, 0), [Notice(OnPartDataBegin)],
                EncodeParts(bd, parts), Core(End, |bd|), toks);
    AbsorbsOpening(bd);
    AbsorbConcat(bd, Initial, bd + [CR, LF], EncodeParts(bd, parts), Nothing);
    var none: seq<Item> := [];
    assert none + [Item([], [])] == [Item([], [])] && none + ItemsOf(parts) == ItemsOf(parts);
    AbsorbsParts(bd, 0, parts, none);
  }

  // ----- which cuts show

  /** The chunk ends right after a hyphen of a name or the carriage return of a value. */
  predicate EndSlips(bd: bytes, q: Core, buf: bytes) {
    buf != [] &&
    var r, c := ReadAll(bd, q, buf[..|buf| - 1]), buf[|buf| - 1];
    && r.ok
    && (|| ((r.core.state == HeaderField || r.core.state == HeaderFieldStart) && c == HYPHEN)
        || ((r.core.state == HeaderValue || r.core.state == HeaderValueStart) && c == CR))
  }

  predicate CutSlips(bd: bytes, q: Core, chunks: seq<bytes>)
    decreases |chunks|
  {
    chunks != [] &&
    (|| EndSlips(bd, q, chunks[0])
     || var r := ReadAll(bd, q, chunks[0]);
        r.ok && CutSlips(bd, r.core, chunks[1..]))
  }

  lemma {:induction false} UnbrokenChunk(bd: bytes, q: Core, buf: bytes, k: nat)
    requires k < |buf| && Unbroken(bd, q, buf[k..])
    ensures ChunkSlips(bd, q, buf, k) <==> EndSlips(bd, q, buf[k..])
    decreases |buf| - k
  {
    var w := buf[k..];
    var s := Read1(bd, q, w[0]);
    if k + 1 == |buf| {
      assert w[..|w| - 1] == [];
    } else {
      assert w[1..] == buf[k + 1..];
      assert w[..|w| - 1][1..] == w[1..][..|w[1..]| - 1];
      if s.ok {
        UnbrokenChunk(bd, s.core, buf, k + 1);
      }
    }
  }

  lemma {:induction false} UnbrokenSplit(bd: bytes, q: Core, a: bytes, b: bytes)
    requires Unbroken(bd, q, a + b)
    ensures Unbroken(bd, q, a)
    ensures var r := ReadAll(bd, q, a); r.ok ==> Unbroken(bd, r.core, b)
    decreases |a|
  {
    if a == [] {
      assert a + b == b;
    } else {
      assert (a + b)[1..] == a[1..] + b;
      var s := Read1(bd, q, a[0]);
      if s.ok {
        UnbrokenSplit(bd, s.core, a[1..], b);
      }
    }
  }

  /** In a body whose names are not broken off, only the ends of chunks can slip. */
  lemma {:induction false} UnbrokenCuts(bd: bytes, q: Core, chunks: seq<bytes>)
    requires Unbroken(bd, q, Flat(chunks))
    ensures Slips(bd, q, chunks) <==> CutSlips(bd, q, chunks)
    decreases |chunks|
  {
    if chunks != [] {
      var buf := chunks[0];
      UnbrokenSplit(bd, q, buf, Flat(chunks[1..]));
      if buf != [] {
        assert buf[0..] == buf;
        UnbrokenChunk(bd, q, buf, 0);
      }
      var r := ReadAll(bd, q, buf);
      if r.ok {
        UnbrokenCuts(bd, r.core, chunks[1..]);
      }
    }
  }

  // ----- the round trip

  /** Feeding what was written, in any chunks, ends in `End` with everything consumed and all
      data told. The callbacks add up to the parts that were written, header for header, if and
      only if no chunk ends where it slips. */
  lemma RoundTrip(bd: bytes, parts: seq<Part>, acc: seq<Event> -> bool, chunks: seq<bytes>)
    requires Willing(acc)
    requires 0 < |bd| && Restartable(bd) && parts != []
    requires forall i :: 0 <= i < |parts| ==> PartOk(bd, parts[i])
    requires Flat(chunks) == Encode(bd, parts)
    ensures var f := Feed(bd, acc, Initial, [], chunks);
            && f.core.state == End && !f.stopped && f.count == |Encode(bd, parts)|
            && Body(Toks(f.log)) == Body(PartsToks(parts))
            && (Toks(f.log) == PartsToks(parts) <==> !CutSlips(bd, Initial, chunks))
            && (Gather(f.log).items == ItemsOf(parts) <==> !CutSlips(bd, Initial, chunks))
  {
    hide Read1, ReadAll, PartsToks, Encode, Feed, Unbroken, CutSlips, Absorb;
    GatheredExactly(bd, acc, Initial, [], chunks);
    ReadsBody(bd, parts);
    UnbrokenCuts(bd, Initial, chunks);
    HeadersExact(bd, acc, Initial, [], chunks);
    var t := FeedTold(bd, acc, Initial, [], chunks);
    assert Toks([]) + PartsToks(parts) == PartsToks(parts) && Toks([]) + t == t;
  }

  /** A body that ends after its final hyphens ends on no hyphen of a name. */
  lemma {:induction false} EndNeverSlips(bd: bytes, q: Core, w: bytes)
    requires ReadAll(bd, q, w).ok && ReadAll(bd, q, w).core.state == End
    ensures !EndSlips(bd, q, w)
  {
    if w != [] {
      assert w == w[..|w| - 1] + [w[|w| - 1]];
      ReadConcat(bd, q, w[..|w| - 1], [w[|w| - 1]]);
    }
  }

  /** In one piece the parts come back exactly. */
  lemma {:induction false} RoundTripWhole(bd: bytes, parts: seq<Part>, acc: seq<Event> -> bool)
    requires Willing(acc)
    requires 0 < |bd| && Restartable(bd) && parts != []
    requires forall i :: 0 <= i < |parts| ==> PartOk(bd, parts[i])
    ensures var o := Run(bd, acc, Initial, [], [], Encode(bd, parts), 0);
            && o.core.state == End && o.status == Consumed
            && Toks(o.log) == PartsToks(parts)
            && Gather(o.log).items == ItemsOf(parts)
  {
    var w := Encode(bd, parts);
    assert Flat([w]) == w by {
      assert [w][1..] == [];
    }
    ReadsBody(bd, parts);
    EndNeverSlips(bd, Initial, w);
    RoundTrip(bd, parts, acc, [w]);
    WholeIsOneChunk(bd, acc, w);
  }

  lemma WholeIsOneChunk(bd: bytes, acc: seq<Event> -> bool, w: bytes)
    ensures var f, o := Feed(bd, acc, Initial, [], [w]), Run(bd, acc, Initial, [], [], w, 0);
            f == Feeding(o.core, o.log, o.count, o.status != Consumed)
    ensures CutSlips(bd, Initial, [w]) <==> EndSlips(bd, Initial, w)
  {
    assert [w][1..] == [];
  }

  // ----- cuts that show

  /** A body of one part with one header, cut after the first byte, or the second, of the header. */
  function OneHeader(name: bytes): seq<Part> {
    [Part([Header(name, 0, [])], [])]
  }

  lemma OneHeaderText(bd: bytes, name: bytes)
    ensures Encode(bd, OneHeader(name)) ==
            bd + [CR, LF] + (name + [COLON, CR]) + ([LF, CR, LF] + (Delimiter(bd) + [HYPHEN, HYPHEN]))
  {
    var h := Header(name, 0, []);
    assert EncodeHeader(h) == name + [COLON] + [] + ([] + [CR, LF]);
    assert [h][1..] == [];
    assert EncodeHeaders([h]) == EncodeHeader(h) + [CR, LF];
  }

  /** A chunk that ends on a hyphen of a name. */
  lemma HyphenSlips(bd: bytes) returns (parts: seq<Part>, chunks: seq<bytes>)
    requires 0 < |bd|
    ensures parts != [] && forall i :: 0 <= i < |parts| ==> PartOk(bd, parts[i])
    ensures Flat(chunks) == Encode(bd, parts) && CutSlips(bd, Initial, chunks)
  {
    parts := OneHeader([HYPHEN]);
    var first := bd + [CR, LF] + [HYPHEN];
    var rest := [COLON, CR] + ([LF, CR, LF] + (Delimiter(bd) + [HYPHEN, HYPHEN]));
    chunks := [first, rest];
    OneHeaderText(bd, [HYPHEN]);
    TwoChunks(first, rest);
    assert first[..|first| - 1] == bd + [CR, LF];
    ReadsOpening(bd);
  }

  /** A chunk that ends on the carriage return of a value. */
  lemma ReturnSlips(bd: bytes) returns (parts: seq<Part>, chunks: seq<bytes>)
    requires 0 < |bd|
    ensures parts != [] && forall i :: 0 <= i < |parts| ==> PartOk(bd, parts[i])
    ensures Flat(chunks) == Encode(bd, parts) && CutSlips(bd, Initial, chunks)
  {
    parts := OneHeader([]);
    var first := bd + [CR, LF] + [COLON] + [CR];
    var rest := [LF, CR, LF] + (Delimiter(bd) + [HYPHEN, HYPHEN]);
    chunks := [first, rest];
    OneHeaderText(bd, []);
    TwoChunks(first, rest);
    assert first[..|first| - 1] == bd + [CR, LF] + [COLON];
    ReadsOpening(bd);
    ReadsName(bd, Core(HeaderFieldStart, 0), []);
    assert [] + [COLON] == [COLON];
    ReadsConcat(bd, Initial, bd + [CR, LF], Core(HeaderFieldStart, 0), [Notice(OnPartDataBegin)],
                [COLON], Core(HeaderValueStart, 0), FieldToks([]));
  }

  lemma TwoChunks(first: bytes, rest: bytes)
    ensures Flat([first, rest]) == first + rest
  {
    assert [first, rest][1..] == [rest] && [rest][1..] == [];
    assert Flat([rest]) == rest + [] == rest;
  }

  /** A name that breaks off: nothing is handed out of what the chunk holds of it. */
  lemma BrokenNameSlips(bd: bytes)
    requires 0 < |bd|
    ensures Slips(bd, Initial, [bd + [CR, LF] + [97, CR]])
  {
    var opening := bd + [CR, LF];
    var buf := opening + [97, CR];
    ReadsOpening(bd);
    assert buf[0..] == buf && buf[|opening|..] == [97, CR];
    assert Read1(bd, Core(HeaderFieldStart, 0), 97).core == Core(HeaderField, 0);
    assert ChunkSlips(bd, Core(HeaderField, 0), buf, |opening| + 1);
    assert ChunkSlips(bd, Core(HeaderFieldStart, 0), buf, |opening|);
    SlipsLater(bd, Initial, buf, 0, |opening|);
  }

  lemma {:induction false} SlipsLater(bd: bytes, q: Core, buf: bytes, k: nat, n: nat)
    requires k <= n <= |buf| && ReadAll(bd, q, buf[k..n]).ok
    requires ChunkSlips(bd, ReadAll(bd, q, buf[k..n]).core, buf, n)
    ensures ChunkSlips(bd, q, buf, k)
    decreases n - k
  {
    if k < n {
      assert buf[k..n][0] == buf[k] && buf[k..n][1..] == buf[k + 1..n];
      SlipsLater(bd, Read1(bd, q, buf[k]).core, buf, k + 1, n);
    }
  }
}
