/**
 How a body is cut into chunks does not matter to the multipart parser, except for
 header names and values, where it matters in exactly three situations.

 `Read` is a byte-at-a-time reading of a body with no chunks, no mark and no
 rewinding. A chunked feeding is compared with it through `Toks`, which forgets how
 callback data was fragmented.
 */
module MultipartChunking {
  import opened MultipartMachine

  datatype Tok =
    | Notice(event: Event)
    | FieldTok(c: byte)
    | ValueTok(c: byte)
    | DataTok(c: byte)

  function FieldToks(s: bytes): seq<Tok> { seq(|s|, i requires 0 <= i < |s| => FieldTok(s[i])) }
  function ValueToks(s: bytes): seq<Tok> { seq(|s|, i requires 0 <= i < |s| => ValueTok(s[i])) }
  function DataToks(s: bytes): seq<Tok> { seq(|s|, i requires 0 <= i < |s| => DataTok(s[i])) }

  function EventToks(e: Event): seq<Tok> {
    match e
    case OnHeaderField(s) => FieldToks(s)
    case OnHeaderValue(s) => ValueToks(s)
    case OnPartData(s) => DataToks(s)
    case _ => [Notice(e)]
  }

  function Toks(log: seq<Event>): seq<Tok> {
    if log == [] then [] else Toks(log[..|log| - 1]) + EventToks(log[|log| - 1])
  }

  /** What is left when header names and values are dropped. */
  function Body(ts: seq<Tok>): seq<Tok> {
    if ts == [] then []
    else
      var t := ts[|ts| - 1];
      Body(ts[..|ts| - 1]) + (if t.FieldTok? || t.ValueTok? then [] else [t])
  }

  function Fields(ts: seq<Tok>): nat {
    if ts == [] then 0 else Fields(ts[..|ts| - 1]) + (if ts[|ts| - 1].FieldTok? then 1 else 0)
  }

  function Values(ts: seq<Tok>): nat {
    if ts == [] then 0 else Values(ts[..|ts| - 1]) + (if ts[|ts| - 1].ValueTok? then 1 else 0)
  }

  // ----- the byte-at-a-time reading

  datatype Reading = Reading(core: Core, toks: seq<Tok>, ok: bool)

  function ReadData(index: nat, c: byte): Reading {
    if c == CR then Reading(Core(PartDataAlmostBoundary, index), [], true)
    else Reading(Core(PartData, index), [DataTok(c)], true)
  }

  function ReadBoundary(bd: bytes, index: nat, c: byte): Reading {
    var expected := bd + [CR, LF];
    if index >= |expected| || expected[index] != c then Reading(Core(StartBoundary, index), [], false)
    else if index == |bd| + 1 then Reading(Core(HeaderFieldStart, 0), [Notice(OnPartDataBegin)], true)
    else Reading(Core(StartBoundary, index + 1), [], true)
  }

  function ReadName(index: nat, c: byte): Reading {
    if c == CR then Reading(Core(HeadersAlmostDone, index), [], true)
    else if c == COLON then Reading(Core(HeaderValueStart, index), [], true)
    else Reading(Core(HeaderField, index), if IsNameByte(c) then [FieldTok(c)] else [], IsNameByte(c))
  }

  function ReadValue(index: nat, c: byte): Reading {
    if c == CR then Reading(Core(HeaderValueAlmostDone, index), [], true)
    else Reading(Core(HeaderValue, index), [ValueTok(c)], true)
  }

  /** Expect `c` to be `wanted`, and move on. */
  function ReadOne(q: Core, c: byte, wanted: byte, next: State, toks: seq<Tok>): Reading {
    if c == wanted then Reading(Core(next, q.index), toks, true) else Reading(q, [], false)
  }

  function Read1(bd: bytes, q: Core, c: byte): Reading {
    match q.state
    case Start => ReadBoundary(bd, 0, c)
    case StartBoundary => ReadBoundary(bd, q.index, c)
    case HeaderFieldStart | HeaderField => ReadName(q.index, c)
    case HeadersAlmostDone => ReadOne(q, c, LF, PartDataStart, [])
    case HeaderValueStart => if c == SPACE then Reading(q, [], true) else ReadValue(q.index, c)
    case HeaderValue => ReadValue(q.index, c)
    case HeaderValueAlmostDone => ReadOne(q, c, LF, HeaderFieldStart, [])
    case PartDataStart =>
      var r := ReadData(q.index, c);
      r.(toks := [Notice(OnHeadersComplete)] + r.toks)
    case PartData => ReadData(q.index, c)
    case PartDataAlmostBoundary | PartDataBoundary =>
      var delimiter := [CR, LF] + bd;
      var held := Held(bd, q);
      if |held| >= |delimiter| || delimiter[|held|] != c then
        var r := ReadData(q.index, c);
        r.(toks := DataToks(held) + r.toks)
      else if |held| == 1 then Reading(Core(PartDataBoundary, 0), [], true)
      else if |held| + 1 == |delimiter| then
        Reading(Core(PartDataAlmostEnd, q.index + 1), [Notice(OnPartDataEnd)], true)
      else Reading(Core(PartDataBoundary, q.index + 1), [], true)
    case PartDataAlmostEnd =>
      if c == HYPHEN then Reading(Core(PartDataFinalHyphen, q.index), [], true)
      else ReadOne(q, c, CR, PartDataEnd, [])
    case PartDataFinalHyphen => ReadOne(q, c, HYPHEN, End, [Notice(OnBodyEnd)])
    case PartDataEnd => ReadOne(q, c, LF, HeaderFieldStart, [Notice(OnPartDataBegin)])
    case End => Reading(q, [], true)
  }

  datatype Read = Read(core: Core, toks: seq<Tok>, count: nat, ok: bool)

  /** Read a whole body from `q`, up to the first byte that does not fit. */
  function ReadAll(bd: bytes, q: Core, w: bytes): (r: Read)
    ensures r.count <= |w|
    ensures r.ok <==> r.count == |w|
    decreases |w|
  {
    if w == [] then Read(q, [], 0, true)
    else
      var s := Read1(bd, q, w[0]);
      if !s.ok then Read(s.core, [], 0, false)
      else
        var r := ReadAll(bd, s.core, w[1..]);
        Read(r.core, s.toks + r.toks, r.count + 1, r.ok)
  }

  lemma ReadConcat(bd: bytes, q: Core, a: bytes, b: bytes)
    ensures var ra := ReadAll(bd, q, a);
            var rb := ReadAll(bd, ra.core, b);
            ReadAll(bd, q, a + b) == if ra.ok then Read(rb.core, ra.toks + rb.toks, |a| + rb.count, rb.ok) else ra
    decreases |a|
  {
    if a == [] {
      assert a + b == b;
    } else {
      var s := Read1(bd, q, a[0]);
      assert (a + b)[1..] == a[1..] + b;
      if s.ok {
        ReadConcat(bd, s.core, a[1..], b);
        var r1 := ReadAll(bd, s.core, a[1..]);
        assert s.toks + (r1.toks + ReadAll(bd, r1.core, b).toks) == s.toks + r1.toks + ReadAll(bd, r1.core, b).toks;
      }
    }
  }

  // ----- feeding chunks

  /** Every callback returns zero. */
  ghost predicate Willing(acc: seq<Event> -> bool) {
    forall l :: acc(l)
  }

  function Flat(chunks: seq<bytes>): bytes {
    if chunks == [] then [] else chunks[0] + Flat(chunks[1..])
  }

  datatype Feeding = Feeding(core: Core, log: seq<Event>, count: nat, stopped: bool)

  /** Chunk after chunk, until one is not consumed whole. */
  function Feed(bd: bytes, acc: seq<Event> -> bool, q: Core, log: seq<Event>, chunks: seq<bytes>): Feeding
    decreases |chunks|
  {
    if chunks == [] then Feeding(q, log, 0, false)
    else
      var o := Run(bd, acc, q, [], log, chunks[0], 0);
      if o.status != Consumed then Feeding(o.core, o.log, o.count, true)
      else
        var f := Feed(bd, acc, o.core, o.log, chunks[1..]);
        f.(count := o.count + f.count)
  }

  /** The reading loop of an upload: stop at the first chunk that is not consumed whole. */
  method Upload(p: Parser, chunks: seq<bytes>) returns (count: nat, stopped: bool)
    requires p.Valid()
    modifies p`state, p`index, p`log, p.mem
    ensures p.Allocated() && p.Boundary() == old(p.Boundary())
    ensures Feeding(p.Fields(), p.log, count, stopped) ==
            Feed(old(p.Boundary()), p.accepts, old(p.Fields()), old(p.log), chunks)
  {
    ghost var bd := p.Boundary();
    count, stopped := 0, false;
    var k := 0;
    while k < |chunks|
      invariant k <= |chunks|
      invariant p.Valid() && p.Boundary() == bd
      invariant var rest := Feed(bd, p.accepts, p.Fields(), p.log, chunks[k..]);
                Feed(bd, p.accepts, old(p.Fields()), old(p.log), chunks) == rest.(count := count + rest.count)
    {
      assert chunks[k..][0] == chunks[k] && chunks[k..][1..] == chunks[k + 1..];
      var n, laps := p.Execute(chunks[k]);
      count := count + n;
      if n < |chunks[k]| {
        stopped := true;
        return;
      }
      k := k + 1;
    }
    assert chunks[k..] == [];
  }

  // ----- comparing fragments with bytes

  /** Bytes since the mark, which a later callback of this chunk will hand out. */
  function Pending(q: Core, frag: bytes): seq<Tok> {
    match q.state
    case HeaderField => FieldToks(frag)
    case HeaderValue => ValueToks(frag)
    case PartData => DataToks(frag)
    case _ => []
  }

  lemma ToksSnoc(log: seq<Event>, e: Event)
    ensures Toks(log + [e]) == Toks(log) + EventToks(e)
  {
    assert (log + [e])[..|log|] == log;
  }

  lemma {:induction false} BodyConcat(a: seq<Tok>, b: seq<Tok>)
    ensures Body(a + b) == Body(a) + Body(b)
    ensures Fields(a + b) == Fields(a) + Fields(b)
    ensures Values(a + b) == Values(a) + Values(b)
    decreases |b|
  {
    if b == [] {
      assert a + b == a;
    } else {
      var b', t := b[..|b| - 1], b[|b| - 1];
      assert (a + b)[..|a + b| - 1] == a + b';
      BodyConcat(a, b');
    }
  }

  /** `a` tells the same as `b`, up to header bytes lost from names or repeated in values. */
  predicate Agree(a: seq<Tok>, b: seq<Tok>) {
    Body(a) == Body(b) && Fields(a) <= Fields(b) && Values(b) <= Values(a)
  }

  predicate Differ(a: seq<Tok>, b: seq<Tok>) {
    Fields(a) < Fields(b) || Values(b) < Values(a)
  }

  /** The three ways the cutting shows in headers: a chunk ending on a hyphen of a name
      loses what it holds of the name; a name broken off by a carriage return or a byte
      that is no name byte loses what its chunk holds of it; and a chunk ending on the
      carriage return after a value hands out the value twice. */
  predicate Slip(q: Core, c: byte, first: bool, last: bool) {
    || (q.state == HeaderField && !first && (c == CR || (c != COLON && !IsNameByte(c))))
    || ((q.state == HeaderField || q.state == HeaderFieldStart) && last && c == HYPHEN)
    || ((q.state == HeaderValue || q.state == HeaderValueStart) && last && c == CR)
  }

  predicate ChunkSlips(bd: bytes, q: Core, buf: bytes, k: nat)
    requires k <= |buf|
    decreases |buf| - k
  {
    k < |buf| &&
    (|| Slip(q, buf[k], k == 0, k == |buf| - 1)
     || var r := Read1(bd, q, buf[k]);
        r.ok && ChunkSlips(bd, r.core, buf, k + 1))
  }

  predicate Slips(bd: bytes, q: Core, chunks: seq<bytes>)
    decreases |chunks|
  {
    chunks != [] &&
    (|| ChunkSlips(bd, q, chunks[0], 0)
     || var r := ReadAll(bd, q, chunks[0]);
        r.ok && Slips(bd, r.core, chunks[1..]))
  }

  function MoveToks(m: Move): seq<Tok> {
    if m.Fires? then EventToks(m.event) + MoveToks(m.next) else []
  }

  /** Where a move ends up when no callback refuses. */
  function Final(m: Move): (r: Move)
    ensures !r.Fires?
  {
    if m.Fires? then Final(m.next) else m
  }

  lemma {:induction false} LandWilling(acc: seq<Event> -> bool, log: seq<Event>, m: Move)
    requires Willing(acc)
    ensures var a, f := Land(acc, log, m), Final(m);
            && a.core == f.core
            && a.status == (if f.Goes? then Consumed else Rejected)
            && (f.Goes? ==> a.frag == f.frag)
            && Toks(a.log) == Toks(log) + MoveToks(m)
    decreases m
  {
    hide EventToks;
    if m.Fires? {
      LandWilling(acc, log + [m.event], m.next);
      ToksSnoc(log, m.event);
      assert Toks(log) + EventToks(m.event) + MoveToks(m.next) == Toks(log) + (EventToks(m.event) + MoveToks(m.next));
    }
  }

  lemma DataControl(index: nat, frag: bytes, c: byte, last: bool)
    ensures var f, r := Final(DataStep(index, frag, c, last)), ReadData(index, c);
            f.Goes? && f.core == r.core
  {
  }

  lemma ValueControl(index: nat, frag: bytes, c: byte, last: bool)
    ensures var f, r := Final(ValueStep(index, frag, c, last)), ReadValue(index, c);
            f.Goes? && f.core == r.core
  {
    var m := ValueStep(index, frag, c, last);
    if m.Fires? {
      assert Final(m) == Final(m.next);
    }
  }

  lemma SameControl(bd: bytes, q: Core, frag: bytes, c: byte, last: bool)
    ensures var f, r := Final(Step(bd, q, frag, c, last)), Read1(bd, q, c);
            && f.core == r.core
            && f.Goes? == r.ok
            && (r.ok && r.core.state == HeaderField ==> f.frag != [])
  {
    DataControl(q.index, [], c, last);
    DataControl(q.index, frag, c, last);
    ValueControl(q.index, [], c, last);
    ValueControl(q.index, frag, c, last);
    if q.state == PartDataBoundary && q.index < |bd| {
      var delimiter := [CR, LF] + bd;
      assert delimiter[|Held(bd, q)|] == bd[q.index];
    }
  }

  lemma {:induction false} HeaderToks(s: bytes)
    ensures Body(FieldToks(s)) == [] && Fields(FieldToks(s)) == |s| && Values(FieldToks(s)) == 0
    ensures Body(ValueToks(s)) == [] && Fields(ValueToks(s)) == 0 && Values(ValueToks(s)) == |s|
    decreases |s|
  {
    if s != [] {
      var s' := s[..|s| - 1];
      HeaderToks(s');
      assert FieldToks(s)[..|s| - 1] == FieldToks(s');
      assert ValueToks(s)[..|s| - 1] == ValueToks(s');
    }
  }

  /** What a move hands out at once, and what it leaves to be handed out by this chunk. */
  function Told(m: Move, last: bool): seq<Tok> {
    var f := Final(m);
    MoveToks(m) + (if last || f.Stops? then [] else Pending(f.core, f.frag))
  }

  lemma ToldFires(m: Move, last: bool)
    requires m.Fires?
    ensures Told(m, last) == EventToks(m.event) + Told(m.next, last)
  {
    var f := Final(m);
    assert f == Final(m.next);
  }

  lemma DataTold(index: nat, frag: bytes, c: byte, last: bool)
    ensures Told(DataStep(index, frag, c, last), last) == DataToks(frag) + ReadData(index, c).toks
  {
    var m := DataStep(index, frag, c, last);
    assert DataToks(frag + [c]) == DataToks(frag) + [DataTok(c)];
    if m.Fires? {
      ToldFires(m, last);
    }
  }

  /** What is told of a byte fits its reading, and only a slip makes a difference. */
  predicate Fits(told: seq<Tok>, read: seq<Tok>, slip: bool) {
    Agree(told, read) && if slip then Differ(told, read) else told == read
  }

  lemma NameTold(index: nat, frag: bytes, c: byte, first: bool, last: bool)
    requires first <==> frag == []
    ensures Fits(Told(FieldStep(index, frag, c, last), last), FieldToks(frag) + ReadName(index, c).toks,
                 Slip(Core(HeaderField, index), c, first, last))
  {
    hide Body, Fields, Values;
    var m := FieldStep(index, frag, c, last);
    var told, read := Told(m, last), FieldToks(frag) + ReadName(index, c).toks;
    assert FieldToks(frag + [c]) == FieldToks(frag) + [FieldTok(c)];
    if m.Fires? {
      ToldFires(m, last);
    }
    if Slip(Core(HeaderField, index), c, first, last) {
      assert told == [];
      assert read == FieldToks(frag) || read == FieldToks(frag + [c]);
      LostName(frag);
      LostName(frag + [c]);
    } else {
      assert told == read;
    }
  }

  lemma LostName(s: bytes)
    ensures Agree([], FieldToks(s)) && (s != [] ==> Differ([], FieldToks(s)))
  {
    HeaderToks(s);
  }

  lemma ValueTold(index: nat, frag: bytes, c: byte, last: bool)
    ensures Fits(Told(ValueStep(index, frag, c, last), last), ValueToks(frag) + ReadValue(index, c).toks,
                 last && c == CR)
  {
    var m := ValueStep(index, frag, c, last);
    var told, read := Told(m, last), ValueToks(frag) + ReadValue(index, c).toks;
    assert ValueToks(frag + [c]) == ValueToks(frag) + [ValueTok(c)];
    if m.Fires? {
      ToldFires(m, last);
      if m.next.Fires? {
        ToldFires(m.next, last);
      }
    }
    if last && c == CR {
      HeaderToks(frag);
      HeaderToks(frag + [c]);
      BodyConcat(ValueToks(frag), ValueToks(frag + [c]));
      assert told == ValueToks(frag) + ValueToks(frag + [c]);
      assert read == ValueToks(frag);
    } else {
      assert told == read;
    }
  }

  lemma DelimiterTold(bd: bytes, q: Core, c: byte, last: bool)
    requires q.state == PartDataAlmostBoundary || q.state == PartDataBoundary
    ensures Told(Step(bd, q, [], c, last), last) == Read1(bd, q, c).toks
  {
    var m := Step(bd, q, [], c, last);
    if q.state == PartDataBoundary && q.index < |bd| {
      var delimiter := [CR, LF] + bd;
      assert delimiter[|Held(bd, q)|] == bd[q.index];
    }
    if m.Fires? {
      ToldFires(m, last);
      if m == FalseMatch(q, Held(bd, q), c, last) {
        DataTold(q.index, [], c, last);
      }
    }
  }

  lemma BoundaryTold(bd: bytes, index: nat, c: byte, last: bool)
    ensures Told(BoundaryStep(bd, index, c), last) == ReadBoundary(bd, index, c).toks
  {
    var m := BoundaryStep(bd, index, c);
    if m.Fires? {
      ToldFires(m, last);
    }
  }

  lemma DataStartTold(bd: bytes, q: Core, c: byte, last: bool)
    requires q.state == PartDataStart
    ensures Told(Step(bd, q, [], c, last), last) == Read1(bd, q, c).toks
  {
    ToldFires(Step(bd, q, [], c, last), last);
    DataTold(q.index, [], c, last);
  }

  /** Callback bytes and bytes still pending, before and after one byte. */
  lemma StepTold(bd: bytes, q: Core, frag: bytes, c: byte, first: bool, last: bool)
    requires q.state == HeaderField ==> (frag == [] <==> first)
    ensures Fits(Told(Step(bd, q, frag, c, last), last), Pending(q, frag) + Read1(bd, q, c).toks,
                 Slip(q, c, first, last))
  {
    hide Body, Fields, Values;
    var toks := Read1(bd, q, c).toks;
    if q.state == HeaderField {
      NameTold(q.index, frag, c, first, last);
    } else if q.state == HeaderValue {
      ValueTold(q.index, frag, c, last);
    } else if q.state == PartData {
      DataTold(q.index, frag, c, last);
    } else {
      assert Pending(q, frag) == [] && [] + toks == toks;
      FragIrrelevant(bd, q, frag, [], c, last);
      StepToldAfresh(bd, q, c, first, last);
    }
  }

  lemma StepToldAfresh(bd: bytes, q: Core, c: byte, first: bool, last: bool)
    requires !Marks(q.state)
    ensures Fits(Told(Step(bd, q, [], c, last), last), Read1(bd, q, c).toks, Slip(q, c, first, last))
  {
    hide Body, Fields, Values;
    var m, toks := Step(bd, q, [], c, last), Read1(bd, q, c).toks;
    if q.state == HeaderFieldStart {
      NameTold(q.index, [], c, true, last);
      assert FieldToks([]) + toks == toks;
    } else if q.state == HeaderValueStart {
      if c != SPACE {
        ValueTold(q.index, [], c, last);
        assert ValueToks([]) + toks == toks;
      } else {
        BlankTold(bd, q, last);
      }
    } else if q.state == PartDataStart {
      DataStartTold(bd, q, c, last);
    } else if q.state == PartDataAlmostBoundary || q.state == PartDataBoundary {
      DelimiterTold(bd, q, c, last);
    } else if q.state == Start || q.state == StartBoundary {
      BoundaryTold(bd, if q.state == Start then 0 else q.index, c, last);
    } else {
      ClosingTold(bd, q, c, last);
    }
  }

  lemma BlankTold(bd: bytes, q: Core, last: bool)
    requires q.state == HeaderValueStart
    ensures Told(Step(bd, q, [], SPACE, last), last) == Read1(bd, q, SPACE).toks
  {
  }

  lemma ClosingTold(bd: bytes, q: Core, c: byte, last: bool)
    requires q.state in {HeaderValueAlmostDone, HeadersAlmostDone, PartDataAlmostEnd, PartDataEnd, PartDataFinalHyphen, End}
    ensures Told(Step(bd, q, [], c, last), last) == Read1(bd, q, c).toks
  {
    var m := Step(bd, q, [], c, last);
    if m.Fires? {
      ToldFires(m, last);
    }
  }

  /** What has been handed out stands to what has been read as the step lemma says. */
  predicate Compares(told: seq<Tok>, read: seq<Tok>, slip: bool) {
    Agree(told, read) && (slip ==> Differ(told, read)) && (!slip ==> told == read)
  }

  lemma ComparesSuffix(a: seq<Tok>, b: seq<Tok>, y: seq<Tok>, slip: bool)
    requires Compares(a, b, slip)
    ensures Compares(a + y, b + y, slip)
  {
    BodyConcat(a, y);
    BodyConcat(b, y);
  }

  lemma ComparesPrefix(x: seq<Tok>, a: seq<Tok>, b: seq<Tok>, slip: bool)
    requires Compares(a, b, slip)
    ensures Compares(x + a, x + b, slip)
  {
    BodyConcat(x, a);
    BodyConcat(x, b);
  }

  lemma ComparesTrans(a: seq<Tok>, b: seq<Tok>, c: seq<Tok>, slip: bool, slip': bool)
    requires Compares(a, b, slip) && Compares(b, c, slip')
    ensures Compares(a, c, slip || slip')
  {
  }

  /** `out` was handed out and `kept` pends of `read`; then `more` is handed out of `kept` and `rest`. */
  lemma ComparesJoin(out: seq<Tok>, kept: seq<Tok>, read: seq<Tok>, more: seq<Tok>, rest: seq<Tok>,
                     slip: bool, slip': bool)
    requires Compares(out + kept, read, slip)
    requires Compares(more, kept + rest, slip')
    ensures Compares(out + more, read + rest, slip || slip')
  {
    var middle := out + (kept + rest);
    assert Compares(out + more, middle, slip') by {
      ComparesPrefix(out, more, kept + rest, slip');
    }
    assert Compares(middle, read + rest, slip) by {
      ComparesSuffix(out + kept, read, rest, slip);
      assert out + kept + rest == middle;
    }
    ComparesTrans(out + more, middle, read + rest, slip', slip);
  }

  /** One byte of a chunk: `out` is handed out at once, `kept` later in this chunk. */
  lemma StepLands(bd: bytes, acc: seq<Event> -> bool, q: Core, frag: bytes, log: seq<Event>,
                  c: byte, first: bool, last: bool) returns (out: seq<Tok>, kept: seq<Tok>)
    requires Willing(acc)
    requires q.state == HeaderField ==> (frag == [] <==> first)
    ensures var a, r := Land(acc, log, Step(bd, q, frag, c, last)), Read1(bd, q, c);
            && a.core == r.core
            && a.status == (if r.ok then Consumed else Rejected)
            && (r.ok && a.core.state == HeaderField ==> a.frag != [])
            && Toks(a.log) == Toks(log) + out
            && kept == (if last || !r.ok then [] else Pending(a.core, a.frag))
            && Compares(out + kept, Pending(q, frag) + r.toks, Slip(q, c, first, last))
  {
    var m := Step(bd, q, frag, c, last);
    LandWilling(acc, log, m);
    SameControl(bd, q, frag, c, last);
    StepTold(bd, q, frag, c, first, last);
    out := MoveToks(m);
    kept := if last || Final(m).Stops? then [] else Pending(Final(m).core, Final(m).frag);
    assert out + kept == Told(m, last);
  }

  lemma Assoc(a: seq<Tok>, b: seq<Tok>, c: seq<Tok>)
    ensures a + b + c == a + (b + c)
  {
  }

  /** The reading of the rest of a chunk, one byte unfolded. */
  lemma ReadFrom(bd: bytes, q: Core, buf: bytes, k: nat)
    requires k < |buf|
    ensures var s, r := Read1(bd, q, buf[k]), ReadAll(bd, q, buf[k..]);
            if !s.ok then s.toks == [] && r == Read(s.core, s.toks, 0, false)
            else var r' := ReadAll(bd, s.core, buf[k + 1..]);
                 r == Read(r'.core, s.toks + r'.toks, r'.count + 1, r'.ok)
  {
    assert buf[k..][0] == buf[k] && buf[k..][1..] == buf[k + 1..];
  }

  /** From position `k` of a chunk on, `t` is handed out, counting what is pending. */
  lemma {:induction false} RunTold(bd: bytes, acc: seq<Event> -> bool, q: Core, frag: bytes,
                                   log: seq<Event>, buf: bytes, k: nat) returns (t: seq<Tok>)
    requires Willing(acc) && k < |buf|
    requires q.state == HeaderField ==> (frag == [] <==> k == 0)
    ensures var o, r := Run(bd, acc, q, frag, log, buf, k), ReadAll(bd, q, buf[k..]);
            && o.core == r.core && o.count == k + r.count
            && o.status == (if r.ok then Consumed else Rejected)
            && Toks(o.log) == Toks(log) + t
            && Compares(t, Pending(q, frag) + r.toks, ChunkSlips(bd, q, buf, k))
    decreases |buf| - k
  {
    hide Read1, Step, Land, Slip, Toks, Pending, Body, Fields, Values;
    var c, first, last := buf[k], k == 0, k == |buf| - 1;
    var r1, slip := Read1(bd, q, c), Slip(q, c, first, last);
    ReadFrom(bd, q, buf, k);
    var out, kept := StepLands(bd, acc, q, frag, log, c, first, last);
    var a := Land(acc, log, Step(bd, q, frag, c, last));
    if !r1.ok || last {
      assert out + kept == out;
      assert buf[|buf|..] == [] && r1.toks + [] == r1.toks;
      assert ChunkSlips(bd, q, buf, k) == slip;
      t := out;
    } else {
      var more := RunTold(bd, acc, a.core, a.frag, a.log, buf, k + 1);
      var r := ReadAll(bd, a.core, buf[k + 1..]);
      ComparesJoin(out, kept, Pending(q, frag) + r1.toks, more, r.toks, slip, ChunkSlips(bd, a.core, buf, k + 1));
      Assoc(Pending(q, frag), r1.toks, r.toks);
      Assoc(Toks(log), out, more);
      t := out + more;
    }
  }

  /** Feeding chunks compared with reading their concatenation. */
  lemma {:induction false} FeedTold(bd: bytes, acc: seq<Event> -> bool, q: Core, log: seq<Event>,
                                    chunks: seq<bytes>) returns (t: seq<Tok>)
    requires Willing(acc)
    ensures var f, r := Feed(bd, acc, q, log, chunks), ReadAll(bd, q, Flat(chunks));
            && f.core == r.core && f.count == r.count && f.stopped == !r.ok
            && Toks(f.log) == Toks(log) + t
            && Compares(t, r.toks, Slips(bd, q, chunks))
    decreases |chunks|
  {
    hide Read1, Toks, Body, Fields, Values;
    if chunks == [] {
      t := [];
    } else if chunks[0] == [] {
      assert Flat(chunks) == Flat(chunks[1..]);
      t := FeedTold(bd, acc, q, log, chunks[1..]);
    } else {
      var buf, rest := chunks[0], Flat(chunks[1..]);
      assert buf[0..] == buf;
      var out := RunTold(bd, acc, q, [], log, buf, 0);
      var o, r0 := Run(bd, acc, q, [], log, buf, 0), ReadAll(bd, q, buf);
      assert Pending(q, []) + r0.toks == r0.toks;
      ReadConcat(bd, q, buf, rest);
      t := out;
      if r0.ok {
        var more := FeedTold(bd, acc, o.core, o.log, chunks[1..]);
        var r := ReadAll(bd, o.core, rest);
        assert out + [] == out && [] + r.toks == r.toks;
        ComparesJoin(out, [], r0.toks, more, r.toks, ChunkSlips(bd, q, buf, 0), Slips(bd, o.core, chunks[1..]));
        Assoc(Toks(log), out, more);
        t := out + more;
      }
    }
  }

  /** Any two ways of cutting a body up leave the parser in the same state with the same
      bytes undecided, stop at the same byte and hand out the same part data and notices. */
  lemma CuttingIrrelevant(bd: bytes, acc: seq<Event> -> bool, q: Core, log: seq<Event>, xs: seq<bytes>, ys: seq<bytes>)
    requires Willing(acc)
    requires Flat(xs) == Flat(ys)
    ensures var f, g := Feed(bd, acc, q, log, xs), Feed(bd, acc, q, log, ys);
            && f.core == g.core && f.count == g.count && f.stopped == g.stopped
            && Held(bd, f.core) == Held(bd, g.core)
            && Body(Toks(f.log)) == Body(Toks(g.log))
  {
    var r := ReadAll(bd, q, Flat(xs));
    var t := FeedTold(bd, acc, q, log, xs);
    var u := FeedTold(bd, acc, q, log, ys);
    BodyConcat(Toks(log), t);
    BodyConcat(Toks(log), u);
  }

  /** Header bytes are handed out exactly as read if and only if no cut slips. */
  lemma {:induction false} HeadersExact(bd: bytes, acc: seq<Event> -> bool, q: Core, log: seq<Event>, chunks: seq<bytes>)
    requires Willing(acc)
    ensures Toks(Feed(bd, acc, q, log, chunks).log) == Toks(log) + ReadAll(bd, q, Flat(chunks)).toks
            <==> !Slips(bd, q, chunks)
  {
    var r := ReadAll(bd, q, Flat(chunks));
    var t := FeedTold(bd, acc, q, log, chunks);
    if Toks(log) + t == Toks(log) + r.toks {
      assert t == (Toks(log) + t)[|Toks(log)|..] == (Toks(log) + r.toks)[|Toks(log)|..] == r.toks;
    }
  }
}
