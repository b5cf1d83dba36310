/**
 What a consumer of the callbacks makes of a body: parts with their headers, a run of
 name callbacks being one name and the run of value callbacks after it its value, and
 with their data. It is what a reading of the bytes makes of the body exactly if no
 chunk slips, empty names and values included.
 */
module MultipartGathering {
  import opened MultipartMachine
  import opened MultipartChunking

  datatype Field = Field(name: bytes, value: bytes)

  datatype Item = Item(fields: seq<Field>, data: bytes)

  /** `naming` tells whether the last callback was one for a name. */
  datatype Gathered = Gathered(items: seq<Item>, naming: bool)

  const Nothing := Gathered([], false)

  function LastItem(g: Gathered): Item {
    if g.items == [] then Item([], []) else g.items[|g.items| - 1]
  }

  /** `g` with its last item replaced; the first item if there is none. */
  function WithLast(g: Gathered, item: Item, naming: bool): Gathered {
    Gathered((if g.items == [] then [] else g.items[..|g.items| - 1]) + [item], naming)
  }

  function LastField(item: Item): Field {
    if item.fields == [] then Field([], []) else item.fields[|item.fields| - 1]
  }

  function WithField(item: Item, f: Field): Item {
    item.(fields := (if item.fields == [] then [] else item.fields[..|item.fields| - 1]) + [f])
  }

  /** A name callback carries on the name before it, or begins a header. */
  function Named(g: Gathered, s: bytes): Gathered {
    var item := LastItem(g);
    var f := LastField(item);
    WithLast(g, if g.naming then WithField(item, f.(name := f.name + s)) else item.(fields := item.fields + [Field(s, [])]), true)
  }

  function Valued(g: Gathered, s: bytes): Gathered {
    var item := LastItem(g);
    var f := LastField(item);
    WithLast(g, WithField(item, f.(value := f.value + s)), false)
  }

  function Filled(g: Gathered, s: bytes): Gathered {
    var item := LastItem(g);
    WithLast(g, item.(data := item.data + s), false)
  }

  function Noticed(g: Gathered, e: Event): Gathered {
    if e == OnPartDataBegin then Gathered(g.items + [Item([], [])], false) else g.(naming := false)
  }

  function Took(g: Gathered, e: Event): Gathered {
    match e
    case OnHeaderField(s) => Named(g, s)
    case OnHeaderValue(s) => Valued(g, s)
    case OnPartData(s) => Filled(g, s)
    case _ => Noticed(g, e)
  }

  /** What the callbacks of a log add up to. */
  function Gather(log: seq<Event>): Gathered {
    if log == [] then Nothing else Took(Gather(log[..|log| - 1]), log[|log| - 1])
  }

  lemma GatherSnoc(log: seq<Event>, e: Event)
    ensures Gather(log + [e]) == Took(Gather(log), e)
  {
    assert (log + [e])[..|log|] == log;
  }

  // ----- the same from the bytes

  function Added(g: Gathered, t: Tok): Gathered {
    match t
    case Notice(e) => Noticed(g, e)
    case FieldTok(c) => Named(g, [c])
    case ValueTok(c) => Valued(g, [c])
    case DataTok(c) => Filled(g, [c])
  }

  function AddedAll(g: Gathered, ts: seq<Tok>): Gathered
    decreases |ts|
  {
    if ts == [] then g else AddedAll(Added(g, ts[0]), ts[1..])
  }

  /** A name can end, and a value can end, before it has any bytes. */
  function Opened(q: Core, c: byte, g: Gathered): Gathered {
    if q.state == HeaderFieldStart && c == COLON then Named(g, [])
    else if q.state == HeaderValueStart && c == CR then Valued(g, [])
    else g
  }

  function Absorb1(bd: bytes, q: Core, c: byte, g: Gathered): Gathered {
    AddedAll(Opened(q, c, g), Read1(bd, q, c).toks)
  }

  /** What reading `w` adds to `g`, up to the first byte that does not fit. */
  function Absorb(bd: bytes, q: Core, w: bytes, g: Gathered): Gathered
    decreases |w|
  {
    if w == [] || !Read1(bd, q, w[0]).ok then g
    else Absorb(bd, Read1(bd, q, w[0]).core, w[1..], Absorb1(bd, q, w[0], g))
  }

  lemma {:induction false} AbsorbConcat(bd: bytes, q: Core, a: bytes, b: bytes, g: Gathered)
    ensures var r := ReadAll(bd, q, a);
            Absorb(bd, q, a + b, g) ==
            if r.ok then Absorb(bd, r.core, b, Absorb(bd, q, a, g)) else Absorb(bd, q, a, g)
    decreases |a|
  {
    hide Read1, Absorb1;
    if a == [] {
      assert a + b == b;
    } else {
      assert (a + b)[1..] == a[1..] + b;
      var s := Read1(bd, q, a[0]);
      if s.ok {
        AbsorbConcat(bd, s.core, a[1..], b, Absorb1(bd, q, a[0], g));
      }
    }
  }

  // ----- callbacks and bytes

  predicate Unnamed(s: State) {
    s in {HeaderFieldStart, HeaderValue, HeaderValueAlmostDone, PartData, PartDataAlmostBoundary, PartDataBoundary}
  }

  /** The state fits what has been gathered: it is inside a name after a byte or callback of
      one, and everything but the opening delimiter belongs to some part. */
  predicate Follows(q: Core, g: Gathered) {
    && (q.state == Start || q.state == StartBoundary || g.items != [])
    && (q.state == HeaderField || q.state == HeaderValueStart ==> g.naming)
    && (Unnamed(q.state) ==> !g.naming)
    && (g.naming || q.state == HeaderValue ==> LastItem(g).fields != [])
  }

  /** What will have been gathered once the bytes since the mark are handed out. */
  function Flushed(q: Core, frag: bytes, g: Gathered): Gathered {
    if frag == [] then g
    else
      match q.state
      case HeaderField => Named(g, frag)
      case HeaderValue => Valued(g, frag)
      case PartData => Filled(g, frag)
      case _ => g
  }

  function TookAll(g: Gathered, m: Move): Gathered
    decreases m
  {
    if m.Fires? then TookAll(Took(g, m.event), m.next) else g
  }

  lemma {:induction false} LandGathers(acc: seq<Event> -> bool, log: seq<Event>, m: Move)
    requires Willing(acc)
    ensures Gather(Land(acc, log, m).log) == TookAll(Gather(log), m)
    decreases m
  {
    hide Took;
    if m.Fires? {
      LandGathers(acc, log + [m.event], m.next);
      GatherSnoc(log, m.event);
    }
  }

  lemma NamedTwice(g: Gathered, s: bytes, t: bytes)
    ensures Named(Named(g, s), t) == Named(g, s + t)
  {
    var item := LastItem(g);
    assert LastItem(Named(g, s)) == if g.naming then WithField(item, LastField(item).(name := LastField(item).name + s))
                                    else item.(fields := item.fields + [Field(s, [])]);
    assert LastField(item).name + s + t == LastField(item).name + (s + t);
  }

  lemma ValuedTwice(g: Gathered, s: bytes, t: bytes)
    ensures Valued(Valued(g, s), t) == Valued(g, s + t)
  {
    var f := LastField(LastItem(g));
    assert f.value + s + t == f.value + (s + t);
  }

  lemma FilledTwice(g: Gathered, s: bytes, t: bytes)
    ensures Filled(Filled(g, s), t) == Filled(g, s + t)
  {
    var item := LastItem(g);
    assert item.data + s + t == item.data + (s + t);
  }

  /** An empty piece adds nothing to what has begun. */
  lemma NothingAdded(g: Gathered)
    requires g.items != []
    ensures g.naming && LastItem(g).fields != [] ==> Named(g, []) == g
    ensures !g.naming && LastItem(g).fields != [] ==> Valued(g, []) == g
    ensures !g.naming ==> Filled(g, []) == g
  {
    var item := LastItem(g);
    assert g.items == g.items[..|g.items| - 1] + [item];
    if item.fields != [] {
      assert item.fields == item.fields[..|item.fields| - 1] + [LastField(item)];
      assert LastField(item).name + [] == LastField(item).name;
      assert LastField(item).value + [] == LastField(item).value;
    }
    assert item.data + [] == item.data;
  }

  lemma {:induction false} AddedConcat(g: Gathered, a: seq<Tok>, b: seq<Tok>)
    ensures AddedAll(g, a + b) == AddedAll(AddedAll(g, a), b)
    decreases |a|
  {
    hide Added;
    if a == [] {
      assert a + b == b;
    } else {
      assert (a + b)[1..] == a[1..] + b;
      AddedConcat(Added(g, a[0]), a[1..], b);
    }
  }

  lemma AddedOne(g: Gathered, t: Tok)
    ensures AddedAll(g, [t]) == Added(g, t)
  {
    assert [t][1..] == [];
  }

  lemma {:induction false} AddedData(g: Gathered, s: bytes)
    requires g.items != [] && !g.naming
    ensures AddedAll(g, DataToks(s)) == Filled(g, s)
    decreases |s|
  {
    hide Filled;
    if s == [] {
      NothingAdded(g);
    } else {
      assert DataToks(s)[1..] == DataToks(s[1..]);
      FilledKeeps(g, [s[0]]);
      AddedData(Filled(g, [s[0]]), s[1..]);
      FilledTwice(g, [s[0]], s[1..]);
      assert [s[0]] + s[1..] == s;
    }
  }

  lemma FilledKeeps(g: Gathered, s: bytes)
    ensures Filled(g, s).items != [] && !Filled(g, s).naming
    ensures LastItem(Filled(g, s)).fields == LastItem(g).fields
  {
  }

  /** What has been gathered after one byte, counting what this chunk will hand out. */
  function After(m: Move, last: bool, g: Gathered): Gathered {
    var f := Final(m);
    if last || f.Stops? then TookAll(g, m) else Flushed(f.core, f.frag, TookAll(g, m))
  }

  lemma AfterFires(m: Move, last: bool, g: Gathered)
    requires m.Fires?
    ensures After(m, last, g) == After(m.next, last, Took(g, m.event))
  {
    hide Took;
    assert Final(m) == Final(m.next);
  }

  lemma DataGathers(index: nat, frag: bytes, c: byte, last: bool, g: Gathered)
    requires frag == [] ==> g.items != [] && !g.naming
    ensures After(DataStep(index, frag, c, last), last, g) == AddedAll(Filled(g, frag), ReadData(index, c).toks)
  {
    if frag == [] {
      NothingAdded(g);
    }
    hide Filled;
    var m := DataStep(index, frag, c, last);
    if m.Fires? {
      AfterFires(m, last, g);
    }
    FilledTwice(g, frag, [c]);
    AddedOne(Filled(g, frag), DataTok(c));
  }

  lemma NameGathers(index: nat, frag: bytes, c: byte, first: bool, last: bool, g: Gathered)
    requires first <==> frag == []
    requires first ==> g.items != [] && g.naming && LastItem(g).fields != []
    requires !Slip(Core(HeaderField, index), c, first, last)
    ensures var r, m := ReadName(index, c), FieldStep(index, frag, c, last);
            After(m, last, g) == if r.ok then AddedAll(Named(g, frag), r.toks) else Named(g, frag)
  {
    if first {
      NothingAdded(g);
    }
    hide Named;
    var m := FieldStep(index, frag, c, last);
    if m.Fires? {
      AfterFires(m, last, g);
    }
    NamedTwice(g, frag, [c]);
    AddedOne(Named(g, frag), FieldTok(c));
  }

  /** The first byte of a name. */
  lemma NameBegins(index: nat, c: byte, last: bool, g: Gathered)
    requires !g.naming && !(last && c == HYPHEN)
    ensures var q, r, m := Core(HeaderFieldStart, index), ReadName(index, c), FieldStep(index, [], c, last);
            After(m, last, g) == if r.ok then AddedAll(Opened(q, c, g), r.toks) else g
  {
    hide Named;
    var m := FieldStep(index, [], c, last);
    if m.Fires? {
      AfterFires(m, last, g);
    }
    assert [] + [c] == [c];
    AddedOne(g, FieldTok(c));
  }

  lemma ValueGathers(index: nat, frag: bytes, c: byte, last: bool, g: Gathered)
    requires !(last && c == CR)
    ensures After(ValueStep(index, frag, c, last), last, g) ==
            if c == CR then Valued(g, frag) else Valued(g, frag + [c])
  {
    hide Valued;
    var m := ValueStep(index, frag, c, last);
    if m.Fires? {
      AfterFires(m, last, g);
    }
  }

  lemma DelimiterGathers(bd: bytes, q: Core, c: byte, last: bool, g: Gathered)
    requires q.state == PartDataAlmostBoundary || q.state == PartDataBoundary
    requires g.items != [] && !g.naming
    ensures After(Step(bd, q, [], c, last), last, g) == AddedAll(g, Read1(bd, q, c).toks)
  {
    hide Filled;
    var m, r, h := Step(bd, q, [], c, last), Read1(bd, q, c), Held(bd, q);
    if q.state == PartDataBoundary && q.index < |bd| {
      var delimiter := [CR, LF] + bd;
      assert delimiter[|h|] == bd[q.index];
    }
    if m.Fires? {
      AfterFires(m, last, g);
      if m == FalseMatch(q, h, c, last) {
        FilledKeeps(g, h);
        AddedData(g, h);
        NothingAdded(Filled(g, h));
        AddedConcat(g, DataToks(h), ReadData(q.index, c).toks);
        DataGathers(q.index, [], c, last, Filled(g, h));
      } else {
        AddedOne(g, Notice(OnPartDataEnd));
      }
    }
  }

  lemma DataStartGathers(bd: bytes, q: Core, c: byte, last: bool, g: Gathered)
    requires q.state == PartDataStart && g.items != []
    ensures After(Step(bd, q, [], c, last), last, g) == AddedAll(g, Read1(bd, q, c).toks)
  {
    hide Filled;
    var g' := Took(g, OnHeadersComplete);
    AfterFires(Step(bd, q, [], c, last), last, g);
    NothingAdded(g');
    DataGathers(q.index, [], c, last, g');
    AddedConcat(g, [Notice(OnHeadersComplete)], ReadData(q.index, c).toks);
    AddedOne(g, Notice(OnHeadersComplete));
  }

  /** A byte of a name, of a value or of data. */
  lemma MarkedGathers(bd: bytes, q: Core, frag: bytes, c: byte, first: bool, last: bool, g: Gathered)
    requires Marks(q.state) && (q.state == HeaderField ==> (frag == [] <==> first))
    requires Follows(q, Flushed(q, frag, g)) && !Slip(q, c, first, last)
    ensures var G, r := Flushed(q, frag, g), Read1(bd, q, c);
            After(Step(bd, q, frag, c, last), last, g) == if r.ok then Absorb1(bd, q, c, G) else G
  {
    if frag == [] {
      NothingAdded(g);
    }
    if q.state == PartData && frag != [] {
      FilledTwice(g, [], []);
    }
    hide Named, Valued, Filled, AddedAll;
    if q.state == HeaderField {
      NameGathers(q.index, frag, c, first, last, g);
    } else if q.state == HeaderValue {
      ValueGathers(q.index, frag, c, last, g);
      ValuedTwice(g, frag, [c]);
      AddedOne(Valued(g, frag), ValueTok(c));
      AddedNone(Valued(g, frag));
    } else {
      DataGathers(q.index, frag, c, last, g);
    }
  }

  lemma AddedNone(g: Gathered)
    ensures AddedAll(g, []) == g
  {
  }

  lemma FreshGathers(bd: bytes, q: Core, c: byte, first: bool, last: bool, g: Gathered)
    requires !Marks(q.state) && Follows(q, g) && !Slip(q, c, first, last)
    ensures var r := Read1(bd, q, c);
            After(Step(bd, q, [], c, last), last, g) == if r.ok then Absorb1(bd, q, c, g) else g
  {
    if q.state == HeaderFieldStart {
      NameBegins(q.index, c, last, g);
    } else if q.state == HeaderValueStart {
      ValueBegins(bd, q, c, last, g);
    } else if q.state == PartDataStart {
      DataStartGathers(bd, q, c, last, g);
    } else if q.state == PartDataAlmostBoundary || q.state == PartDataBoundary {
      DelimiterGathers(bd, q, c, last, g);
    } else {
      NoticeGathers(bd, q, c, last, g);
    }
  }

  lemma ValueBegins(bd: bytes, q: Core, c: byte, last: bool, g: Gathered)
    requires q.state == HeaderValueStart && !(last && c == CR)
    ensures After(Step(bd, q, [], c, last), last, g) == Absorb1(bd, q, c, g)
  {
    hide Valued;
    ValueGathers(q.index, [], c, last, g);
    assert [] + [c] == [c];
    AddedOne(g, ValueTok(c));
  }

  predicate InData(s: State) {
    s in {PartDataStart, PartData, PartDataAlmostBoundary, PartDataBoundary}
  }

  predicate InHeader(s: State) {
    s in {HeaderFieldStart, HeaderField, HeaderValueStart, HeaderValue}
  }

  /** The other states fire nothing but notices. */
  lemma NoticeGathers(bd: bytes, q: Core, c: byte, last: bool, g: Gathered)
    requires !InData(q.state) && !InHeader(q.state)
    ensures var r := Read1(bd, q, c);
            After(Step(bd, q, [], c, last), last, g) == if r.ok then AddedAll(g, r.toks) else g
  {
    hide Noticed;
    var m := Step(bd, q, [], c, last);
    if m.Fires? {
      AfterFires(m, last, g);
      AddedOne(g, Notice(m.event));
    }
  }

  /** Callbacks and bytes of one step agree unless it slips. */
  lemma StepGathers(bd: bytes, q: Core, frag: bytes, c: byte, first: bool, last: bool, g: Gathered)
    requires q.state == HeaderField ==> (frag == [] <==> first)
    requires Follows(q, Flushed(q, frag, g)) && !Slip(q, c, first, last)
    ensures var G, r := Flushed(q, frag, g), Read1(bd, q, c);
            After(Step(bd, q, frag, c, last), last, g) == if r.ok then Absorb1(bd, q, c, G) else G
  {
    hide Step, Read1, Follows, Slip, After, Absorb1;
    if Marks(q.state) {
      MarkedGathers(bd, q, frag, c, first, last, g);
    } else {
      FragIrrelevant(bd, q, frag, [], c, last);
      FreshGathers(bd, q, c, first, last, g);
    }
  }

  lemma DataByteFollows(index: nat, c: byte, g: Gathered)
    requires g.items != [] && !g.naming
    ensures Follows(ReadData(index, c).core, AddedAll(g, ReadData(index, c).toks))
  {
    hide Filled;
    FilledKeeps(g, [c]);
    AddedOne(g, DataTok(c));
    AddedNone(g);
  }

  lemma DataFollows(bd: bytes, q: Core, c: byte, g: Gathered)
    requires Follows(q, g) && InData(q.state)
    ensures Follows(Read1(bd, q, c).core, Absorb1(bd, q, c, g))
  {
    hide Filled, AddedAll, ReadData;
    var h, toks := Held(bd, q), ReadData(q.index, c).toks;
    var g' := if q.state == PartDataStart then Noticed(g, OnHeadersComplete) else g;
    AddedOne(g, Notice(OnHeadersComplete));
    AddedConcat(g, [Notice(OnHeadersComplete)], toks);
    AddedData(g', h);
    FilledKeeps(g', h);
    AddedConcat(g, DataToks(h), toks);
    AddedOne(g, Notice(OnPartDataEnd));
    AddedNone(g);
    DataByteFollows(q.index, c, g');
    DataByteFollows(q.index, c, Filled(g', h));
  }

  lemma HeaderFollows(bd: bytes, q: Core, c: byte, g: Gathered)
    requires Follows(q, g) && Read1(bd, q, c).ok
    requires InHeader(q.state)
    ensures Follows(Read1(bd, q, c).core, Absorb1(bd, q, c, g))
  {
    AddedOne(g, FieldTok(c));
    AddedOne(g, ValueTok(c));
    AddedNone(Opened(q, c, g));
  }

  lemma NoticeFollows(bd: bytes, q: Core, c: byte, g: Gathered)
    requires Follows(q, g) && Read1(bd, q, c).ok
    requires !InData(q.state) && !InHeader(q.state)
    ensures Follows(Read1(bd, q, c).core, Absorb1(bd, q, c, g))
  {
    hide Named, Valued, Filled;
    AddedNone(g);
    AddedOne(g, Notice(OnPartDataBegin));
    AddedOne(g, Notice(OnBodyEnd));
  }

  /** Reading keeps to what the state says. */
  lemma AbsorbFollows(bd: bytes, q: Core, c: byte, g: Gathered)
    requires Follows(q, g) && Read1(bd, q, c).ok
    ensures Follows(Read1(bd, q, c).core, Absorb1(bd, q, c, g))
  {
    hide Read1, Follows, Absorb1;
    if InData(q.state) {
      DataFollows(bd, q, c, g);
    } else if InHeader(q.state) {
      HeaderFollows(bd, q, c, g);
    } else {
      NoticeFollows(bd, q, c, g);
    }
  }

  /** From position `k` of a chunk that does not slip on, callbacks and bytes add up to the same. */
  lemma {:induction false} RunGathers(bd: bytes, acc: seq<Event> -> bool, q: Core, frag: bytes,
                                      log: seq<Event>, buf: bytes, k: nat)
    requires Willing(acc) && k < |buf| && !ChunkSlips(bd, q, buf, k)
    requires q.state == HeaderField ==> (frag == [] <==> k == 0)
    requires Follows(q, Flushed(q, frag, Gather(log)))
    ensures Gather(Run(bd, acc, q, frag, log, buf, k).log) == Absorb(bd, q, buf[k..], Flushed(q, frag, Gather(log)))
    ensures var r := ReadAll(bd, q, buf[k..]);
            r.ok ==> Follows(r.core, Gather(Run(bd, acc, q, frag, log, buf, k).log))
    decreases |buf| - k
  {
    hide Step, Land, Read1, Follows, Slip, Flushed, Absorb1, Gather, TookAll;
    var c, first, last := buf[k], k == 0, k == |buf| - 1;
    var g, G, m := Gather(log), Flushed(q, frag, Gather(log)), Step(bd, q, frag, c, last);
    var a, r := Land(acc, log, m), Read1(bd, q, c);
    assert buf[k..][0] == c && buf[k..][1..] == buf[k + 1..];
    StepGathers(bd, q, frag, c, first, last, g);
    LandGathers(acc, log, m);
    LandWilling(acc, log, m);
    SameControl(bd, q, frag, c, last);
    if r.ok {
      AbsorbFollows(bd, q, c, G);
      if last {
        assert buf[|buf|..] == [];
      } else {
        RunGathers(bd, acc, a.core, a.frag, a.log, buf, k + 1);
      }
    }
  }

  /** Over any chunks none of which slips. */
  lemma {:induction false} FeedGathers(bd: bytes, acc: seq<Event> -> bool, q: Core, log: seq<Event>, chunks: seq<bytes>)
    requires Willing(acc) && !Slips(bd, q, chunks) && Follows(q, Gather(log))
    ensures Gather(Feed(bd, acc, q, log, chunks).log) == Absorb(bd, q, Flat(chunks), Gather(log))
    decreases |chunks|
  {
    hide Read1, Follows, Gather, Slip, Absorb1;
    if chunks == [] {
    } else if chunks[0] == [] {
      assert Flat(chunks) == Flat(chunks[1..]);
      FeedGathers(bd, acc, q, log, chunks[1..]);
    } else {
      var buf, rest := chunks[0], Flat(chunks[1..]);
      assert buf[0..] == buf;
      var t := RunTold(bd, acc, q, [], log, buf, 0);
      RunGathers(bd, acc, q, [], log, buf, 0);
      AbsorbConcat(bd, q, buf, rest, Gather(log));
      var o := Run(bd, acc, q, [], log, buf, 0);
      if o.status == Consumed {
        FeedGathers(bd, acc, o.core, o.log, chunks[1..]);
      }
    }
  }

  // ----- counting bytes

  function NameBytes(fields: seq<Field>): nat {
    if fields == [] then 0 else NameBytes(fields[..|fields| - 1]) + |fields[|fields| - 1].name|
  }

  function ValueBytes(fields: seq<Field>): nat {
    if fields == [] then 0 else ValueBytes(fields[..|fields| - 1]) + |fields[|fields| - 1].value|
  }

  function ItemNameBytes(items: seq<Item>): nat {
    if items == [] then 0 else ItemNameBytes(items[..|items| - 1]) + NameBytes(items[|items| - 1].fields)
  }

  function ItemValueBytes(items: seq<Item>): nat {
    if items == [] then 0 else ItemValueBytes(items[..|items| - 1]) + ValueBytes(items[|items| - 1].fields)
  }

  lemma {:induction false} BytesSnoc(fields: seq<Field>, f: Field)
    ensures NameBytes(fields + [f]) == NameBytes(fields) + |f.name|
    ensures ValueBytes(fields + [f]) == ValueBytes(fields) + |f.value|
  {
    assert (fields + [f])[..|fields|] == fields;
  }

  lemma {:induction false} FieldBytes(item: Item, f: Field)
    ensures var fields := WithField(item, f).fields;
            && NameBytes(fields) == NameBytes(item.fields) - |LastField(item).name| + |f.name|
            && ValueBytes(fields) == ValueBytes(item.fields) - |LastField(item).value| + |f.value|
  {
    hide NameBytes, ValueBytes;
    var front := if item.fields == [] then [] else item.fields[..|item.fields| - 1];
    BytesSnoc(front, f);
    NoFields();
    if item.fields != [] {
      assert item.fields == front + [LastField(item)];
      BytesSnoc(front, LastField(item));
    }
  }

  lemma NoFields()
    ensures NameBytes([]) == ValueBytes([]) == 0
  {
  }

  lemma {:induction false} ItemBytes(g: Gathered, item: Item, naming: bool)
    ensures var items := WithLast(g, item, naming).items;
            && ItemNameBytes(items) == ItemNameBytes(g.items) - NameBytes(LastItem(g).fields) + NameBytes(item.fields)
            && ItemValueBytes(items) == ItemValueBytes(g.items) - ValueBytes(LastItem(g).fields) + ValueBytes(item.fields)
  {
    var front := if g.items == [] then [] else g.items[..|g.items| - 1];
    assert (front + [item])[..|front|] == front;
  }

  lemma NamedBytes(g: Gathered, s: bytes)
    ensures ItemNameBytes(Named(g, s).items) == ItemNameBytes(g.items) + |s|
    ensures ItemValueBytes(Named(g, s).items) == ItemValueBytes(g.items)
  {
    hide ItemNameBytes, ItemValueBytes;
    var item := LastItem(g);
    var f := LastField(item);
    FieldBytes(item, f.(name := f.name + s));
    BytesSnoc(item.fields, Field(s, []));
    ItemBytes(g, if g.naming then WithField(item, f.(name := f.name + s)) else item.(fields := item.fields + [Field(s, [])]), true);
  }

  lemma ValuedBytes(g: Gathered, s: bytes)
    ensures ItemNameBytes(Valued(g, s).items) == ItemNameBytes(g.items)
    ensures ItemValueBytes(Valued(g, s).items) == ItemValueBytes(g.items) + |s|
  {
    hide ItemNameBytes, ItemValueBytes;
    var item := LastItem(g);
    var f := LastField(item);
    FieldBytes(item, f.(value := f.value + s));
    ItemBytes(g, WithField(item, f.(value := f.value + s)), false);
  }

  /** Data and notices add no header bytes. */
  lemma OtherBytes(g: Gathered, s: bytes, e: Event)
    ensures ItemNameBytes(Filled(g, s).items) == ItemNameBytes(Noticed(g, e).items) == ItemNameBytes(g.items)
    ensures ItemValueBytes(Filled(g, s).items) == ItemValueBytes(Noticed(g, e).items) == ItemValueBytes(g.items)
  {
    var item := LastItem(g);
    ItemBytes(g, item.(data := item.data + s), false);
    assert (g.items + [Item([], [])])[..|g.items|] == g.items;
  }

  lemma {:induction false} NoHeaderToks(s: bytes)
    ensures Fields(DataToks(s)) == 0 && Values(DataToks(s)) == 0
    decreases |s|
  {
    if s != [] {
      NoHeaderToks(s[..|s| - 1]);
      assert DataToks(s)[..|s| - 1] == DataToks(s[..|s| - 1]);
    }
  }

  /** No header byte of a callback is dropped. */
  lemma {:induction false} GatherBytes(log: seq<Event>)
    ensures ItemNameBytes(Gather(log).items) == Fields(Toks(log))
    ensures ItemValueBytes(Gather(log).items) == Values(Toks(log))
  {
    hide Named, Valued, Filled, Noticed, ItemNameBytes, ItemValueBytes, Fields, Values, Body, FieldToks, ValueToks, DataToks, LastItem;
    if log == [] {
      NoItems();
    } else {
      var before, e := log[..|log| - 1], log[|log| - 1];
      var g := Gather(before);
      GatherBytes(before);
      BodyConcat(Toks(before), EventToks(e));
      match e {
        case OnHeaderField(s) =>
          NamedBytes(g, s);
          HeaderToks(s);
        case OnHeaderValue(s) =>
          ValuedBytes(g, s);
          HeaderToks(s);
        case OnPartData(s) =>
          OtherBytes(g, s, OnPartDataBegin);
          NoHeaderToks(s);
        case _ =>
          OtherBytes(g, [], e);
          NoticeToks(e);
      }
    }
  }

  lemma NoItems()
    ensures ItemNameBytes(Nothing.items) == ItemValueBytes(Nothing.items) == 0
    ensures Fields([]) == Values([]) == 0
  {
  }

  lemma NoticeToks(e: Event)
    ensures Fields([Notice(e)]) == Values([Notice(e)]) == 0
  {
    assert [Notice(e)][..0] == [];
  }

  lemma {:induction false} AddedBytes(g: Gathered, ts: seq<Tok>)
    ensures ItemNameBytes(AddedAll(g, ts).items) == ItemNameBytes(g.items) + Fields(ts)
    ensures ItemValueBytes(AddedAll(g, ts).items) == ItemValueBytes(g.items) + Values(ts)
    decreases |ts|
  {
    if ts != [] {
      var t := ts[0];
      AddedOneBytes(g, t);
      hide Added;
      AddedBytes(Added(g, t), ts[1..]);
      BodyConcat([t], ts[1..]);
      assert [t] + ts[1..] == ts && [t][..0] == [];
    }
  }

  lemma AddedOneBytes(g: Gathered, t: Tok)
    ensures ItemNameBytes(Added(g, t).items) == ItemNameBytes(g.items) + if t.FieldTok? then 1 else 0
    ensures ItemValueBytes(Added(g, t).items) == ItemValueBytes(g.items) + if t.ValueTok? then 1 else 0
  {
    hide Named, Valued, Filled, Noticed, ItemNameBytes, ItemValueBytes;
    match t
    case Notice(e) => OtherBytes(g, [], e);
    case FieldTok(c) => NamedBytes(g, [c]);
    case ValueTok(c) => ValuedBytes(g, [c]);
    case DataTok(c) => OtherBytes(g, [c], OnPartDataBegin);
  }

  lemma {:induction false} AbsorbBytes(bd: bytes, q: Core, w: bytes, g: Gathered)
    ensures var a, r := Absorb(bd, q, w, g), ReadAll(bd, q, w);
            && ItemNameBytes(a.items) == ItemNameBytes(g.items) + Fields(r.toks)
            && ItemValueBytes(a.items) == ItemValueBytes(g.items) + Values(r.toks)
    decreases |w|
  {
    hide Read1, AddedAll, Named, Valued, ItemNameBytes, ItemValueBytes, Fields, Values;
    NoItems();
    if w != [] {
      var s := Read1(bd, q, w[0]);
      if s.ok {
        NamedBytes(g, []);
        ValuedBytes(g, []);
        AddedBytes(Opened(q, w[0], g), s.toks);
        AbsorbBytes(bd, s.core, w[1..], Absorb1(bd, q, w[0], g));
        BodyConcat(s.toks, ReadAll(bd, s.core, w[1..]).toks);
      }
    }
  }

  /** The callbacks add up to what the bytes do if and only if no chunk slips. */
  lemma {:induction false} GatheredExactly(bd: bytes, acc: seq<Event> -> bool, q: Core, log: seq<Event>, chunks: seq<bytes>)
    requires Willing(acc) && Follows(q, Gather(log))
    ensures Gather(Feed(bd, acc, q, log, chunks).log).items == Absorb(bd, q, Flat(chunks), Gather(log)).items
            <==> !Slips(bd, q, chunks)
  {
    hide Read1, ReadAll, Absorb, Follows, Gather, Slips, Feed;
    if Slips(bd, q, chunks) {
      var t := FeedTold(bd, acc, q, log, chunks);
      BodyConcat(Toks(log), t);
      GatherBytes(log);
      GatherBytes(Feed(bd, acc, q, log, chunks).log);
      AbsorbBytes(bd, q, Flat(chunks), Gather(log));
    } else {
      FeedGathers(bd, acc, q, log, chunks);
    }
  }
}
