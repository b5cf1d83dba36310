/**
 The streaming multipart parser of luci2-base/src/io/multipart_parser.c.

 `Step` is what one byte does: the next state, the callbacks it fires and whether
 the byte is accepted. `Run` folds it over one chunk, stopping where the parser
 stops. Class `Parser` is the C structure, with boundary and lookbehind buffer in
 one allocation; its `Execute` moves a cursor and a mark over the chunk and is
 proved to do exactly what `Run` says.
 */
module MultipartMachine {
  newtype byte = x: int | 0 <= x < 256

  type bytes = seq<byte>

  const LF: byte := 10
  const CR: byte := 13
  const SPACE: byte := 32
  const HYPHEN: byte := 45
  const COLON: byte := 58

  datatype State =
    | Start
    | StartBoundary
    | HeaderFieldStart
    | HeaderField
    | HeadersAlmostDone
    | HeaderValueStart
    | HeaderValue
    | HeaderValueAlmostDone
    | PartDataStart
    | PartData
    | PartDataAlmostBoundary
    | PartDataBoundary
    | PartDataAlmostEnd
    | PartDataEnd
    | PartDataFinalHyphen
    | End

  /** One callback of multipart_parser_settings, with the bytes it is handed. */
  datatype Event =
    | OnPartDataBegin
    | OnHeaderField(name: bytes)
    | OnHeaderValue(value: bytes)
    | OnHeadersComplete
    | OnPartData(data: bytes)
    | OnPartDataEnd
    | OnBodyEnd

  /** The fields that survive from one call of `Execute` to the next. */
  datatype Core = Core(state: State, index: nat)

  /** What a byte makes the parser do: fire callbacks, each with the fields left behind
      if it returns non-zero, and then go on with the bytes since the mark, or stop. */
  datatype Move =
    | Fires(event: Event, refused: Core, next: Move)
    | Goes(core: Core, frag: bytes)
    | Stops(core: Core)

  const Initial := Core(Start, 0)

  /** What `tolower` maps into 'a'..'z'. */
  predicate IsLetter(c: byte) {
    65 <= c <= 90 || 97 <= c <= 122
  }

  predicate IsNameByte(c: byte) {
    c == HYPHEN || IsLetter(c)
  }

  /** The characters of a header name, written out. */
  predicate NameCharacter(c: char) {
    c in {'A', 'B', 'C', 'D', 'E', 'F', 'G', 'H', 'I', 'J', 'K', 'L', 'M',
          'N', 'O', 'P', 'Q', 'R', 'S', 'T', 'U', 'V', 'W', 'X', 'Y', 'Z',
          'a', 'b', 'c', 'd', 'e', 'f', 'g', 'h', 'i', 'j', 'k', 'l', 'm',
          'n', 'o', 'p', 'q', 'r', 's', 't', 'u', 'v', 'w', 'x', 'y', 'z', '-'}
  }

  lemma NameCharacters(c: byte)
    ensures IsNameByte(c) <==> NameCharacter(c as char)
  {
  }

  /** The bytes of a text of such characters. */
  function Ascii(s: string): (b: bytes)
    requires forall i :: 0 <= i < |s| ==> s[i] as int < 256
    ensures |b| == |s|
  {
    seq(|s|, i requires 0 <= i < |s| => s[i] as int as byte)
  }

  lemma Characters()
    ensures Ascii("\r\n") == [CR, LF] && Ascii(" ") == [SPACE] && Ascii(":") == [COLON] && Ascii("--") == [HYPHEN, HYPHEN]
  {
  }

  /** State s_part_data: `frag` holds the bytes of this chunk from the mark on. */
  function DataStep(index: nat, frag: bytes, c: byte, last: bool): Move {
    var here := Core(PartData, index);
    if c == CR then Fires(OnPartData(frag), here, Goes(Core(PartDataAlmostBoundary, index), []))
    else if last then Fires(OnPartData(frag + [c]), here, Goes(here, frag + [c]))
    else Goes(here, frag + [c])
  }

  /** Flush a delimiter that failed to match and look at the same byte again as data. */
  function FalseMatch(q: Core, held: bytes, c: byte, last: bool): Move {
    Fires(OnPartData(held), q, DataStep(q.index, [], c, last))
  }

  function BoundaryStep(bd: bytes, index: nat, c: byte): Move {
    var here := Core(StartBoundary, index);
    if index == |bd| then
      if c != CR then Stops(here) else Goes(Core(StartBoundary, index + 1), [])
    else if index == |bd| + 1 then
      if c != LF then Stops(here)
      else Fires(OnPartDataBegin, Core(StartBoundary, 0), Goes(Core(HeaderFieldStart, 0), []))
    else if index < |bd| && c == bd[index] then Goes(Core(StartBoundary, index + 1), [])
    else Stops(here)
  }

  function FieldStep(index: nat, frag: bytes, c: byte, last: bool): Move {
    var here := Core(HeaderField, index);
    if c == CR then Goes(Core(HeadersAlmostDone, index), [])
    else if c == HYPHEN then Goes(here, frag + [c])
    else if c == COLON then Fires(OnHeaderField(frag), here, Goes(Core(HeaderValueStart, index), []))
    else if !IsLetter(c) then Stops(here)
    else if last then Fires(OnHeaderField(frag + [c]), here, Goes(here, frag + [c]))
    else Goes(here, frag + [c])
  }

  function ValueStep(index: nat, frag: bytes, c: byte, last: bool): Move {
    var here, done := Core(HeaderValue, index), Core(HeaderValueAlmostDone, index);
    var next := if c == CR then Goes(done, []) else Goes(here, frag + [c]);
    var flushed := if last then Fires(OnHeaderValue(frag + [c]), next.core, next) else next;
    if c == CR then Fires(OnHeaderValue(frag), here, flushed) else flushed
  }

  /** The bytes in the lookbehind buffer that are not yet known to be data or delimiter. */
  function Held(bd: bytes, q: Core): bytes {
    match q.state
    case PartDataAlmostBoundary => [CR]
    case PartDataBoundary => [CR, LF] + bd[..if q.index <= |bd| then q.index else |bd|]
    case _ => []
  }

  /** One byte `c`; `last` tells whether it ends the chunk. */
  function Step(bd: bytes, q: Core, frag: bytes, c: byte, last: bool): Move {
    match q.state
    case Start => BoundaryStep(bd, 0, c)
    case StartBoundary => BoundaryStep(bd, q.index, c)
    case HeaderFieldStart => FieldStep(q.index, [], c, last)
    case HeaderField => FieldStep(q.index, frag, c, last)
    case HeadersAlmostDone => if c == LF then Goes(Core(PartDataStart, q.index), []) else Stops(q)
    case HeaderValueStart => if c == SPACE then Goes(q, []) else ValueStep(q.index, [], c, last)
    case HeaderValue => ValueStep(q.index, frag, c, last)
    case HeaderValueAlmostDone => if c == LF then Goes(Core(HeaderFieldStart, q.index), []) else Stops(q)
    case PartDataStart => Fires(OnHeadersComplete, q, DataStep(q.index, [], c, last))
    case PartData => DataStep(q.index, frag, c, last)
    case PartDataAlmostBoundary =>
      if c == LF then Goes(Core(PartDataBoundary, 0), []) else FalseMatch(q, Held(bd, q), c, last)
    case PartDataBoundary =>
      var next := Core(PartDataBoundary, q.index + 1);
      if q.index >= |bd| || bd[q.index] != c then FalseMatch(q, Held(bd, q), c, last)
      else if q.index + 1 == |bd| then
        Fires(OnPartDataEnd, next, Goes(Core(PartDataAlmostEnd, q.index + 1), []))
      else Goes(next, [])
    case PartDataAlmostEnd =>
      if c == HYPHEN then Goes(Core(PartDataFinalHyphen, q.index), [])
      else if c == CR then Goes(Core(PartDataEnd, q.index), [])
      else Stops(q)
    case PartDataFinalHyphen =>
      if c == HYPHEN then Fires(OnBodyEnd, q, Goes(Core(End, q.index), [])) else Stops(q)
    case PartDataEnd =>
      var next := Core(HeaderFieldStart, q.index);
      if c == LF then Fires(OnPartDataBegin, next, Goes(next, [])) else Stops(q)
    case End => Goes(q, [])
  }

  /** The states that hand out the bytes since the mark. */
  predicate Marks(s: State) {
    s == HeaderField || s == HeaderValue || s == PartData
  }

  lemma FragIrrelevant(bd: bytes, q: Core, f: bytes, g: bytes, c: byte, last: bool)
    ensures (Marks(q.state) ==> f == g) ==> Step(bd, q, f, c, last) == Step(bd, q, g, c, last)
  {
  }

  /** The states a parser can be resumed from. */
  predicate Resumable(bd: bytes, q: Core) {
    && (q.state == StartBoundary ==> q.index <= |bd| + 1)
    && (q.state == PartDataBoundary ==> q.index < |bd|)
  }

  datatype Status = Consumed | Rejected | Refused

  /** Where one byte leaves the parser, having fired the callbacks in order until one returns
      non-zero. `acc` answers for the callback that has just been appended to the log. */
  datatype Landing = Landing(core: Core, frag: bytes, log: seq<Event>, status: Status)

  function Land(acc: seq<Event> -> bool, log: seq<Event>, m: Move): Landing
    decreases m
  {
    match m
    case Fires(e, refused, next) =>
      if acc(log + [e]) then Land(acc, log + [e], next) else Landing(refused, [], log + [e], Refused)
    case Goes(core, frag) => Landing(core, frag, log, Consumed)
    case Stops(core) => Landing(core, [], log, Rejected)
  }

  datatype Outcome = Outcome(core: Core, log: seq<Event>, count: nat, status: Status)

  /** The rest of a chunk from position `k` on. */
  function Run(bd: bytes, acc: seq<Event> -> bool, q: Core, frag: bytes, log: seq<Event>,
               buf: bytes, k: nat): (o: Outcome)
    requires k <= |buf|
    ensures k <= o.count <= |buf|
    ensures o.status == Consumed <==> o.count == |buf|
    decreases |buf| - k
  {
    if k == |buf| then Outcome(q, log, k, Consumed)
    else
      var a := Land(acc, log, Step(bd, q, frag, buf[k], k == |buf| - 1));
      if a.status == Consumed then Run(bd, acc, a.core, a.frag, a.log, buf, k + 1)
      else Outcome(a.core, a.log, k, a.status)
  }

  lemma RunUnfolds(bd: bytes, acc: seq<Event> -> bool, q: Core, frag: bytes, log: seq<Event>, buf: bytes, k: nat)
    requires k <= |buf|
    ensures Run(bd, acc, q, frag, log, buf, k) ==
            if k == |buf| then Outcome(q, log, k, Consumed)
            else
              var a := Land(acc, log, Step(bd, q, frag, buf[k], k == |buf| - 1));
              if a.status == Consumed then Run(bd, acc, a.core, a.frag, a.log, buf, k + 1)
              else Outcome(a.core, a.log, k, a.status)
  {
  }

  /** Where a name can stand, a byte is taken if and only if it is a character of a name, a colon or a
      carriage return; at any other the parser stops. */
  lemma NameByteTaken(bd: bytes, acc: seq<Event> -> bool, q: Core, frag: bytes, log: seq<Event>, buf: bytes, k: nat)
    requires q.state == HeaderFieldStart || q.state == HeaderField
    requires k < |buf|
    ensures var o, c := Run(bd, acc, q, frag, log, buf, k), buf[k] as char;
            && (o.count == k && o.status == Rejected <==> !(NameCharacter(c) || c == ':' || c == '\r'))
            && ((forall l :: acc(l)) ==> (o.count > k <==> NameCharacter(c) || c == ':' || c == '\r'))
  {
    NameCharacters(buf[k]);
    hide NameCharacter;
    var f := if q.state == HeaderField then frag else [];
    var m := FieldStep(q.index, f, buf[k], k == |buf| - 1);
    if m.Fires? {
      assert Land(acc, log, m) == if acc(log + [m.event]) then Land(acc, log + [m.event], m.next)
                                  else Landing(m.refused, [], log + [m.event], Refused);
    }
  }

  class Parser {
    const boundaryLength: nat
    /** The boundary, its terminating NUL, and from `boundaryLength + 1` on the lookbehind buffer. */
    const mem: array<byte>
    /** Whether the callback at the end of a log returns zero. */
    const accepts: seq<Event> -> bool
    var index: nat
    var state: State
    /** What the callbacks have been handed so far. */
    var log: seq<Event>

    const lookbehind: nat := boundaryLength + 1

    ghost function Boundary(): bytes
      reads mem
      requires boundaryLength <= mem.Length
    {
      mem[..boundaryLength]
    }

    function Fields(): Core
      reads this`state, this`index
    {
      Core(state, index)
    }

    /** The allocation has the size multipart_parser_init asks for. */
    ghost predicate Allocated()
      reads mem
    {
      && 0 < boundaryLength
      && mem.Length == 2 * boundaryLength + 10
      && mem[boundaryLength] == 0
    }

    ghost predicate Valid()
      reads this`state, this`index, mem
    {
      && Allocated()
      && Resumable(Boundary(), Fields())
      && (state == PartDataAlmostBoundary ==> mem[lookbehind] == CR)
      && (state == PartDataBoundary ==>
            && mem[lookbehind] == CR && mem[lookbehind + 1] == LF
            && mem[lookbehind + 2..lookbehind + 2 + index] == mem[..index])
    }

    /** The lookbehind buffer holds the undecided bytes, inside its allocation. */
    lemma LookbehindIsHeld()
      requires Valid()
      ensures var held := Held(Boundary(), Fields());
              lookbehind + |held| <= mem.Length && mem[lookbehind..lookbehind + |held|] == held
    {
      if state == PartDataBoundary {
        var m := mem[lookbehind..lookbehind + 2 + index];
        assert m[2..] == mem[lookbehind + 2..lookbehind + 2 + index] == mem[..index] == Boundary()[..index];
        assert m == [CR, LF] + m[2..];
      }
    }

    constructor (boundary: bytes, accepts: seq<Event> -> bool)
      requires 0 < |boundary|
      ensures Valid() && fresh(mem)
      ensures Boundary() == boundary && Fields() == Initial && log == []
      ensures this.accepts == accepts
    {
      var m := new byte[2 * |boundary| + 10](_ => 0);
      forall j | 0 <= j < |boundary| {
        m[j] := boundary[j];
      }
      assert m[..|boundary|] == boundary;
      mem := m;
      boundaryLength := |boundary|;
      this.accepts := accepts;
      index, state, log := 0, Start, [];
      new;
      assert lookbehind == |boundary| + 1;
    }

    /** A callback; its result is zero exactly when the settings accept it. `m` is the move it begins. */
    method Fire(e: Event, ghost m: Move) returns (ok: bool, ghost rest: Move)
      requires m.Fires? && m.event == e
      modifies this`log
      ensures log == old(log) + [e]
      ensures rest == m.next
      ensures Land(accepts, old(log), m) ==
              if ok then Land(accepts, log, rest) else Landing(m.refused, [], log, Refused)
    {
      log := log + [e];
      ok, rest := accepts(log), m.next;
    }

    /** The parser has landed at `a`. */
    ghost predicate Landed(bd: bytes, a: Landing, ok: bool)
      reads this`state, this`index, this`log, mem
    {
      && Allocated()
      && Boundary() == bd
      && Fields() == a.core
      && log == a.log
      && (ok <==> a.status == Consumed)
      && (a.status != Refused ==> Valid())
    }

    /** s_start and s_start_boundary */
    method BoundaryByte(c: byte, last: bool) returns (ok: bool)
      requires Valid() && (state == Start || state == StartBoundary)
      modifies this`state, this`index, this`log
      ensures Landed(old(Boundary()), Land(accepts, old(log), Step(old(Boundary()), old(Fields()), [], c, last)), ok)
      ensures !Marks(state)
    {
      ghost var m := Step(Boundary(), Fields(), [], c, last);
      if state == Start {
        index, state := 0, StartBoundary;
      }
      ok := true;
      if index == boundaryLength {
        if c != CR { return false; }
        index := index + 1;
      } else if index == boundaryLength + 1 {
        if c != LF { return false; }
        index := 0;
        ok, m := Fire(OnPartDataBegin, m);
        if !ok { return; }
        state := HeaderFieldStart;
      } else {
        if c != mem[index] { return false; }
        index := index + 1;
      }
    }

    /** s_header_field_start and s_header_field */
    method FieldByte(buf: bytes, i: nat, mark0: nat) returns (mark: nat, ok: bool)
      requires Valid() && (state == HeaderFieldStart || state == HeaderField)
      requires mark0 <= i < |buf|
      modifies this`state, this`log
      ensures mark <= i
      ensures var a := Land(accepts, old(log), Step(old(Boundary()), old(Fields()), buf[mark0..i], buf[i], i == |buf| - 1));
              && Landed(old(Boundary()), a, ok)
              && (ok && Marks(state) ==> a.frag == buf[mark..i + 1])
    {
      var c, last := buf[i], i == |buf| - 1;
      ghost var m := Step(Boundary(), Fields(), buf[mark0..i], c, last);
      mark := mark0;
      if state == HeaderFieldStart {
        mark, state := i, HeaderField;
      }
      ok := true;
      assert buf[i..i] == [] && buf[mark..i + 1] == buf[mark..i] + [c];
      if c == CR {
        state := HeadersAlmostDone;
      } else if c == HYPHEN {
      } else if c == COLON {
        ok, m := Fire(OnHeaderField(buf[mark..i]), m);
        if !ok { return; }
        state := HeaderValueStart;
      } else if !IsLetter(c) {
        ok := false;
      } else if last {
        ok, m := Fire(OnHeaderField(buf[mark..i + 1]), m);
      }
    }

    /** s_header_value_start and s_header_value */
    method ValueByte(buf: bytes, i: nat, mark0: nat) returns (mark: nat, ok: bool)
      requires Valid() && (state == HeaderValueStart || state == HeaderValue)
      requires mark0 <= i < |buf|
      modifies this`state, this`log
      ensures mark <= i
      ensures var a := Land(accepts, old(log), Step(old(Boundary()), old(Fields()), buf[mark0..i], buf[i], i == |buf| - 1));
              && Landed(old(Boundary()), a, ok)
              && (ok && Marks(state) ==> a.frag == buf[mark..i + 1])
    {
      var c, last := buf[i], i == |buf| - 1;
      ghost var m := Step(Boundary(), Fields(), buf[mark0..i], c, last);
      mark, ok := mark0, true;
      if state == HeaderValueStart {
        if c == SPACE { return; }
        mark, state := i, HeaderValue;
      }
      assert buf[i..i] == [] && buf[mark..i + 1] == buf[mark..i] + [c];
      if c == CR {
        ok, m := Fire(OnHeaderValue(buf[mark..i]), m);
        if !ok { return; }
        state := HeaderValueAlmostDone;
      }
      if last {
        ok, m := Fire(OnHeaderValue(buf[mark..i + 1]), m);
      }
    }

    /** s_part_data_start and s_part_data */
    method DataByte(buf: bytes, i: nat, mark0: nat) returns (mark: nat, ok: bool)
      requires Valid() && (state == PartDataStart || state == PartData)
      requires mark0 <= i < |buf|
      modifies this`state, this`log, mem
      ensures mark <= i
      ensures var a := Land(accepts, old(log), Step(old(Boundary()), old(Fields()), buf[mark0..i], buf[i], i == |buf| - 1));
              && Landed(old(Boundary()), a, ok)
              && (ok && Marks(state) ==> a.frag == buf[mark..i + 1])
    {
      var c, last := buf[i], i == |buf| - 1;
      ghost var bd := Boundary();
      ghost var m := Step(bd, Fields(), buf[mark0..i], c, last);
      mark, ok := mark0, true;
      if state == PartDataStart {
        ok, m := Fire(OnHeadersComplete, m);
        if !ok { return; }
        mark, state := i, PartData;
      }
      assert buf[i..i] == [] && buf[mark..i + 1] == buf[mark..i] + [c];
      if c == CR {
        ok, m := Fire(OnPartData(buf[mark..i]), m);
        if !ok { return; }
        mark, state := i, PartDataAlmostBoundary;
        mem[lookbehind] := CR;
        assert Boundary() == bd;
      } else if last {
        ok, m := Fire(OnPartData(buf[mark..i + 1]), m);
      }
    }

    /** s_part_data_almost_boundary. `again` asks for the same byte to be looked at once
        more, as data. */
    method AlmostBoundaryByte(c: byte, last: bool) returns (ok: bool, again: bool)
      requires Valid() && state == PartDataAlmostBoundary
      modifies this`state, this`index, this`log, mem
      ensures var a := Land(accepts, old(log), Step(old(Boundary()), old(Fields()), [], c, last));
              if again then
                && ok && Valid() && Boundary() == old(Boundary())
                && state == PartData
                && a == Land(accepts, log, Step(Boundary(), Fields(), [], c, last))
              else
                Landed(old(Boundary()), a, ok) && (ok ==> !Marks(state))
    {
      ghost var bd := Boundary();
      ghost var m := Step(bd, Fields(), [], c, last);
      ok, again := true, false;
      if c == LF {
        state := PartDataBoundary;
        mem[lookbehind + 1] := LF;
        index := 0;
        assert Boundary() == bd;
      } else {
        LookbehindIsHeld();
        ok, m := Fire(OnPartData(mem[lookbehind..lookbehind + 1]), m);
        if !ok { return; }
        state, again := PartData, true;
      }
    }

    /** One more byte of the boundary has matched. */
    method KeepMatch(c: byte)
      requires Valid() && state == PartDataBoundary && mem[index] == c
      modifies this`index, mem
      ensures Allocated() && Boundary() == old(Boundary()) && index == old(index) + 1
      ensures index < boundaryLength ==> Valid()
    {
      ghost var bd, matched := Boundary(), mem[..index];
      mem[lookbehind + 2 + index] := c;
      assert Boundary() == bd && mem[..index + 1] == matched + [c];
      assert mem[lookbehind + 2..lookbehind + 2 + index + 1] == matched + [c];
      index := index + 1;
    }

    /** s_part_data_boundary, likewise. */
    method DelimiterByte(c: byte, last: bool) returns (ok: bool, again: bool)
      requires Valid() && state == PartDataBoundary
      modifies this`state, this`index, this`log, mem
      ensures var a := Land(accepts, old(log), Step(old(Boundary()), old(Fields()), [], c, last));
              if again then
                && ok && Valid() && Boundary() == old(Boundary())
                && state == PartData
                && a == Land(accepts, log, Step(Boundary(), Fields(), [], c, last))
              else
                Landed(old(Boundary()), a, ok) && (ok ==> !Marks(state))
    {
      ghost var bd := Boundary();
      ghost var m := Step(bd, Fields(), [], c, last);
      ok, again := true, false;
      LookbehindIsHeld();
      if mem[index] != c {
        ok, m := Fire(OnPartData(mem[lookbehind..lookbehind + 2 + index]), m);
        if !ok { return; }
        state, again := PartData, true;
      } else {
        KeepMatch(c);
        if index == boundaryLength {
          ok, m := Fire(OnPartDataEnd, m);
          if !ok { return; }
          state := PartDataAlmostEnd;
        }
      }
    }

    /** s_part_data_almost_end, s_part_data_final_hyphen, s_part_data_end and s_end */
    method EndByte(c: byte, last: bool) returns (ok: bool)
      requires Valid()
      requires state == PartDataAlmostEnd || state == PartDataFinalHyphen || state == PartDataEnd || state == End
      modifies this`state, this`log
      ensures Landed(old(Boundary()), Land(accepts, old(log), Step(old(Boundary()), old(Fields()), [], c, last)), ok)
      ensures !Marks(state)
    {
      ghost var m := Step(Boundary(), Fields(), [], c, last);
      ok := true;
      if state == PartDataAlmostEnd {
        if c == HYPHEN {
          state := PartDataFinalHyphen;
        } else if c == CR {
          state := PartDataEnd;
        } else {
          ok := false;
        }
      } else if state == PartDataFinalHyphen {
        if c != HYPHEN { return false; }
        ok, m := Fire(OnBodyEnd, m);
        if ok { state := End; }
      } else if state == PartDataEnd {
        if c != LF { return false; }
        state := HeaderFieldStart;
        ok, m := Fire(OnPartDataBegin, m);
      }
    }

    /** One turn of the loop: the byte at `i`, with the mark and whether to look at the byte again. */
    method Turn(buf: bytes, i: nat, mark0: nat) returns (mark: nat, ok: bool, again: bool)
      requires Valid()
      requires mark0 <= i < |buf|
      modifies this`state, this`index, this`log, mem
      ensures mark <= i
      ensures var a := Land(accepts, old(log), Step(old(Boundary()), old(Fields()), buf[mark0..i], buf[i], i == |buf| - 1));
              if again then
                && ok && Valid() && Boundary() == old(Boundary())
                && old(state) != PartData == state
                && mark == i
                && a == Land(accepts, log, Step(Boundary(), Fields(), [], buf[i], i == |buf| - 1))
              else
                && Landed(old(Boundary()), a, ok)
                && (ok && Marks(state) ==> a.frag == buf[mark..i + 1])
    {
      var c, last := buf[i], i == |buf| - 1;
      mark, ok, again := mark0, true, false;
      FragIrrelevant(Boundary(), Fields(), [], buf[mark0..i], c, last);
      match state {
        case Start | StartBoundary =>
          ok := BoundaryByte(c, last);
        case HeaderFieldStart | HeaderField =>
          mark, ok := FieldByte(buf, i, mark);
        case HeadersAlmostDone =>
          if c == LF { state := PartDataStart; } else { ok := false; }
        case HeaderValueStart | HeaderValue =>
          mark, ok := ValueByte(buf, i, mark);
        case HeaderValueAlmostDone =>
          if c == LF { state := HeaderFieldStart; } else { ok := false; }
        case PartDataStart | PartData =>
          mark, ok := DataByte(buf, i, mark);
        case PartDataAlmostBoundary =>
          ok, again := AlmostBoundaryByte(c, last);
          if again { mark := i; }
        case PartDataBoundary =>
          ok, again := DelimiterByte(c, last);
          if again { mark := i; }
        case PartDataAlmostEnd | PartDataFinalHyphen | PartDataEnd | End =>
          ok := EndByte(c, last);
      }
    }

    /** multipart_parser_execute. `laps` counts the iterations of its loop. */
    method Execute(buf: bytes) returns (n: nat, ghost laps: nat)
      requires Valid()
      modifies this`state, this`index, this`log, mem
      ensures Allocated() && Boundary() == old(Boundary())
      ensures var o := Run(old(Boundary()), accepts, old(Fields()), [], old(log), buf, 0);
              && Fields() == o.core && log == o.log && n == o.count
              && (o.status != Refused ==> Valid())
      ensures laps <= 2 * |buf|
    {
      hide Step, Land, Run;
      ghost var bd := Boundary();
      ghost var goal := Run(bd, accepts, Fields(), [], log, buf, 0);
      ghost var frag: bytes := [];
      ghost var rewound := false;
      laps := 0;
      var i, mark := 0, 0;
      while i < |buf|
        invariant 0 <= mark <= i <= |buf|
        invariant Valid() && Boundary() == bd
        invariant goal == Run(bd, accepts, Fields(), frag, log, buf, i)
        invariant Marks(state) ==> frag == buf[mark..i]
        invariant rewound ==> state == PartData && i < |buf|
        invariant laps <= 2 * i + (if rewound then 1 else 0)
        decreases 2 * (|buf| - i) - (if state == PartData then 1 else 0)
      {
        laps := laps + 1;
        RunUnfolds(bd, accepts, Fields(), frag, log, buf, i);
        FragIrrelevant(bd, Fields(), frag, buf[mark..i], buf[i], i == |buf| - 1);
        ghost var a := Land(accepts, log, Step(bd, Fields(), frag, buf[i], i == |buf| - 1));
        var ok, again;
        mark, ok, again := Turn(buf, i, mark);
        if !ok { return i, laps; }
        if again {
          frag := [];
          RunUnfolds(bd, accepts, Fields(), frag, log, buf, i);
        } else {
          frag := a.frag;
          i := i + 1;
        }
        rewound := again;
      }
      n := |buf|;
      RunUnfolds(bd, accepts, Fields(), frag, log, buf, n);
    }
  }
}
