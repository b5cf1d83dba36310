/**
 The overlay against a plain map that every operation updates at once.
 */
module UciOverlay {
  import opened Options
  import opened UciTypes
  import opened Uci

  // ----- the plain map

  /** The sections there are with their types and options, and which of them were added. */
  datatype Eager = Eager(live: map<Key, Content>, made: set<Key>)

  function EagerAdd(e: Eager, k: Key, typ: string): Eager {
    Eager(e.live[k := Content(typ, map[])], e.made + {k})
  }

  function EagerRemove(e: Eager, k: Key): Eager {
    Eager(e.live - {k}, e.made - {k})
  }

  /** The empty text deletes an option of a loaded section; an added section keeps it. */
  function EagerSet(e: Eager, k: Key, opt: Opt, val: Option<Value>): Eager {
    if IsDot(opt) || k !in e.live then e
    else
      var c := e.live[k];
      var opts := if val.None? || (val == Some(Text("")) && k !in e.made) then c.opts - {opt} else c.opts[opt := val.value];
      e.(live := e.live[k := c.(opts := opts)])
  }

  // ----- what the overlay stands for

  /** A loaded section that is not to be deleted whole. */
  predicate BaseLive(s: State, k: Key) {
    Cell(s.values, k).Some? && Cell(s.deletes, k) != Some(Whole)
  }

  function Changed(opts: Opts, c: Option<Opts>, d: Option<Deletion>): Opts {
    var changed := if c.Some? then opts + c.value else opts;
    if d.Some? && d.value.Only? then map o | o in changed && o !in d.value.list :: changed[o] else changed
  }

  /** What the four tables say of one section. */
  function Seen(v: Option<Section>, n: Option<Section>, c: Option<Opts>, d: Option<Deletion>): Option<Content> {
    if n.Some? then Some(ContentOf(n.value))
    else if v.Some? && d != Some(Whole) then Some(Content(v.value.typ, Changed(v.value.opts, c, d)))
    else None
  }

  function ViewAt(s: State, k: Key): Option<Content> {
    Seen(Cell(s.values, k), Cell(s.creates, k), Cell(s.changes, k), Cell(s.deletes, k))
  }

  /** What the overlay stands for. */
  function View(s: State): Eager {
    Eager(map k | k in Keys(s.values) + Keys(s.creates) && ViewAt(s, k).Some? :: ViewAt(s, k).value,
          Keys(s.creates))
  }

  lemma ViewLookup(s: State, k: Key)
    ensures Lookup(View(s).live, k) == ViewAt(s, k)
    ensures k in View(s).made <==> Cell(s.creates, k).Some?
  {
  }

  lemma SameLookups<K, V>(a: map<K, V>, b: map<K, V>)
    requires forall k :: Lookup(a, k) == Lookup(b, k)
    ensures a == b
  {
    forall k
      ensures k in a <==> k in b
      ensures k in a ==> a[k] == b[k]
    {
      assert Lookup(a, k) == Lookup(b, k);
    }
  }

  /** The overlay stands for `e` when it does so section by section. */
  lemma ViewIs(s: State, e: Eager)
    requires forall k :: ViewAt(s, k) == Lookup(e.live, k)
    requires forall k :: k in e.made <==> Cell(s.creates, k).Some?
    ensures View(s) == e
  {
    forall k
      ensures Lookup(View(s).live, k) == Lookup(e.live, k)
    {
      ViewLookup(s, k);
    }
    SameLookups(View(s).live, e.live);
  }

  // ----- the operations refine the map

  lemma MemberOption(sec: Section, opt: Opt)
    requires !IsDot(opt)
    ensures Member(sec, opt) == Lookup(sec.opts, opt)
  {
    assert ".type"[0] == ".name"[0] == ".create"[0] == ".anonymous"[0] == ".index"[0] == '.';
  }

  /** Options are changed, and singly deleted, in loaded sections only. */
  predicate GroundedAt(s: State, k: Key) {
    && (Cell(s.changes, k).Some? ==> BaseLive(s, k))
    && (Cell(s.deletes, k).Some? && Cell(s.deletes, k) != Some(Whole) ==> Cell(s.values, k).Some?)
  }

  ghost predicate Grounded(s: State) {
    forall k :: GroundedAt(s, k)
  }

  /** `get` of an option is lookup in the map. */
  lemma GetIsLookup(s: State, conf: Conf, sid: Sid, opt: Opt)
    requires Grounded(s) && !IsDot(opt)
    ensures var e, k := View(s).live, (conf, sid);
            Got(s, conf, sid, opt) == if k in e then Lookup(e[k].opts, opt) else None
  {
    hide View, Member;
    var k := (conf, sid);
    assert GroundedAt(s, k);
    ViewLookup(s, k);
    var n, v := Cell(s.creates, k), Cell(s.values, k);
    if n.Some? {
      MemberOption(n.value, opt);
    } else if v.Some? {
      MemberOption(v.value, opt);
    }
  }

  lemma AddRefines(s: State, conf: Conf, typ: string, name: string, sid: Sid)
    ensures View(Added(s, conf, typ, name, sid)) == EagerAdd(View(s), (conf, sid), typ)
  {
    hide View, Put, Cell;
    var s', e := Added(s, conf, typ, name, sid), EagerAdd(View(s), (conf, sid), typ);
    forall k
      ensures ViewAt(s', k) == Lookup(e.live, k)
      ensures k in e.made <==> Cell(s'.creates, k).Some?
    {
      ViewLookup(s, k);
      PutCell(s.creates, conf, sid, Section(typ, sid, name, name == "", 1000 + s.newidx, map[]), k);
    }
    ViewIs(s', e);
  }

  /** An added section hides a loaded one that is still there. */
  predicate Hides(s: State, k: Key) {
    Cell(s.creates, k).Some? && BaseLive(s, k)
  }

  lemma RemovedAt(s: State, conf: Conf, sid: Sid, k: Key)
    ensures var s' := Removed(s, conf, sid);
            && Cell(s'.creates, k) == (if k == (conf, sid) then None else Cell(s.creates, k))
            && ViewAt(s', k) == (if k != (conf, sid) then ViewAt(s, k)
                                 else if Hides(s, k) then Seen(Cell(s.values, k), None, Cell(s.changes, k), Cell(s.deletes, k))
                                 else None)
            && (Hides(s, k) && k == (conf, sid) ==> ViewAt(s', k).Some?)
  {
    hide Put, Drop, Changed;
    DropCell(s.creates, conf, sid, k);
    DropCell(s.changes, conf, sid, k);
    PutCell(s.deletes, conf, sid, Whole, k);
  }

  /** Removing refines exactly when it brings no hidden section back. */
  lemma RemoveRefines(s: State, conf: Conf, sid: Sid)
    ensures View(Removed(s, conf, sid)) == EagerRemove(View(s), (conf, sid)) <==> !Hides(s, (conf, sid))
  {
    hide View, Removed, Cell, Seen, Hides;
    var s', e, k0 := Removed(s, conf, sid), EagerRemove(View(s), (conf, sid)), (conf, sid);
    forall k
      ensures !Hides(s, k0) ==> ViewAt(s', k) == Lookup(e.live, k)
      ensures k in e.made <==> Cell(s'.creates, k).Some?
    {
      ViewLookup(s, k);
      RemovedAt(s, conf, sid, k);
    }
    if Hides(s, k0) {
      RemovedAt(s, conf, sid, k0);
      ViewLookup(s', k0);
      assert Lookup(e.live, k0) == None;
    } else {
      ViewIs(s', e);
    }
  }

  lemma ChangedUnset(opts: Opts, c: Option<Opts>, d: Option<Deletion>, opt: Opt)
    requires d != Some(Whole)
    ensures Changed(opts, c, Some(Only((if d.Some? then d.value.list else []) + [opt]))) == Changed(opts, c, d) - {opt}
  {
  }

  lemma ChangedSet(opts: Opts, c: Option<Opts>, d: Option<Deletion>, opt: Opt, val: Value)
    requires d != Some(Whole)
    ensures Changed(opts, Some((if c.Some? then c.value else map[])[opt := val]),
                    if d.Some? then Some(Only(Without(d.value.list, opt))) else None)
            == Changed(opts, c, d)[opt := val]
  {
    if d.Some? {
      forall o {
        WithoutMembers(d.value.list, opt, o);
      }
    }
  }

  predicate SameCells(s: State, s': State, k: Key) {
    && Cell(s'.values, k) == Cell(s.values, k) && Cell(s'.creates, k) == Cell(s.creates, k)
    && Cell(s'.changes, k) == Cell(s.changes, k) && Cell(s'.deletes, k) == Cell(s.deletes, k)
  }

  lemma InCreatedAt(s: State, conf: Conf, sid: Sid, opt: Opt, val: Option<Value>, k: Key)
    requires sid in Row(s.creates, conf)
    ensures var s', k0, n := InCreated(s, conf, sid, opt, val), (conf, sid), Cell(s.creates, (conf, sid)).value;
            if k != k0 then SameCells(s, s', k)
            else SameCells(s, s'.(creates := s.creates), k) && Cell(s'.creates, k) ==
                 Some(n.(opts := if val.Some? then n.opts[opt := val.value] else n.opts - {opt}))
  {
    hide Put;
    PutCells(s.creates, conf, sid, k);
  }

  lemma InChangesAt(s: State, conf: Conf, sid: Sid, opt: Opt, val: Value, k: Key)
    ensures var s', k0, c, d := InChanges(s, conf, sid, opt, val), (conf, sid), Cell(s.changes, k), Cell(s.deletes, k);
            if k != k0 || !BaseLive(s, k0) then SameCells(s, s', k)
            else
              && Cell(s'.values, k) == Cell(s.values, k) && Cell(s'.creates, k) == Cell(s.creates, k)
              && Cell(s'.changes, k) == Some((if c.Some? then c.value else map[])[opt := val])
              && Cell(s'.deletes, k) == if d.Some? then Some(Only(Without(d.value.list, opt))) else None
  {
    hide Put, Without;
    PutCells(s.changes, conf, sid, k);
    PutCells(s.deletes, conf, sid, k);
  }

  lemma InDeletesAt(s: State, conf: Conf, sid: Sid, opt: Opt, k: Key)
    ensures var s', k0, d := InDeletes(s, conf, sid, opt), (conf, sid), Cell(s.deletes, k);
            if k != k0 || !BaseLive(s, k0) then SameCells(s, s', k)
            else
              && Cell(s'.values, k) == Cell(s.values, k) && Cell(s'.creates, k) == Cell(s.creates, k)
              && Cell(s'.changes, k) == Cell(s.changes, k)
              && Cell(s'.deletes, k) == Some(Only((if d.Some? then d.value.list else []) + [opt]))
  {
    hide Put;
    PutCells(s.deletes, conf, sid, k);
  }

  lemma SetElsewhere(s: State, conf: Conf, sid: Sid, opt: Opt, val: Option<Value>, k: Key)
    requires k != (conf, sid)
    ensures SameCells(s, WithOption(s, conf, sid, opt, val), k)
  {
    hide InCreated, InChanges, InDeletes;
    if sid in Row(s.creates, conf) {
      InCreatedAt(s, conf, sid, opt, val, k);
    }
    if val.Some? {
      InChangesAt(s, conf, sid, opt, val.value, k);
    }
    InDeletesAt(s, conf, sid, opt, k);
  }

  lemma SetHere(s: State, conf: Conf, sid: Sid, opt: Opt, val: Option<Value>)
    ensures var s', k := WithOption(s, conf, sid, opt, val), (conf, sid);
            && (Cell(s'.creates, k).Some? <==> Cell(s.creates, k).Some?)
            && ViewAt(s', k) ==
               if IsDot(opt) || ViewAt(s, k).None? then ViewAt(s, k)
               else
                 var c := ViewAt(s, k).value;
                 Some(c.(opts := if val.None? || (val == Some(Text("")) && Cell(s.creates, k).None?) then c.opts - {opt}
                                 else c.opts[opt := val.value]))
  {
    hide InCreated, InChanges, InDeletes, Changed;
    var k := (conf, sid);
    var v, c, d := Cell(s.values, k), Cell(s.changes, k), Cell(s.deletes, k);
    if IsDot(opt) {
    } else if sid in Row(s.creates, conf) {
      InCreatedAt(s, conf, sid, opt, val, k);
    } else if val.Some? && val != Some(Text("")) {
      InChangesAt(s, conf, sid, opt, val.value, k);
      if BaseLive(s, k) {
        ChangedSet(v.value.opts, c, d, opt, val.value);
      }
    } else {
      InDeletesAt(s, conf, sid, opt, k);
      if BaseLive(s, k) {
        ChangedUnset(v.value.opts, c, d, opt);
      }
    }
  }

  lemma SetRefines(s: State, conf: Conf, sid: Sid, opt: Opt, val: Option<Value>)
    ensures View(WithOption(s, conf, sid, opt, val)) == EagerSet(View(s), (conf, sid), opt, val)
  {
    hide View, WithOption, Cell, Seen;
    var s', e := WithOption(s, conf, sid, opt, val), EagerSet(View(s), (conf, sid), opt, val);
    forall k
      ensures ViewAt(s', k) == Lookup(e.live, k)
      ensures k in e.made <==> Cell(s'.creates, k).Some?
    {
      ViewLookup(s, k);
      ViewLookup(s, (conf, sid));
      if k == (conf, sid) {
        SetHere(s, conf, sid, opt, val);
      } else {
        SetElsewhere(s, conf, sid, opt, val, k);
      }
    }
    ViewIs(s', e);
  }

  // ----- whole runs

  datatype Op =
    | OpAdd(conf: Conf, typ: string, name: string, sid: Sid)
    | OpRemove(conf: Conf, sid: Sid)
    | OpSet(conf: Conf, sid: Sid, opt: Opt, val: Option<Value>)
    | OpSwap(conf: Conf, sid: Sid, other: Sid)
    | OpSections(conf: Conf, listing: seq<Entry>)

  function Do(s: State, op: Op): State {
    match op
    case OpAdd(conf, typ, name, sid) => Added(s, conf, typ, name, sid)
    case OpRemove(conf, sid) => Removed(s, conf, sid)
    case OpSet(conf, sid, opt, val) => WithOption(s, conf, sid, opt, val)
    case OpSwap(conf, sid, other) => Swapped(s, conf, sid, other)
    case OpSections(conf, listing) => Renumbered(s, conf, listing, 0)
  }

  function EagerDo(e: Eager, op: Op): Eager {
    match op
    case OpAdd(conf, typ, _, sid) => EagerAdd(e, (conf, sid), typ)
    case OpRemove(conf, sid) => EagerRemove(e, (conf, sid))
    case OpSet(conf, sid, opt, val) => EagerSet(e, (conf, sid), opt, val)
    case _ => e
  }

  /** Nothing is added under the name of a loaded section that is still there. */
  predicate Fresh(s: State, op: Op) {
    op.OpAdd? ==> !BaseLive(s, (op.conf, op.sid))
  }

  function DoAll(s: State, ops: seq<Op>): State
    decreases |ops|
  {
    if ops == [] then s else DoAll(Do(s, ops[0]), ops[1..])
  }

  function EagerDoAll(e: Eager, ops: seq<Op>): Eager
    decreases |ops|
  {
    if ops == [] then e else EagerDoAll(EagerDo(e, ops[0]), ops[1..])
  }

  predicate AllFresh(s: State, ops: seq<Op>)
    decreases |ops|
  {
    ops == [] || (Fresh(s, ops[0]) && AllFresh(Do(s, ops[0]), ops[1..]))
  }

  /** No added section hides a loaded one that is still there. */
  ghost predicate Coherent(s: State) {
    forall k :: !Hides(s, k)
  }

  /** Indexes apart, `s'` says the same of every section. */
  predicate SameButIndex(s: State, s': State, k: Key) {
    var v, v', n, n' := Cell(s.values, k), Cell(s'.values, k), Cell(s.creates, k), Cell(s'.creates, k);
    && v'.Some? == v.Some? && (v.Some? ==> v'.value == v.value.(index := v'.value.index))
    && n'.Some? == n.Some? && (n.Some? ==> n'.value == n.value.(index := n'.value.index))
    && Cell(s'.changes, k) == Cell(s.changes, k) && Cell(s'.deletes, k) == Cell(s.deletes, k)
  }

  lemma IndexAt(s: State, conf: Conf, sid: Sid, index: int, k: Key)
    requires GotSection(s, conf, sid).Some?
    ensures SameButIndex(s, WithIndex(s, conf, sid, index), k)
  {
    hide Put;
    PutCells(s.creates, conf, sid, k);
    PutCells(s.values, conf, sid, k);
  }

  lemma IndexKeeps(s: State, conf: Conf, sid: Sid, index: int, other: Sid)
    requires GotSection(s, conf, sid).Some?
    ensures GotSection(WithIndex(s, conf, sid, index), conf, other).Some? <==> GotSection(s, conf, other).Some?
  {
    IndexAt(s, conf, sid, index, (conf, other));
  }

  lemma SwappedAt(s: State, conf: Conf, sid1: Sid, sid2: Sid, k: Key)
    ensures SameButIndex(s, Swapped(s, conf, sid1, sid2), k)
  {
    hide WithIndex, Cell;
    var s1, s2 := GotSection(s, conf, sid1), GotSection(s, conf, sid2);
    if s1.Some? && s2.Some? {
      IndexKeeps(s, conf, sid1, s2.value.index, sid2);
      IndexAt(s, conf, sid1, s2.value.index, k);
      IndexAt(WithIndex(s, conf, sid1, s2.value.index), conf, sid2, s1.value.index, k);
    }
  }

  lemma {:induction false} RenumberedAt(s: State, conf: Conf, sa: seq<Entry>, i: nat, k: Key)
    requires i <= |sa|
    ensures SameButIndex(s, Renumbered(s, conf, sa, i), k)
    decreases |sa| - i
  {
    hide Put;
    if i < |sa| {
      var n := Row(s.creates, conf);
      var s' := if sa[i].made && sa[i].sid in n
                then s.(creates := Put(s.creates, conf, sa[i].sid, n[sa[i].sid].(index := i))) else s;
      PutCells(s.creates, conf, sa[i].sid, k);
      RenumberedAt(s', conf, sa, i + 1, k);
    }
  }

  /** What one operation does to one section, as far as the invariants care. */
  lemma StepAt(s: State, op: Op, k: Key)
    ensures var s' := Do(s, op);
            && (BaseLive(s', k) ==> BaseLive(s, k))
            && (Cell(s'.creates, k).Some? ==> Cell(s.creates, k).Some? || (op.OpAdd? && k == (op.conf, op.sid)))
            && (GroundedAt(s, k) ==> GroundedAt(s', k))
  {
    hide Put, Drop, Renumbered, Swapped;
    match op {
      case OpAdd(conf, typ, name, sid) =>
        PutCells(s.creates, conf, sid, k);
      case OpRemove(conf, sid) =>
        DropCell(s.creates, conf, sid, k);
        DropCell(s.changes, conf, sid, k);
        PutCells(s.deletes, conf, sid, k);
      case OpSet(conf, sid, opt, val) =>
        SetCells(s, conf, sid, opt, val, k);
      case OpSwap(conf, sid, other) =>
        SwappedAt(s, conf, sid, other, k);
      case OpSections(conf, listing) =>
        RenumberedAt(s, conf, listing, 0, k);
    }
  }

  lemma SetCells(s: State, conf: Conf, sid: Sid, opt: Opt, val: Option<Value>, k: Key)
    ensures var s' := WithOption(s, conf, sid, opt, val);
            && (BaseLive(s', k) ==> BaseLive(s, k))
            && (Cell(s'.creates, k).Some? ==> Cell(s.creates, k).Some?)
            && (GroundedAt(s, k) ==> GroundedAt(s', k))
  {
    hide InCreated, InChanges, InDeletes;
    if IsDot(opt) {
    } else if sid in Row(s.creates, conf) {
      InCreatedAt(s, conf, sid, opt, val, k);
    } else if val.Some? && val != Some(Text("")) {
      InChangesAt(s, conf, sid, opt, val.value, k);
    } else {
      InDeletesAt(s, conf, sid, opt, k);
    }
  }

  lemma StepKeeps(s: State, op: Op)
    ensures Grounded(s) ==> Grounded(Do(s, op))
    ensures Coherent(s) && Fresh(s, op) ==> Coherent(Do(s, op))
  {
    hide Do, GroundedAt, BaseLive;
    forall k
      ensures GroundedAt(s, k) ==> GroundedAt(Do(s, op), k)
      ensures !Hides(s, k) && Fresh(s, op) ==> !Hides(Do(s, op), k)
    {
      StepAt(s, op, k);
    }
  }

  lemma SameView(s: State, s': State)
    requires forall k :: SameButIndex(s, s', k)
    ensures View(s') == View(s)
  {
    hide View;
    forall k
      ensures ViewAt(s', k) == Lookup(View(s).live, k)
      ensures k in View(s).made <==> Cell(s'.creates, k).Some?
    {
      assert SameButIndex(s, s', k);
      ViewLookup(s, k);
    }
    ViewIs(s', View(s));
  }

  /** A section is removed that hides a loaded one. */
  predicate Reveals(s: State, op: Op) {
    op.OpRemove? && Hides(s, (op.conf, op.sid))
  }

  lemma StepRefines(s: State, op: Op)
    ensures View(Do(s, op)) == EagerDo(View(s), op) <==> !Reveals(s, op)
  {
    hide View, Added, Removed, WithOption, Swapped, Renumbered;
    match op {
      case OpAdd(conf, typ, name, sid) => AddRefines(s, conf, typ, name, sid);
      case OpRemove(conf, sid) => RemoveRefines(s, conf, sid);
      case OpSet(conf, sid, opt, val) => SetRefines(s, conf, sid, opt, val);
      case OpSwap(conf, sid, other) =>
        forall k {
          SwappedAt(s, conf, sid, other, k);
        }
        SameView(s, Do(s, op));
      case OpSections(conf, listing) =>
        forall k {
          RenumberedAt(s, conf, listing, 0, k);
        }
        SameView(s, Do(s, op));
    }
  }

  predicate AnyReveals(s: State, ops: seq<Op>)
    decreases |ops|
  {
    ops != [] && (Reveals(s, ops[0]) || AnyReveals(Do(s, ops[0]), ops[1..]))
  }

  /** All along the run the overlay stands for the map. */
  ghost predicate RefinesAlong(s: State, e: Eager, ops: seq<Op>)
    decreases |ops|
  {
    View(s) == e && (ops != [] ==> RefinesAlong(Do(s, ops[0]), EagerDo(e, ops[0]), ops[1..]))
  }

  /** All along any run the overlay stands for the map that every operation updated at once, if
      and only if no section is removed that hides a loaded one. */
  lemma {:induction false} RunRefines(s: State, ops: seq<Op>)
    ensures RefinesAlong(s, View(s), ops) <==> !AnyReveals(s, ops)
    ensures !AnyReveals(s, ops) ==> View(DoAll(s, ops)) == EagerDoAll(View(s), ops)
    ensures Grounded(s) ==> Grounded(DoAll(s, ops))
    decreases |ops|
  {
    hide View, Do, EagerDo, Grounded, Reveals;
    if ops != [] {
      StepKeeps(s, ops[0]);
      StepRefines(s, ops[0]);
      RunRefines(Do(s, ops[0]), ops[1..]);
    }
  }

  /** After any such run `get` is lookup in the eagerly updated map. */
  lemma RunGet(s: State, ops: seq<Op>, conf: Conf, sid: Sid, opt: Opt)
    requires Grounded(s) && !AnyReveals(s, ops) && !IsDot(opt)
    ensures var e, k := EagerDoAll(View(s), ops).live, (conf, sid);
            Got(DoAll(s, ops), conf, sid, opt) == if k in e then Lookup(e[k].opts, opt) else None
  {
    hide View, DoAll, EagerDoAll, Got, Grounded;
    RunRefines(s, ops);
    GetIsLookup(DoAll(s, ops), conf, sid, opt);
  }

  /** In particular a run that adds nothing under the name of a loaded section still there reveals nothing. */
  lemma {:induction false} FreshRun(s: State, ops: seq<Op>)
    requires Coherent(s) && AllFresh(s, ops)
    ensures !AnyReveals(s, ops) && Coherent(DoAll(s, ops))
    decreases |ops|
  {
    hide Do, Fresh;
    if ops != [] {
      StepKeeps(s, ops[0]);
      FreshRun(Do(s, ops[0]), ops[1..]);
    }
  }

  /** Adding a section under the name of a loaded one and removing it again leaves the loaded one,
      where the map has none. */
  lemma RevealingRun(s: State, conf: Conf, typ: string, sid: Sid)
    requires BaseLive(s, (conf, sid))
    ensures var ops := [OpAdd(conf, typ, sid, sid), OpRemove(conf, sid)];
            AnyReveals(s, ops) && View(DoAll(s, ops)) != EagerDoAll(View(s), ops)
  {
    hide View;
    var k, e1, e2 := (conf, sid), OpAdd(conf, typ, sid, sid), OpRemove(conf, sid);
    var s1 := Added(s, conf, typ, sid, sid);
    assert [e1, e2][1..] == [e2] && [e2][1..] == [];
    PutCells(s.creates, conf, sid, k);
    assert Hides(s1, k);
    AddRefines(s, conf, typ, sid, sid);
    RemoveRefines(s1, conf, sid);
    assert DoAll(s, [e1, e2]) == DoAll(s1, [e2]) == DoAll(Removed(s1, conf, sid), []);
    var e := EagerAdd(View(s), k, typ);
    assert EagerDoAll(View(s), [e1, e2]) == EagerDoAll(e, [e2]) == EagerDoAll(EagerRemove(e, k), []);
  }

  lemma SuchState(sec: Section)
    ensures BaseLive(Empty.(values := map["network" := map["lan" := sec]]), ("network", "lan"))
  {
  }

  /** A listing names the live sections of a loaded configuration that have the type asked for, once each. */
  lemma ListsLive(s: State, conf: Conf, typ: string, sa: seq<Entry>)
    requires Coherent(s) && conf in s.values && Lists(s, conf, typ, sa)
    ensures forall sid :: (conf, sid) in View(s).live && (typ == "" || View(s).live[(conf, sid)].typ == typ)
                          <==> exists i :: 0 <= i < |sa| && sa[i].sid == sid
    ensures forall i, j :: 0 <= i < j < |sa| ==> sa[i].sid != sa[j].sid
  {
    hide View;
    forall sid
      ensures (conf, sid) in View(s).live && (typ == "" || View(s).live[(conf, sid)].typ == typ)
              <==> exists i :: 0 <= i < |sa| && sa[i].sid == sid
    {
      assert !Hides(s, (conf, sid));
      ViewLookup(s, (conf, sid));
      LiveIsCandidate(s, conf, typ, sid, sa);
    }
    forall i, j | 0 <= i < j < |sa|
      ensures sa[i].sid != sa[j].sid
    {
      assert IsCandidate(s, conf, typ, sa[i]) && IsCandidate(s, conf, typ, sa[j]);
      assert !Hides(s, (conf, sa[i].sid));
    }
  }

  lemma LiveIsCandidate(s: State, conf: Conf, typ: string, sid: Sid, sa: seq<Entry>)
    requires conf in s.values && Lists(s, conf, typ, sa) && !Hides(s, (conf, sid))
    ensures var c := ViewAt(s, (conf, sid));
            c.Some? && (typ == "" || c.value.typ == typ) <==> exists i :: 0 <= i < |sa| && sa[i].sid == sid
  {
    var n, v := Row(s.creates, conf), Row(s.values, conf);
    var c := ViewAt(s, (conf, sid));
    var e := if sid in n then Entry(true, sid, n[sid])
             else if BaseLive(s, (conf, sid)) then LoadedEntry(s, conf, sid)
             else Entry(true, sid, Section("", sid, "", false, 0, map[]));
    assert e in sa <==> c.Some? && (typ == "" || c.value.typ == typ);
    forall i | 0 <= i < |sa| && sa[i].sid == sid
      ensures sa[i] == e
    {
      assert IsCandidate(s, conf, typ, sa[i]);
    }
  }

  // ----- what a listed section shows

  /** The option is one of those to be deleted from a loaded section. */
  predicate SinglyDeleted(s: State, conf: Conf, sid: Sid, o: Opt) {
    var d := Cell(s.deletes, (conf, sid));
    d.Some? && d.value.Only? && o in d.value.list
  }

  /** A line of a listing shows every option as `get` gives it, but for those singly deleted: these it
      still shows, changed or as loaded. */
  lemma ListedOptions(s: State, conf: Conf, typ: string, sa: seq<Entry>, e: Entry, o: Opt)
    requires Grounded(s) && conf in s.values && Lists(s, conf, typ, sa) && e in sa
    requires o == "" || o[0] != '.'
    ensures e.made || Cell(s.creates, (conf, e.sid)).None? ==>
              if !e.made && SinglyDeleted(s, conf, e.sid, o) then Got(s, conf, e.sid, o) == None
              else Lookup(e.sec.opts, o) == Got(s, conf, e.sid, o)
    ensures !e.made ==>
              var c, v := Row(s.changes, conf), Row(s.values, conf);
              e.sid in v && Lookup(e.sec.opts, o) ==
              if e.sid in c && o in c[e.sid] then Some(c[e.sid][o]) else Lookup(v[e.sid].opts, o)
  {
    assert IsCandidate(s, conf, typ, e);
    assert GroundedAt(s, (conf, e.sid));
    var v := Row(s.values, conf);
    MemberOption(e.sec, o);
    if e.sid in v {
      MemberOption(v[e.sid], o);
    }
  }

  /** And its type and its options but the singly deleted ones are those of the map. */
  lemma ListedContent(s: State, conf: Conf, typ: string, sa: seq<Entry>, e: Entry)
    requires Grounded(s) && conf in s.values && Lists(s, conf, typ, sa) && e in sa
    requires e.made || Cell(s.creates, (conf, e.sid)).None?
    ensures var k, deleted := (conf, e.sid), set o | o in e.sec.opts && !e.made && SinglyDeleted(s, conf, e.sid, o);
            k in View(s).live && View(s).live[k] == Content(e.sec.typ, e.sec.opts - deleted)
  {
    hide View;
    assert IsCandidate(s, conf, typ, e);
    ViewLookup(s, (conf, e.sid));
  }

  // ----- setting and getting

  /** What is set is what `get` gives, in every section there is. */
  lemma SetGet(s: State, conf: Conf, sid: Sid, opt: Opt, val: Option<Value>)
    requires Grounded(s) && (conf, sid) in View(s).live && (opt == "" || opt[0] != '.')
    ensures Got(WithOption(s, conf, sid, opt, val), conf, sid, opt) ==
            if val == Some(Text("")) && sid !in Row(s.creates, conf) then None else val
  {
    hide View, Got, WithOption;
    SetRefines(s, conf, sid, opt, val);
    StepKeeps(s, OpSet(conf, sid, opt, val));
    GetIsLookup(WithOption(s, conf, sid, opt, val), conf, sid, opt);
    ViewLookup(s, (conf, sid));
  }

  /** And nothing else changes. */
  lemma SetGetOther(s: State, conf: Conf, sid: Sid, opt: Opt, val: Option<Value>, conf2: Conf, sid2: Sid, opt2: Opt)
    requires Grounded(s) && (opt2 == "" || opt2[0] != '.') && (conf2, sid2, opt2) != (conf, sid, opt)
    ensures Got(WithOption(s, conf, sid, opt, val), conf2, sid2, opt2) == Got(s, conf2, sid2, opt2)
  {
    hide View, Got, WithOption;
    SetRefines(s, conf, sid, opt, val);
    StepKeeps(s, OpSet(conf, sid, opt, val));
    GetIsLookup(s, conf2, sid2, opt2);
    GetIsLookup(WithOption(s, conf, sid, opt, val), conf2, sid2, opt2);
  }

  /** A name that begins with a dot cannot be set. */
  lemma DotNotSet(s: State, conf: Conf, sid: Sid, opt: Opt, val: Option<Value>)
    requires opt != "" && opt[0] == '.'
    ensures WithOption(s, conf, sid, opt, val) == s
  {
  }

  /** The members of an added section that its options do not include. */
  lemma AddedMembers(s: State, conf: Conf, typ: string, name: string, sid: Sid)
    ensures var s' := Added(s, conf, typ, name, sid);
            && Got(s', conf, sid, ".type") == Some(Text(typ))
            && Got(s', conf, sid, ".name") == Some(Text(sid))
            && Got(s', conf, sid, ".create") == (if name == "" then None else Some(Text(name)))
            && Got(s', conf, sid, ".anonymous") == Some(Flag(name == ""))
            && Got(s', conf, sid, ".index") == Some(Num(1000 + s.newidx))
            && s'.newidx == s.newidx + 1
  {
    hide Put;
    PutCells(s.creates, conf, sid, (conf, sid));
  }

  /** Those of a loaded section, unless it is to be deleted or something pending bears that name. */
  lemma LoadedMembers(s: State, conf: Conf, sid: Sid, o: Opt)
    requires BaseLive(s, (conf, sid)) && Cell(s.creates, (conf, sid)).None?
    requires o in {".type", ".name", ".anonymous", ".index"} && !SinglyDeleted(s, conf, sid, o)
    requires sid in Row(s.changes, conf) ==> o !in Row(s.changes, conf)[sid]
    ensures var v := Row(s.values, conf)[sid];
            Got(s, conf, sid, o) == Some(
              if o == ".type" then Text(v.typ)
              else if o == ".name" then Text(v.name)
              else if o == ".anonymous" then Flag(v.anonymous)
              else Num(v.index))
  {
  }

  /** The section object got is the added one, and otherwise the loaded one, without what is pending for it. */
  lemma SectionGot(s: State, conf: Conf, typ: string, name: string, sid: Sid, opt: Opt, val: Option<Value>)
    ensures GotSection(Added(s, conf, typ, name, sid), conf, sid) ==
            Some(Section(typ, sid, name, name == "", 1000 + s.newidx, map[]))
    ensures Cell(s.creates, (conf, sid)).None? ==>
              GotSection(WithOption(s, conf, sid, opt, val), conf, sid) == Cell(s.values, (conf, sid)) &&
              GotSection(Removed(s, conf, sid), conf, sid) == Cell(s.values, (conf, sid))
  {
    hide Put, Drop;
    PutCells(s.creates, conf, sid, (conf, sid));
  }
}
