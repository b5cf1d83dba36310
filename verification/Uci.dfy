/**
 The transaction overlay of luci2-base/htdocs/luci2/uci.js: sections loaded from the
 router, with pending creates, changes, deletes and reorders kept beside them.

 `State` holds the fields of the object, and the functions on it say what each
 operation does to them. Class `Uci` is the object itself.
 */
module Uci {
  import opened Options
  import opened UciTypes
  import opened UciServer

  datatype State = State(
    newidx: nat,
    values: Table<Section>,
    creates: Table<Section>,
    changes: Table<Opts>,
    deletes: Table<Deletion>,
    reorder: set<Conf>)

  const Empty := State(0, map[], map[], map[], map[], {})

  predicate IsDot(opt: Opt) {
    opt != "" && opt[0] == '.'
  }

  /** Member `opt` of a section object. */
  function Member(sec: Section, opt: Opt): Option<Value> {
    if opt == ".type" then Some(Text(sec.typ))
    else if opt == ".name" then Some(Text(sec.name))
    else if opt == ".create" then (if sec.create == "" then None else Some(Text(sec.create)))
    else if opt == ".anonymous" then Some(Flag(sec.anonymous))
    else if opt == ".index" then Some(Num(sec.index))
    else if opt in sec.opts then Some(sec.opts[opt])
    else None
  }

  /** `a` without `item`, in order. */
  function Without(a: seq<Opt>, item: Opt): seq<Opt> {
    if a == [] then [] else (if a[0] == item then [] else [a[0]]) + Without(a[1..], item)
  }

  lemma {:induction false} WithoutMembers(a: seq<Opt>, item: Opt, o: Opt)
    ensures o in Without(a, item) <==> o != item && o in a
    decreases |a|
  {
    if a != [] {
      assert a == [a[0]] + a[1..];
      WithoutMembers(a[1..], item, o);
    }
  }

  // ----- what the operations do

  function Added(s: State, conf: Conf, typ: string, name: string, sid: Sid): State {
    s.(creates := Put(s.creates, conf, sid, Section(typ, sid, name, name == "", 1000 + s.newidx, map[])),
       newidx := s.newidx + 1)
  }

  function Removed(s: State, conf: Conf, sid: Sid): State {
    if sid in Row(s.creates, conf) then s.(creates := Drop(s.creates, conf, sid))
    else s.(changes := Drop(s.changes, conf, sid), deletes := Put(s.deletes, conf, sid, Whole))
  }

  function Got(s: State, conf: Conf, sid: Sid, opt: Opt): Option<Value> {
    var n, c := Row(s.creates, conf), Row(s.changes, conf);
    var d, v := Row(s.deletes, conf), Row(s.values, conf);
    if sid in n then Member(n[sid], opt)
    else if sid in d && (d[sid].Whole? || opt in d[sid].list) then None
    else if sid in c && opt in c[sid] then Some(c[sid][opt])
    else if sid in v then Member(v[sid], opt)
    else None
  }

  /** `get` without an option: the section object, whatever is pending for it. */
  function GotSection(s: State, conf: Conf, sid: Sid): Option<Section> {
    var n, v := Row(s.creates, conf), Row(s.values, conf);
    if sid in n then Some(n[sid]) else if sid in v then Some(v[sid]) else None
  }

  /** `set` in an added section. */
  function InCreated(s: State, conf: Conf, sid: Sid, opt: Opt, val: Option<Value>): State
    requires sid in Row(s.creates, conf)
  {
    var sec := Row(s.creates, conf)[sid];
    var opts := if val.Some? then sec.opts[opt := val.value] else sec.opts - {opt};
    s.(creates := Put(s.creates, conf, sid, sec.(opts := opts)))
  }

  /** `set` of a value in a loaded section: it also undoes the deletion of the option. */
  function InChanges(s: State, conf: Conf, sid: Sid, opt: Opt, val: Value): State {
    var c, d := Row(s.changes, conf), Row(s.deletes, conf);
    if sid in d && d[sid].Whole? then s
    else if sid !in Row(s.values, conf) then s
    else
      var opts := if sid in c then c[sid] else map[];
      s.(changes := Put(s.changes, conf, sid, opts[opt := val]),
         deletes := if sid in d then Put(s.deletes, conf, sid, Only(Without(d[sid].list, opt))) else s.deletes)
  }

  /** `set` of nothing in a loaded section. */
  function InDeletes(s: State, conf: Conf, sid: Sid, opt: Opt): State {
    var d := Row(s.deletes, conf);
    if sid !in Row(s.values, conf) then s
    else if sid in d && d[sid].Whole? then s
    else s.(deletes := Put(s.deletes, conf, sid, Only((if sid in d then d[sid].list else []) + [opt])))
  }

  /** `set`; `None` stands for an undefined value, as in `unset`. */
  function WithOption(s: State, conf: Conf, sid: Sid, opt: Opt, val: Option<Value>): State {
    if IsDot(opt) then s
    else if sid in Row(s.creates, conf) then InCreated(s, conf, sid, opt, val)
    else if val.Some? && val != Some(Text("")) then InChanges(s, conf, sid, opt, val.value)
    else InDeletes(s, conf, sid, opt)
  }

  function WithIndex(s: State, conf: Conf, sid: Sid, index: int): State
    requires GotSection(s, conf, sid).Some?
  {
    var n, v := Row(s.creates, conf), Row(s.values, conf);
    if sid in n then s.(creates := Put(s.creates, conf, sid, n[sid].(index := index)))
    else s.(values := Put(s.values, conf, sid, v[sid].(index := index)))
  }

  function Swapped(s: State, conf: Conf, sid1: Sid, sid2: Sid): State {
    var s1, s2 := GotSection(s, conf, sid1), GotSection(s, conf, sid2);
    if s1.None? || s2.None? then s
    else
      var s' := WithIndex(s, conf, sid1, s2.value.index);
      WithIndex(s', conf, sid2, s1.value.index).(reorder := s.reorder + {conf})
  }

  // ----- listing the sections of a configuration

  /** One line of a listing: an added section itself, or a copy of a loaded one with its changes. */
  datatype Entry = Entry(made: bool, sid: Sid, sec: Section)

  predicate Selects(typ: string, sec: Section) {
    typ == "" || sec.typ == typ
  }

  function LoadedEntry(s: State, conf: Conf, sid: Sid): Entry
    requires sid in Row(s.values, conf)
  {
    var v, c := Row(s.values, conf)[sid], Row(s.changes, conf);
    Entry(false, sid, if sid in c then v.(opts := v.opts + c[sid]) else v)
  }

  predicate IsCandidate(s: State, conf: Conf, typ: string, e: Entry) {
    var v, n, d := Row(s.values, conf), Row(s.creates, conf), Row(s.deletes, conf);
    && conf in s.values
    && if e.made then e.sid in n && e.sec == n[e.sid] && Selects(typ, e.sec)
       else
         && e.sid in v && !(e.sid in d && d[e.sid].Whole?)
         && Selects(typ, v[e.sid]) && e == LoadedEntry(s, conf, e.sid)
  }

  ghost predicate Ordered(sa: seq<Entry>) {
    forall i, j :: 0 <= i < j < |sa| ==> sa[i].sec.index <= sa[j].sec.index
  }

  /** All candidates, once each, in the order of their indexes. */
  ghost predicate Lists(s: State, conf: Conf, typ: string, sa: seq<Entry>) {
    && Distinct(sa)
    && Ordered(sa)
    && forall e :: e in sa <==> IsCandidate(s, conf, typ, e)
  }

  /** The entries from `i` on get their positions as indexes; added sections keep them. */
  function Renumbered(s: State, conf: Conf, sa: seq<Entry>, i: nat): State
    requires i <= |sa|
    decreases |sa| - i
  {
    if i == |sa| then s
    else
      var n := Row(s.creates, conf);
      var s' := if sa[i].made && sa[i].sid in n
                then s.(creates := Put(s.creates, conf, sa[i].sid, n[sa[i].sid].(index := i))) else s;
      Renumbered(s', conf, sa, i + 1)
  }

  function Positioned(sa: seq<Entry>): seq<Entry> {
    seq(|sa|, i requires 0 <= i < |sa| => sa[i].(sec := sa[i].sec.(index := i)))
  }

  lemma InsertedOrdered(sa: seq<Entry>, e: Entry, k: nat)
    requires Ordered(sa) && k <= |sa|
    requires forall j :: 0 <= j < k ==> sa[j].sec.index <= e.sec.index
    requires forall j :: k <= j < |sa| ==> e.sec.index <= sa[j].sec.index
    ensures Ordered(sa[..k] + [e] + sa[k..])
  {
  }

  lemma InsertedBag(sa: seq<Entry>, e: Entry, k: nat)
    requires k <= |sa|
    ensures multiset(sa[..k] + [e] + sa[k..]) == multiset(sa) + multiset{e}
  {
    assert sa == sa[..k] + sa[k..];
  }

  /** Insert `e` behind the entries whose index is not greater. */
  method Insert(sa: seq<Entry>, e: Entry) returns (r: seq<Entry>)
    requires Ordered(sa)
    ensures Ordered(r) && multiset(r) == multiset(sa) + multiset{e}
  {
    var k := |sa|;
    while k > 0 && sa[k - 1].sec.index > e.sec.index
      invariant 0 <= k <= |sa|
      invariant forall j :: k <= j < |sa| ==> e.sec.index < sa[j].sec.index
    {
      k := k - 1;
    }
    InsertedOrdered(sa, e, k);
    InsertedBag(sa, e, k);
    r := sa[..k] + [e] + sa[k..];
  }

  /** Array.sort with the index comparison. */
  method SortByIndex(sa: seq<Entry>) returns (r: seq<Entry>)
    ensures Ordered(r) && multiset(r) == multiset(sa)
  {
    r := [];
    for i := 0 to |sa|
      invariant Ordered(r) && multiset(r) == multiset(sa[..i])
    {
      r := Insert(r, sa[i]);
      assert sa[..i + 1] == sa[..i] + [sa[i]];
    }
    assert sa[..|sa|] == sa;
  }

  lemma SameBag<T>(a: seq<T>, b: seq<T>)
    requires multiset(a) == multiset(b)
    ensures forall e :: e in a <==> e in b
    ensures Distinct(a) ==> Distinct(b)
  {
    forall e
      ensures e in a <==> e in b
    {
      assert e in multiset(a) <==> e in multiset(b);
    }
    if Distinct(a) {
      forall i, j | 0 <= i < j < |b|
        ensures b[i] != b[j]
      {
        DistinctCounts(a, b[i]);
        assert b == b[..i] + [b[i]] + b[i + 1..j] + [b[j]] + b[j + 1..];
      }
    }
  }

  lemma {:induction false} DistinctCounts<T>(a: seq<T>, e: T)
    requires Distinct(a)
    ensures multiset(a)[e] <= 1
    decreases |a|
  {
    if a != [] {
      var a' := a[..|a| - 1];
      assert a == a' + [a[|a| - 1]];
      DistinctCounts(a', e);
      if a[|a| - 1] == e {
        assert e !in a';
      }
    }
  }

  lemma ListsSorted(s: State, conf: Conf, typ: string, loaded: seq<Entry>, added: seq<Entry>, sorted: seq<Entry>)
    requires Distinct(loaded) && Distinct(added)
    requires forall e :: e in loaded <==> IsCandidate(s, conf, typ, e) && !e.made
    requires forall e :: e in added <==> IsCandidate(s, conf, typ, e) && e.made
    requires Ordered(sorted) && multiset(sorted) == multiset(loaded + added)
    ensures Lists(s, conf, typ, sorted)
  {
    hide IsCandidate;
    var raw := loaded + added;
    forall i, j | 0 <= i < j < |raw|
      ensures raw[i] != raw[j]
    {
      if i < |loaded| <= j {
        assert raw[i] in loaded && raw[j] in added;
      }
    }
    SameBag(raw, sorted);
  }

  // ----- saving

  /** The orders in which saving goes through the pending creates, changes, deletes and
      reorders; each reordered configuration with its section objects by index. */
  datatype Plan = Plan(adds: seq<Key>, sets: seq<Key>, dels: seq<Key>, orders: seq<(Conf, seq<Entry>)>)

  function AddCall(s: State, k: Key): Call
    requires Cell(s.creates, k).Some?
  {
    var sec := Cell(s.creates, k).value;
    CallAdd(k.0, sec.typ, sec.create, sec.opts)
  }

  function SetCall(s: State, k: Key): Call
    requires Cell(s.changes, k).Some?
  {
    CallSet(k.0, k.1, Cell(s.changes, k).value)
  }

  function DeleteCall(s: State, k: Key): Call
    requires Cell(s.deletes, k).Some?
  {
    var d := Cell(s.deletes, k).value;
    CallDelete(k.0, k.1, if d.Whole? then None else Some(d.list))
  }

  function AddCalls(s: State, ks: seq<Key>): (calls: seq<Call>)
    ensures |calls| == |ks|
    requires forall k :: k in ks ==> Cell(s.creates, k).Some?
  {
    seq(|ks|, i requires 0 <= i < |ks| => assert ks[i] in ks; AddCall(s, ks[i]))
  }

  function SetCalls(s: State, ks: seq<Key>): (calls: seq<Call>)
    ensures |calls| == |ks|
    requires forall k :: k in ks ==> Cell(s.changes, k).Some?
  {
    seq(|ks|, i requires 0 <= i < |ks| => assert ks[i] in ks; SetCall(s, ks[i]))
  }

  function DeleteCalls(s: State, ks: seq<Key>): (calls: seq<Call>)
    ensures |calls| == |ks|
    requires forall k :: k in ks ==> Cell(s.deletes, k).Some?
  {
    seq(|ks|, i requires 0 <= i < |ks| => assert ks[i] in ks; DeleteCall(s, ks[i]))
  }

  /** Adds, then sets, then deletes. */
  ghost predicate Covers(s: State, plan: Plan) {
    && Enumerates(plan.adds, Keys(s.creates))
    && Enumerates(plan.sets, Keys(s.changes))
    && Enumerates(plan.dels, Keys(s.deletes))
  }

  function BatchCalls(s: State, plan: Plan): seq<Call>
    requires forall k :: k in plan.adds ==> Cell(s.creates, k).Some?
    requires forall k :: k in plan.sets ==> Cell(s.changes, k).Some?
    requires forall k :: k in plan.dels ==> Cell(s.deletes, k).Some?
  {
    AddCalls(s, plan.adds) + SetCalls(s, plan.sets) + DeleteCalls(s, plan.dels)
  }

  /** The added sections take the names of the replies. */
  function Named(s: State, adds: seq<Key>, names: seq<Sid>): State
    requires |adds| <= |names|
    requires forall k :: k in adds ==> Cell(s.creates, k).Some?
    decreases |adds|
  {
    if adds == [] then s
    else
      var k := adds[0];
      var s' := s.(creates := Put(s.creates, k.0, k.1, Cell(s.creates, k).value.(name := names[0])));
      assert forall k' :: k' in adds[1..] ==> k' in adds && Cell(s'.creates, k').Some? by {
        PutCellAll(s.creates, k.0, k.1, Cell(s.creates, k).value.(name := names[0]));
      }
      Named(s', adds[1..], names[1..])
  }

  lemma PutCellAll<V>(t: Table<V>, conf: Conf, sid: Sid, v: V)
    ensures forall k :: Cell(Put(t, conf, sid, v), k) == if k == (conf, sid) then Some(v) else Cell(t, k)
  {
    forall k {
      PutCell(t, conf, sid, v, k);
    }
  }

  /** A section object of a configuration, as reordering finds it. */
  predicate IsObject(s: State, conf: Conf, e: Entry) {
    e.sid in Row(if e.made then s.creates else s.values, conf) &&
    e.sec == Row(if e.made then s.creates else s.values, conf)[e.sid]
  }

  /** All section objects of `conf`, once each, by index. */
  ghost predicate Objects(s: State, conf: Conf, sa: seq<Entry>) {
    Distinct(sa) && Ordered(sa) && forall e :: e in sa <==> IsObject(s, conf, e)
  }

  function Names(sa: seq<Entry>): seq<Sid> {
    seq(|sa|, i requires 0 <= i < |sa| => sa[i].sec.name)
  }

  function OrderCalls(orders: seq<(Conf, seq<Entry>)>): seq<Call> {
    if orders == [] then []
    else (if orders[0].1 == [] then [] else [CallOrder(orders[0].0, Names(orders[0].1))]) + OrderCalls(orders[1..])
  }

  function ConfsOf(orders: seq<(Conf, seq<Entry>)>): (confs: seq<Conf>)
    ensures |confs| == |orders|
  {
    seq(|orders|, i requires 0 <= i < |orders| => orders[i].0)
  }

  ghost predicate Reorders(s: State, orders: seq<(Conf, seq<Entry>)>) {
    && Enumerates(ConfsOf(orders), s.reorder)
    && forall i :: 0 <= i < |orders| ==> Objects(s, orders[i].0, orders[i].1)
  }

  function Unloaded(s: State, pkgs: set<Conf>): State {
    s.(values := s.values - pkgs, creates := s.creates - pkgs, changes := s.changes - pkgs, deletes := s.deletes - pkgs)
  }

  /** Configurations not loaded yet are fetched. */
  function Loaded(s: State, pkgs: set<Conf>, db: Db): State {
    s.(values := s.values + map conf | conf in pkgs && conf !in s.values :: Row(db, conf))
  }

  function Touched(s: State): set<Conf> {
    s.creates.Keys + s.changes.Keys + s.deletes.Keys
  }

  /** What saving replies to, orders by, and leaves in the object and on the server. */
  ghost predicate Saves(s: State, db: Db, namer: Namer, plan: Plan, names: seq<Sid>, s': State, db': Db) {
    && Covers(s, plan)
    && |plan.adds| <= |names|
    && var calls := BatchCalls(s, plan);
       && names == Replies(db, namer, calls)
       && Reorders(Named(s, plan.adds, names), plan.orders)
       && db' == ExecAll(ExecAll(db, namer, calls), namer, OrderCalls(plan.orders))
       && var named := Named(s, plan.adds, names).(reorder := {});
          s' == Loaded(Unloaded(named, Touched(s)), Touched(s), db')
  }

  /** The rest of the array, with the item at `i` cut out or passed over. */
  lemma WithoutStep(r: seq<Opt>, i: nat, item: Opt)
    requires i < |r|
    ensures var cut := r[..i] + r[i + 1..];
            r[..i] + Without(r[i..], item) ==
            if r[i] == item then cut[..i] + Without(cut[i..], item) else r[..i + 1] + Without(r[i + 1..], item)
  {
    var cut := r[..i] + r[i + 1..];
    assert r[i..][1..] == r[i + 1..];
    assert cut[..i] == r[..i] && cut[i..] == r[i + 1..];
  }

  /** L.filterArray, cutting items out of the array as it goes. */
  method FilterArray(array0: seq<Opt>, item: Opt) returns (r: seq<Opt>)
    ensures r == Without(array0, item)
  {
    hide Without;
    r := array0;
    var i := 0;
    assert r[..0] + Without(r[0..], item) == Without(array0, item);
    while i < |r|
      invariant 0 <= i <= |r|
      invariant Without(array0, item) == r[..i] + Without(r[i..], item)
      decreases |r| - i
    {
      WithoutStep(r, i, item);
      if r[i] == item {
        r := r[..i] + r[i + 1..];
      } else {
        i := i + 1;
      }
    }
    WithoutNothing(item);
    assert r[i..] == [] && r[..i] == r;
  }

  lemma WithoutNothing(item: Opt)
    ensures Without([], item) == []
  {
  }

  class Uci {
    var newidx: nat
    var values: Table<Section>
    var creates: Table<Section>
    var changes: Table<Opts>
    var deletes: Table<Deletion>
    var reorder: set<Conf>

    function St(): State
      reads this
    {
      State(newidx, values, creates, changes, deletes, reorder)
    }

    constructor ()
      ensures St() == Empty
    {
      newidx, values, creates, changes, deletes, reorder := 0, map[], map[], map[], map[], {};
    }

    /** `draw` is the random name that createSID ends up with. */
    method Add(conf: Conf, typ: string, name: string, draw: Sid) returns (sid: Sid)
      requires name == "" ==> draw !in Row(creates, conf) && draw !in Row(values, conf)
      modifies this
      ensures sid == if name == "" then draw else name
      ensures St() == Added(old(St()), conf, typ, name, sid)
    {
      sid := if name != "" then name else draw;
      var row := if conf in creates then creates[conf] else map[];
      creates := creates[conf := row[sid := Section(typ, sid, name, name == "", 1000 + newidx, map[])]];
      newidx := newidx + 1;
    }

    method Remove(conf: Conf, sid: Sid)
      modifies this
      ensures St() == Removed(old(St()), conf, sid)
    {
      if conf in creates && sid in creates[conf] {
        creates := creates[conf := creates[conf] - {sid}];
      } else {
        if conf in changes {
          changes := changes[conf := changes[conf] - {sid}];
        }
        var row := if conf in deletes then deletes[conf] else map[];
        deletes := deletes[conf := row[sid := Whole]];
      }
    }

    method Get(conf: Conf, sid: Sid, opt: Opt) returns (r: Option<Value>)
      ensures r == Got(St(), conf, sid, opt)
    {
      if conf in creates && sid in creates[conf] {
        return Member(creates[conf][sid], opt);
      }
      if conf in deletes && sid in deletes[conf] {
        var d := deletes[conf][sid];
        if d.Whole? { return None; }
        for i := 0 to |d.list|
          invariant opt !in d.list[..i]
        {
          if d.list[i] == opt { return None; }
        }
      }
      if conf in changes && sid in changes[conf] && opt in changes[conf][sid] {
        return Some(changes[conf][sid][opt]);
      }
      if conf in values && sid in values[conf] {
        return Member(values[conf][sid], opt);
      }
      return None;
    }

    method GetSection(conf: Conf, sid: Sid) returns (r: Option<Section>)
      ensures r == GotSection(St(), conf, sid)
    {
      if conf in creates && sid in creates[conf] {
        return Some(creates[conf][sid]);
      }
      if conf in values {
        return if sid in values[conf] then Some(values[conf][sid]) else None;
      }
      return None;
    }

    /** The branch of `Set` for a value in a loaded section. */
    method SetChange(conf: Conf, sid: Sid, opt: Opt, val: Value)
      modifies this`changes, this`deletes
      ensures St() == InChanges(old(St()), conf, sid, opt, val)
    {
      if conf in deletes && sid in deletes[conf] && deletes[conf][sid].Whole? { return; }
      if conf !in values || sid !in values[conf] { return; }
      if conf in deletes && sid in deletes[conf] {
        var kept := FilterArray(deletes[conf][sid].list, opt);
        deletes := deletes[conf := deletes[conf][sid := Only(kept)]];
      }
      var row := if conf in changes then changes[conf] else map[];
      var opts := if sid in row then row[sid] else map[];
      changes := changes[conf := row[sid := opts[opt := val]]];
    }

    /** The branch of `Set` for nothing, or the empty text, in a loaded section. */
    method SetDeletion(conf: Conf, sid: Sid, opt: Opt)
      modifies this`deletes
      ensures St() == InDeletes(old(St()), conf, sid, opt)
    {
      if conf !in values || sid !in values[conf] { return; }
      var row := if conf in deletes then deletes[conf] else map[];
      var d := if sid in row then row[sid] else Only([]);
      if !d.Whole? {
        deletes := deletes[conf := row[sid := Only(d.list + [opt])]];
      }
    }

    method Set(conf: Conf, sid: Sid, opt: Opt, val: Option<Value>)
      modifies this`creates, this`changes, this`deletes
      ensures St() == WithOption(old(St()), conf, sid, opt, val)
    {
      if IsDot(opt) { return; }
      if conf in creates && sid in creates[conf] {
        var sec := creates[conf][sid];
        if val.Some? {
          sec := sec.(opts := sec.opts[opt := val.value]);
        } else {
          sec := sec.(opts := sec.opts - {opt});
        }
        creates := creates[conf := creates[conf][sid := sec]];
      } else if val.Some? && val.value != Text("") {
        SetChange(conf, sid, opt, val.value);
      } else {
        SetDeletion(conf, sid, opt);
      }
    }

    method Unset(conf: Conf, sid: Sid, opt: Opt)
      modifies this
      ensures St() == WithOption(old(St()), conf, sid, opt, None)
    {
      Set(conf, sid, opt, None);
    }

    /** Write an index into the section object that `get` returns. */
    method SetIndex(conf: Conf, sid: Sid, index: int)
      requires GotSection(St(), conf, sid).Some?
      modifies this
      ensures St() == WithIndex(old(St()), conf, sid, index)
    {
      if conf in creates && sid in creates[conf] {
        creates := creates[conf := creates[conf][sid := creates[conf][sid].(index := index)]];
      } else {
        values := values[conf := values[conf][sid := values[conf][sid].(index := index)]];
      }
    }

    method Swap(conf: Conf, sid1: Sid, sid2: Sid) returns (done: bool)
      modifies this
      ensures done <==> GotSection(old(St()), conf, sid1).Some? && GotSection(old(St()), conf, sid2).Some?
      ensures St() == Swapped(old(St()), conf, sid1, sid2)
    {
      var s1 := GetSection(conf, sid1);
      var s2 := GetSection(conf, sid2);
      if s1.None? || s2.None? { return false; }
      SetIndex(conf, sid1, s2.value.index);
      SetIndex(conf, sid2, s1.value.index);
      reorder := reorder + {conf};
      return true;
    }

    /** The part of a listing that comes from the loaded sections. */
    method LoadedEntries(conf: Conf, typ: string) returns (raw: seq<Entry>)
      requires conf in values
      ensures Distinct(raw)
      ensures forall e :: e in raw <==> IsCandidate(St(), conf, typ, e) && !e.made
    {
      var v, todo := values[conf], values[conf].Keys;
      raw := [];
      while todo != {}
        invariant todo <= v.Keys
        invariant Distinct(raw)
        invariant forall e :: e in raw <==> IsCandidate(St(), conf, typ, e) && !e.made && e.sid !in todo
        decreases |todo|
      {
        var sid :| sid in todo;
        todo := todo - {sid};
        if !(conf in deletes && sid in deletes[conf] && deletes[conf][sid].Whole?) {
          if Selects(typ, v[sid]) {
            raw := raw + [LoadedEntry(St(), conf, sid)];
          }
        }
      }
    }

    /** The part of a listing that comes from the added sections. */
    method AddedEntries(conf: Conf, typ: string) returns (raw: seq<Entry>)
      requires conf in values
      ensures Distinct(raw)
      ensures forall e :: e in raw <==> IsCandidate(St(), conf, typ, e) && e.made
    {
      raw := [];
      if conf !in creates { return; }
      var n, todo := creates[conf], creates[conf].Keys;
      while todo != {}
        invariant todo <= n.Keys
        invariant Distinct(raw)
        invariant forall e :: e in raw <==> IsCandidate(St(), conf, typ, e) && e.made && e.sid !in todo
        decreases |todo|
      {
        var sid :| sid in todo;
        todo := todo - {sid};
        if Selects(typ, n[sid]) {
          raw := raw + [Entry(true, sid, n[sid])];
        }
      }
    }

    /** `sections` without a callback. `listing` is the result with the indexes it was sorted by. */
    method Sections(conf: Conf, typ: string) returns (sa: seq<Entry>, ghost listing: seq<Entry>)
      modifies this`creates
      ensures Lists(old(St()), conf, typ, listing)
      ensures St() == Renumbered(old(St()), conf, listing, 0)
      ensures sa == Positioned(listing)
    {
      if conf !in values { return [], []; }
      var loaded := LoadedEntries(conf, typ);
      var added := AddedEntries(conf, typ);
      var sorted := SortByIndex(loaded + added);
      ListsSorted(St(), conf, typ, loaded, added, sorted);
      hide Lists, IsCandidate, Distinct, Ordered, Renumbered;
      sa := Number(conf, sorted);
      listing := sorted;
    }

    /** Positions become indexes, in the copies of loaded sections and in the added sections themselves. */
    method Number(conf: Conf, sorted: seq<Entry>) returns (sa: seq<Entry>)
      modifies this`creates
      ensures St() == Renumbered(old(St()), conf, sorted, 0)
      ensures sa == Positioned(sorted)
    {
      sa := [];
      for i := 0 to |sorted|
        invariant Renumbered(old(St()), conf, sorted, 0) == Renumbered(St(), conf, sorted, i)
        invariant sa == Positioned(sorted)[..i]
      {
        var e := sorted[i];
        if e.made && conf in creates && e.sid in creates[conf] {
          creates := creates[conf := creates[conf][e.sid := creates[conf][e.sid].(index := i)]];
        }
        sa := sa + [e.(sec := e.sec.(index := i))];
      }
      assert sa == Positioned(sorted);
    }

    /** reorderSections: one order call for each configuration with swapped sections. */
    method ReorderSections(server: Server) returns (ghost orders: seq<(Conf, seq<Entry>)>)
      modifies this`reorder, server
      ensures Reorders(old(St()), orders)
      ensures server.db == ExecAll(old(server.db), server.namer, OrderCalls(orders))
      ensures St() == old(St()).(reorder := {})
    {
      var todo := Enumerate(reorder);
      var lists: seq<(Conf, seq<Entry>)> := [];
      for i := 0 to |todo|
        invariant |lists| == i
        invariant forall j :: 0 <= j < i ==> lists[j].0 == todo[j] && Objects(St(), todo[j], lists[j].1)
        invariant St() == old(St()) && server.db == old(server.db)
      {
        var sa := ObjectsByIndex(todo[i]);
        lists := lists + [(todo[i], sa)];
      }
      orders := lists;
      assert ConfsOf(orders) == todo;
      var replies := server.Batch(OrderCalls(lists));
      reorder := {};
    }

    method ObjectsByIndex(conf: Conf) returns (sa: seq<Entry>)
      ensures Objects(St(), conf, sa)
    {
      var added := ObjectsOf(true, conf, if conf in creates then creates[conf] else map[]);
      var loaded := ObjectsOf(false, conf, if conf in values then values[conf] else map[]);
      sa := SortByIndex(added + loaded);
      forall i, j | 0 <= i < j < |added + loaded|
        ensures (added + loaded)[i] != (added + loaded)[j]
      {
        if i < |added| <= j {
          assert (added + loaded)[i] in added && (added + loaded)[j] in loaded;
        }
      }
      SameBag(added + loaded, sa);
    }

    method ObjectsOf(made: bool, conf: Conf, row: map<Sid, Section>) returns (a: seq<Entry>)
      ensures Distinct(a)
      ensures forall e :: e in a <==> e.made == made && e.sid in row && e.sec == row[e.sid]
    {
      var sids := Enumerate(row.Keys);
      a := [];
      for i := 0 to |sids|
        invariant |a| == i && forall j :: 0 <= j < i ==> a[j] == Entry(made, sids[j], row[sids[j]])
      {
        assert sids[i] in sids;
        a := a + [Entry(made, sids[i], row[sids[i]])];
      }
      forall e: Entry | e.made == made && e.sid in row && e.sec == row[e.sid]
        ensures e in a
      {
        assert e.sid in sids;
        var j :| 0 <= j < |sids| && sids[j] == e.sid;
        assert a[j] == e;
      }
      assert forall j :: 0 <= j < |a| ==> sids[j] in sids;
    }

    method Unload(pkgs: set<Conf>)
      modifies this`values, this`creates, this`changes, this`deletes
      ensures St() == Unloaded(old(St()), pkgs)
    {
      values, creates, changes, deletes := values - pkgs, creates - pkgs, changes - pkgs, deletes - pkgs;
    }

    method Load(pkgs: set<Conf>, server: Server)
      modifies this`values
      ensures St() == Loaded(old(St()), pkgs, server.db)
    {
      var todo := Enumerate(pkgs);
      ghost var before := values;
      for i := 0 to |todo|
        invariant forall conf :: conf in values <==> conf in before || conf in todo[..i]
        invariant forall conf :: conf in values ==>
                    values[conf] == if conf in before then before[conf] else Row(server.db, conf)
      {
        assert todo[..i + 1] == todo[..i] + [todo[i]];
        if todo[i] !in values {
          values := values[todo[i] := Row(server.db, todo[i])];
        }
      }
      assert todo[..|todo|] == todo;
    }

    /** The replies name the added sections. */
    method AssignNames(adds: seq<Key>, responses: seq<Sid>)
      requires |adds| <= |responses|
      requires forall k :: k in adds ==> Cell(creates, k).Some?
      modifies this`creates
      ensures St() == Named(old(St()), adds, responses)
      ensures creates.Keys == old(creates.Keys)
    {
      for i := 0 to |adds|
        invariant forall k :: k in adds[i..] ==> Cell(St().creates, k).Some?
        invariant Named(old(St()), adds, responses) == Named(St(), adds[i..], responses[i..])
        invariant creates.Keys == old(creates.Keys)
      {
        var k := adds[i];
        assert adds[i..][0] == k && adds[i..][1..] == adds[i + 1..] && responses[i..][1..] == responses[i + 1..];
        assert k in adds[i..];
        PutCellAll(creates, k.0, k.1, Cell(creates, k).value.(name := responses[i]));
        creates := Put(creates, k.0, k.1, Cell(creates, k).value.(name := responses[i]));
      }
      assert adds[|adds|..] == [];
    }

    /** `save`: one batch, the new names, the order of the sections, and a fresh load. */
    method Save(server: Server) returns (ghost plan: Plan, ghost names: seq<Sid>)
      modifies this, server
      ensures Saves(old(St()), old(server.db), server.namer, plan, names, St(), server.db)
    {
      hide Named, Loaded, Unloaded, Reorders, Exec, ExecAll, Replies, AddCalls, SetCalls, DeleteCalls, Cell;
      var adds := Enumerate(Keys(creates));
      var sets := Enumerate(Keys(changes));
      var dels := Enumerate(Keys(deletes));
      var pkgs := creates.Keys + changes.Keys + deletes.Keys;
      plan := Plan(adds, sets, dels, []);
      var responses := server.Batch(AddCalls(St(), adds) + SetCalls(St(), sets) + DeleteCalls(St(), dels));
      names := responses;
      AssignNames(adds, responses);
      ghost var orders := ReorderSections(server);
      plan := plan.(orders := orders);
      Unload(pkgs);
      Load(pkgs, server);
    }
  }
}
