/**
 The order of sections is what is sent, and what is loaded after a save, added sections
 under the names the server gave them.
 */
module UciSaveOrder {
  import opened Options
  import opened UciTypes
  import opened UciServer
  import opened Uci
  import opened UciOverlay
  import opened UciSave
  import opened UciOrder

  // ----- what a run sends

  /** Every section goes by the name it is kept under. */
  ghost predicate OwnNames(s: State, conf: Conf) {
    forall sid :: GotSection(s, conf, sid).Some? ==> GotSection(s, conf, sid).value.name == sid
  }

  lemma SameButIndexKeeps(s: State, s': State, conf: Conf, sid: Sid)
    requires SameButIndex(s, s', (conf, sid))
    ensures GotSection(s', conf, sid).Some? == GotSection(s, conf, sid).Some?
    ensures GotSection(s, conf, sid).Some? ==> GotSection(s', conf, sid).value.name == GotSection(s, conf, sid).value.name
    ensures sid in Row(s'.values, conf) <==> sid in Row(s.values, conf)
    ensures BaseLive(s', (conf, sid)) <==> BaseLive(s, (conf, sid))
  {
  }

  lemma AddKeeps(s: State, conf: Conf, typ: string, name: string, sid: Sid)
    requires Complete(s, conf) && OwnNames(s, conf)
    ensures Complete(Added(s, conf, typ, name, sid), conf) && OwnNames(Added(s, conf, typ, name, sid), conf)
  {
    hide Put;
    var s' := Added(s, conf, typ, name, sid);
    forall other
      ensures GotSection(s', conf, other).Some? ==> GotSection(s', conf, other).value.name == other
      ensures other in Row(s'.values, conf) ==> BaseLive(s', (conf, other))
    {
      PutCells(s.creates, conf, sid, (conf, other));
      assert GotSection(s, conf, other).Some? ==> GotSection(s, conf, other).value.name == other;
    }
  }

  lemma IndexesKeep(s: State, s': State, conf: Conf)
    requires Complete(s, conf) && OwnNames(s, conf) && forall sid :: SameButIndex(s, s', (conf, sid))
    ensures Complete(s', conf) && OwnNames(s', conf)
  {
    hide SameButIndex, GotSection, BaseLive;
    forall sid
      ensures GotSection(s', conf, sid).Some? ==> GotSection(s', conf, sid).value.name == sid
      ensures sid in Row(s'.values, conf) ==> BaseLive(s', (conf, sid))
    {
      SameButIndexKeeps(s, s', conf, sid);
    }
  }

  lemma ActKeeps(s: State, conf: Conf, ids: seq<Sid>, a: Act)
    requires Complete(s, conf) && OwnNames(s, conf)
    ensures Complete(Act1(s, conf, ids, a), conf) && OwnNames(Act1(s, conf, ids, a), conf)
  {
    hide Complete, OwnNames, SameButIndex, Added, Renumbered, Swapped;
    match a {
      case AddAndList(typ, name, sid, listing) =>
        var s1 := Added(s, conf, typ, name, sid);
        AddKeeps(s, conf, typ, name, sid);
        forall other {
          RenumberedAt(s1, conf, listing, 0, (conf, other));
        }
        IndexesKeep(s1, Renumbered(s1, conf, listing, 0), conf);
      case SwapTwo(i, j) =>
        if i < |ids| && j < |ids| {
          forall other {
            SwappedAt(s, conf, ids[i], ids[j], (conf, other));
          }
          IndexesKeep(s, Swapped(s, conf, ids[i], ids[j]), conf);
        }
      case List(listing) =>
        forall other {
          RenumberedAt(s, conf, listing, 0, (conf, other));
        }
        IndexesKeep(s, Renumbered(s, conf, listing, 0), conf);
    }
  }

  lemma {:induction false} RunKeeps(s: State, conf: Conf, ids: seq<Sid>, acts: seq<Act>)
    requires Complete(s, conf) && OwnNames(s, conf)
    ensures Complete(ActAll(s, conf, ids, acts), conf) && OwnNames(ActAll(s, conf, ids, acts), conf)
    decreases |acts|
  {
    hide Complete, OwnNames, Act1;
    if acts != [] {
      ActKeeps(s, conf, ids, acts[0]);
      RunKeeps(Act1(s, conf, ids, acts[0]), conf, Order1(ids, acts[0]), acts[1..]);
    }
  }

  /** After any run of adding with listing, swapping and listing, the names sent for reordering are
      those of the sections in the order that the acts make. */
  lemma RunSendsOrder(s: State, conf: Conf, ids: seq<Sid>, acts: seq<Act>, sa: seq<Entry>)
    requires Arranged(s, conf, ids) && |ids| <= 1000 + s.newidx && AllPossible(s, conf, ids, acts)
    requires Complete(s, conf) && OwnNames(s, conf)
    requires Objects(ActAll(s, conf, ids, acts), conf, sa)
    ensures Names(sa) == OrderAll(ids, acts)
  {
    var s', ids' := ActAll(s, conf, ids, acts), OrderAll(ids, acts);
    RunArranges(s, conf, ids, acts);
    RunKeeps(s, conf, ids, acts);
    hide Arranged, Complete, Objects, ActAll, OrderAll;
    OrderIsListed(s', conf, ids', sa);
    forall i | 0 <= i < |ids'|
      ensures sa[i].sec.name == ids'[i]
    {
      assert GotSection(s', conf, ids'[i]) == Some(sa[i].sec);
    }
  }

  // ----- the new names

  /** The name a section goes by after the replies. */
  ghost function NewName(adds: seq<Key>, names: seq<Sid>, k: Key): Sid
    requires |adds| <= |names|
  {
    if i :| 0 <= i < |adds| && adds[i] == k then names[i] else k.1
  }

  ghost function NewIds(adds: seq<Key>, names: seq<Sid>, conf: Conf, ids: seq<Sid>): (r: seq<Sid>)
    requires |adds| <= |names|
    ensures |r| == |ids|
  {
    seq(|ids|, i requires 0 <= i < |ids| => NewName(adds, names, (conf, ids[i])))
  }

  lemma NewNameAt(adds: seq<Key>, names: seq<Sid>, i: nat)
    requires i < |adds| <= |names| && Distinct(adds)
    ensures NewName(adds, names, adds[i]) == names[i]
  {
  }

  /** What the naming makes of an added section. */
  lemma {:induction false} NamedCells(s: State, adds: seq<Key>, names: seq<Sid>, k: Key)
    requires |adds| <= |names| && Distinct(adds)
    requires forall k :: k in adds ==> Cell(s.creates, k).Some?
    ensures var n, n' := Cell(s.creates, k), Cell(Named(s, adds, names).creates, k);
            && n'.Some? == n.Some?
            && (n.Some? ==> n'.value == n.value.(name := if k in adds then NewName(adds, names, k) else n.value.name))
    decreases |adds|
  {
    hide Put, Cell;
    if adds != [] {
      var k0, rest := adds[0], adds[1..];
      var sec := Cell(s.creates, k0).value.(name := names[0]);
      var s' := s.(creates := Put(s.creates, k0.0, k0.1, sec));
      PutCellAll(s.creates, k0.0, k0.1, sec);
      forall k' | k' in rest
        ensures Cell(s'.creates, k').Some?
      {
        assert k' in adds;
      }
      assert forall i, j :: 0 <= i < j < |rest| ==> rest[i] != rest[j] by {
        assert forall i :: 0 <= i < |rest| ==> rest[i] == adds[i + 1];
      }
      NamedCells(s', rest, names[1..], k);
      NewNameAt(adds, names, 0);
      if k in rest {
        var i :| 0 <= i < |rest| && rest[i] == k;
        NewNameAt(rest, names[1..], i);
        assert adds[i + 1] == k;
        NewNameAt(adds, names, i + 1);
      }
      assert k in adds <==> k == k0 || k in rest;
    }
  }

  /** Naming keeps the order. */
  lemma NamedArranged(s: State, adds: seq<Key>, names: seq<Sid>, conf: Conf, ids: seq<Sid>)
    requires |adds| <= |names| && Distinct(adds)
    requires forall k :: k in adds ==> Cell(s.creates, k).Some?
    requires Arranged(s, conf, ids) && Complete(s, conf)
    ensures Arranged(Named(s, adds, names), conf, ids) && Complete(Named(s, adds, names), conf)
  {
    hide Named, NewName;
    var s' := Named(s, adds, names);
    NamedKeeps(s, adds, names);
    forall sid
      ensures !Hides(s', (conf, sid))
      ensures EntryOf(s', conf, sid).Some? == EntryOf(s, conf, sid).Some?
      ensures EntryOf(s, conf, sid).Some? ==> EntryOf(s', conf, sid).value.sec.index == EntryOf(s, conf, sid).value.sec.index
      ensures sid in Row(s'.values, conf) ==> BaseLive(s', (conf, sid))
    {
      NamedCells(s, adds, names, (conf, sid));
      assert !Hides(s, (conf, sid));
      assert sid in Row(s.values, conf) ==> BaseLive(s, (conf, sid));
    }
  }

  /** The names sent are the new names in the order of the listing. */
  lemma SentNames(s: State, adds: seq<Key>, names: seq<Sid>, conf: Conf, ids: seq<Sid>, sa: seq<Entry>)
    requires |adds| <= |names| && Enumerates(adds, Keys(s.creates))
    requires forall k :: k in adds ==> Cell(s.creates, k).Some?
    requires Arranged(s, conf, ids) && Complete(s, conf) && OwnNames(s, conf)
    requires Objects(Named(s, adds, names), conf, sa)
    ensures Names(sa) == NewIds(adds, names, conf, ids)
  {
    hide Arranged, Complete, Objects, Named;
    var s' := Named(s, adds, names);
    NamedArranged(s, adds, names, conf, ids);
    OrderIsListed(s', conf, ids, sa);
    NamedKeeps(s, adds, names);
    forall i | 0 <= i < |ids|
      ensures sa[i].sec.name == NewName(adds, names, (conf, ids[i]))
    {
      var k := (conf, ids[i]);
      assert GotSection(s', conf, ids[i]) == Some(sa[i].sec);
      NamedCells(s, adds, names, k);
      assert k in Keys(s.creates) <==> Cell(s.creates, k).Some?;
      assert k in adds <==> k in Keys(s.creates);
      assert GotSection(s, conf, ids[i]).Some? ==> GotSection(s, conf, ids[i]).value.name == ids[i];
    }
  }

  // ----- what the batch leaves

  /** The added sections and where they go. */
  ghost predicate Goes(s: State, db: Db, adds: seq<Key>, names: seq<Sid>) {
    && |adds| <= |names|
    && Enumerates(adds, Keys(s.creates))
    && Distinct(Targets(adds, names))
    && forall i :: 0 <= i < |adds| ==> Cell(db, (adds[i].0, names[i])) == None
  }

  lemma BatchGoes(s: State, db: Db, namer: Namer, plan: Plan)
    requires Ready(s, db, namer) && !Revives(s) && Covers(s, plan)
    ensures Goes(s, db, plan.adds, Replies(db, namer, BatchCalls(s, plan)))
  {
    hide ExecAll, Replies, BatchCalls, AddCalls, ContentAt, Ready, Revives, Cell, Keys, Targets, NamedBy;
    var names := Replies(db, namer, BatchCalls(s, plan));
    AddsOf(s, db, namer, plan);
    forall i | 0 <= i < |plan.adds|
      ensures Cell(db, (plan.adds[i].0, names[i])) == None
    {
      assert PlacedOne(s, db, ExecAll(db, namer, AddCalls(s, plan.adds)), plan.adds[i], names[i]);
    }
  }

  /** An added section goes to its target, and any other section stays. */
  lemma NewNameIs(s: State, db: Db, adds: seq<Key>, names: seq<Sid>, k: Key)
    requires Goes(s, db, adds, names)
    ensures Cell(s.creates, k).Some? ==>
              exists i :: 0 <= i < |adds| && adds[i] == k && NewName(adds, names, k) == names[i]
                          && Targets(adds, names)[i] == (k.0, names[i])
    ensures Cell(s.creates, k).None? ==> NewName(adds, names, k) == k.1
  {
    assert k in Keys(s.creates) <==> Cell(s.creates, k).Some?;
    assert k in adds <==> k in Keys(s.creates);
    if k in adds {
      var i :| 0 <= i < |adds| && adds[i] == k;
      NewNameAt(adds, names, i);
    }
  }

  /** No two live sections go to one name. */
  lemma NewIdsDistinct(s: State, db: Db, adds: seq<Key>, names: seq<Sid>, conf: Conf, ids: seq<Sid>)
    requires Goes(s, db, adds, names) && Arranged(s, conf, ids) && Synced(s, db)
    ensures Distinct(NewIds(adds, names, conf, ids))
  {
    hide NewName;
    forall i, j | 0 <= i < j < |ids|
      ensures NewName(adds, names, (conf, ids[i])) != NewName(adds, names, (conf, ids[j]))
    {
      Apart(s, db, adds, names, conf, ids[i], ids[j]);
    }
  }

  lemma Apart(s: State, db: Db, adds: seq<Key>, names: seq<Sid>, conf: Conf, a: Sid, b: Sid)
    requires Goes(s, db, adds, names) && Synced(s, db) && conf in s.values && a != b
    requires EntryOf(s, conf, a).Some? && EntryOf(s, conf, b).Some?
    ensures NewName(adds, names, (conf, a)) != NewName(adds, names, (conf, b))
  {
    hide NewName, Cell;
    var ka, kb := (conf, a), (conf, b);
    NewNameIs(s, db, adds, names, ka);
    NewNameIs(s, db, adds, names, kb);
    InDb(s, db, conf, a);
    InDb(s, db, conf, b);
    if Cell(s.creates, ka).Some? && Cell(s.creates, kb).Some? {
      var i :| 0 <= i < |adds| && adds[i] == ka && NewName(adds, names, ka) == names[i] && Targets(adds, names)[i] == (conf, names[i]);
      var j :| 0 <= j < |adds| && adds[j] == kb && NewName(adds, names, kb) == names[j] && Targets(adds, names)[j] == (conf, names[j]);
    }
  }

  /** A live section that was not added is on the server. */
  lemma InDb(s: State, db: Db, conf: Conf, sid: Sid)
    requires Synced(s, db) && conf in s.values && EntryOf(s, conf, sid).Some?
    ensures Cell(s.creates, (conf, sid)).None? ==> Cell(db, (conf, sid)).Some?
  {
    assert ContentAt(s.values, (conf, sid)) == ContentAt(db, (conf, sid));
  }

  /** The batch leaves sections under exactly the new names. */
  lemma StoredIds(s: State, db: Db, namer: Namer, plan: Plan, conf: Conf, ids: seq<Sid>, sid: Sid)
    requires Ready(s, db, namer) && !Revives(s) && Covers(s, plan) && Arranged(s, conf, ids)
    ensures var names := Replies(db, namer, BatchCalls(s, plan));
            |plan.adds| <= |names| &&
            (sid in Row(ExecAll(db, namer, BatchCalls(s, plan)), conf) <==> sid in NewIds(plan.adds, names, conf, ids))
  {
    hide ExecAll, Replies, BatchCalls, Ready, Revives, Committed, NewName, Arranged;
    var k, names := (conf, sid), Replies(db, namer, BatchCalls(s, plan));
    BatchGoes(s, db, namer, plan);
    CommittedAt(s, db, namer, plan, k);
    ArrangedLoaded(s, conf, ids);
    CommittedIds(s, db, plan.adds, names, conf, ids, sid);
  }

  lemma ArrangedLoaded(s: State, conf: Conf, ids: seq<Sid>)
    requires Arranged(s, conf, ids)
    ensures conf in s.values
    ensures forall sid :: sid in ids <==> ViewAt(s, (conf, sid)).Some?
  {
    forall sid
      ensures EntryOf(s, conf, sid).Some? == ViewAt(s, (conf, sid)).Some?
    {
    }
  }

  lemma CommittedIds(s: State, db: Db, adds: seq<Key>, names: seq<Sid>, conf: Conf, ids: seq<Sid>, sid: Sid)
    requires Goes(s, db, adds, names)
    requires forall sid :: sid in ids <==> ViewAt(s, (conf, sid)).Some?
    ensures Committed(View(s), adds, names, (conf, sid)).Some? <==> sid in NewIds(adds, names, conf, ids)
  {
    hide Committed, NewName, ViewAt, View, Cell;
    var k, ts, renamed := (conf, sid), Targets(adds, names), NewIds(adds, names, conf, ids);
    if k in ts {
      CommittedTarget(s, adds, names, k);
      var i :| 0 <= i < |adds| && ts[i] == k && Committed(View(s), adds, names, k) == ViewAt(s, adds[i]);
      AddedLive(s, adds, i);
      assert adds[i].1 in ids;
      var p :| 0 <= p < |ids| && ids[p] == adds[i].1;
      NewNameAt(adds, names, i);
      assert renamed[p] == sid;
    } else {
      CommittedElsewhere(s, adds, names, k);
      NewNameIs(s, db, adds, names, k);
      if Cell(s.creates, k).None? && ViewAt(s, k).Some? {
        var p :| 0 <= p < |ids| && ids[p] == sid;
        assert renamed[p] == sid;
      }
      forall p | 0 <= p < |ids| && renamed[p] == sid
        ensures Cell(s.creates, k).None? && ViewAt(s, k).Some?
      {
        NewNameIs(s, db, adds, names, (conf, ids[p]));
        assert ids[p] in ids;
      }
    }
  }

  lemma AddedLive(s: State, adds: seq<Key>, i: nat)
    requires i < |adds| && Enumerates(adds, Keys(s.creates))
    ensures ViewAt(s, adds[i]).Some?
  {
    assert adds[i] in adds;
    CreatedView(s, adds[i]);
  }

  // ----- what the order calls leave

  function OrderCall(order: (Conf, seq<Entry>)): seq<Call> {
    if order.1 == [] then [] else [CallOrder(order.0, Names(order.1))]
  }

  /** One order call numbers the sections it names. */
  lemma OrderOne(db: Db, namer: Namer, order: (Conf, seq<Entry>), conf: Conf)
    ensures var row, row' := Row(db, conf), Row(ExecAll(db, namer, OrderCall(order)), conf);
            if order.0 != conf then row' == row
            else
              && row'.Keys == row.Keys
              && forall sid :: sid in row && sid in Names(order.1) ==> row'[sid].index == IndexOf(Names(order.1), sid)
  {
    var calls := OrderCall(order);
    if calls != [] {
      assert calls[1..] == [];
      assert ExecAll(db, namer, calls) == Exec(db, namer, calls[0]);
    }
  }

  lemma OrdersCons(db: Db, namer: Namer, orders: seq<(Conf, seq<Entry>)>)
    requires orders != []
    ensures ExecAll(db, namer, OrderCalls(orders)) ==
            ExecAll(ExecAll(db, namer, OrderCall(orders[0])), namer, OrderCalls(orders[1..]))
  {
    ExecConcat(db, namer, OrderCall(orders[0]), OrderCalls(orders[1..]));
  }

  lemma {:induction false} OrdersElsewhere(db: Db, namer: Namer, orders: seq<(Conf, seq<Entry>)>, conf: Conf)
    requires forall j :: 0 <= j < |orders| ==> orders[j].0 != conf
    ensures Row(ExecAll(db, namer, OrderCalls(orders)), conf) == Row(db, conf)
    decreases |orders|
  {
    hide Row, Exec, ExecAll, OrderCall, OrderCalls;
    if orders == [] {
      NoOrders(db, namer);
    } else {
      OrdersCons(db, namer, orders);
      OrderOne(db, namer, orders[0], conf);
      OrdersElsewhere(ExecAll(db, namer, OrderCall(orders[0])), namer, orders[1..], conf);
    }
  }

  lemma NoOrders(db: Db, namer: Namer)
    ensures ExecAll(db, namer, OrderCalls([])) == db
  {
  }

  /** Of several order calls the one for `conf` numbers its sections. */
  lemma {:induction false} OrdersAt(db: Db, namer: Namer, orders: seq<(Conf, seq<Entry>)>, i: nat)
    requires i < |orders| && forall j, k :: 0 <= j < k < |orders| ==> orders[j].0 != orders[k].0
    ensures var conf, sids := orders[i].0, Names(orders[i].1);
            var row, row' := Row(db, conf), Row(ExecAll(db, namer, OrderCalls(orders)), conf);
            && row'.Keys == row.Keys
            && forall sid :: sid in row && sid in sids ==> row'[sid].index == IndexOf(sids, sid)
    decreases |orders|
  {
    hide Row, Exec, ExecAll, OrderCall, OrderCalls, Names, IndexOf;
    OrdersCons(db, namer, orders);
    OrderOne(db, namer, orders[0], orders[i].0);
    var db1 := ExecAll(db, namer, OrderCall(orders[0]));
    if i == 0 {
      OrdersElsewhere(db1, namer, orders[1..], orders[0].0);
    } else {
      assert orders[1..][i - 1] == orders[i];
      OrdersAt(db1, namer, orders[1..], i - 1);
    }
  }

  lemma {:induction false} IndexOfAt(sids: seq<Sid>, i: nat)
    requires i < |sids| && Distinct(sids)
    ensures IndexOf(sids, sids[i]) == i
  {
  }

  // ----- the order after a save

  /** The sections of a configuration that has nothing pending have the indexes of `ids`. */
  lemma PlainArranged(s: State, conf: Conf, ids: seq<Sid>)
    requires conf in s.values && s.creates == map[] && s.changes == map[] && s.deletes == map[] && Distinct(ids)
    requires forall sid :: sid in ids <==> sid in Row(s.values, conf)
    requires forall i :: 0 <= i < |ids| ==> Row(s.values, conf)[ids[i]].index == i
    ensures Arranged(s, conf, ids)
  {
    forall sid
      ensures !Hides(s, (conf, sid))
      ensures EntryOf(s, conf, sid).Some? <==> sid in Row(s.values, conf)
      ensures sid in Row(s.values, conf) ==> EntryOf(s, conf, sid).value.sec == Row(s.values, conf)[sid]
    {
    }
  }

  /** What is loaded of a configuration that is saved and reordered. */
  lemma SavedRow(s: State, db: Db, namer: Namer, plan: Plan, names: seq<Sid>, s': State, db': Db, conf: Conf, ids: seq<Sid>)
    requires Ready(s, db, namer) && !Revives(s) && Saves(s, db, namer, plan, names, s', db')
    requires Arranged(s, conf, ids) && Complete(s, conf) && OwnNames(s, conf) && conf in s.reorder
    ensures var sids := NewIds(plan.adds, names, conf, ids);
            && Distinct(sids)
            && (forall sid :: sid in sids <==> sid in Row(db', conf))
            && forall i :: 0 <= i < |sids| ==> Row(db', conf)[sids[i]].index == i
  {
    hide Ready, Revives, Arranged, Complete, OwnNames, Exec, ExecAll, Replies, BatchCalls, Named, Row, OrderCalls, NewName, IndexOf, Goes, Objects, Synced;
    var dbB, sids := ExecAll(db, namer, BatchCalls(s, plan)), NewIds(plan.adds, names, conf, ids);
    CoversAdds(s, plan);
    BatchGoes(s, db, namer, plan);
    ReadySynced(s, db, namer);
    NewIdsDistinct(s, db, plan.adds, names, conf, ids);
    forall sid
      ensures sid in sids <==> sid in Row(dbB, conf)
    {
      StoredIds(s, db, namer, plan, conf, ids, sid);
    }
    var confs := ConfsOf(plan.orders);
    NamedReorder(s, plan.adds, names);
    assert conf in confs;
    var i :| 0 <= i < |confs| && confs[i] == conf;
    SentNames(s, plan.adds, names, conf, ids, plan.orders[i].1);
    forall j, k | 0 <= j < k < |plan.orders|
      ensures plan.orders[j].0 != plan.orders[k].0
    {
      assert confs[j] != confs[k];
    }
    OrdersAt(dbB, namer, plan.orders, i);
    forall p | 0 <= p < |sids|
      ensures Row(db', conf)[sids[p]].index == p
    {
      IndexOfAt(sids, p);
      assert sids[p] in sids;
    }
  }

  lemma ReadySynced(s: State, db: Db, namer: Namer)
    requires Ready(s, db, namer)
    ensures Synced(s, db)
  {
  }

  lemma {:induction false} NamedReorder(s: State, adds: seq<Key>, names: seq<Sid>)
    requires |adds| <= |names| && forall k :: k in adds ==> Cell(s.creates, k).Some?
    ensures Named(s, adds, names).reorder == s.reorder
    decreases |adds|
  {
    if adds != [] {
      var k := adds[0];
      var sec := Cell(s.creates, k).value.(name := names[0]);
      PutCellAll(s.creates, k.0, k.1, sec);
      var s' := s.(creates := Put(s.creates, k.0, k.1, sec));
      assert forall k' :: k' in adds[1..] ==> k' in adds && Cell(s'.creates, k').Some?;
      NamedReorder(s', adds[1..], names[1..]);
    }
  }

  /** After saving, the sections of a reordered configuration are loaded in the order they were listed
      in before, added ones under their new names. */
  lemma SaveKeepsOrder(s: State, db: Db, namer: Namer, plan: Plan, names: seq<Sid>, s': State, db': Db, conf: Conf, ids: seq<Sid>)
    requires Ready(s, db, namer) && !Revives(s) && Saves(s, db, namer, plan, names, s', db')
    requires Arranged(s, conf, ids) && Complete(s, conf) && OwnNames(s, conf) && conf in s.reorder
    ensures Arranged(s', conf, NewIds(plan.adds, names, conf, ids))
  {
    hide Ready, Revives, Complete, OwnNames, NewName, BatchCalls, Named, Loaded, Unloaded, ExecAll, Replies, OrderCalls, Reorders, Arranged, Row;
    CoversAdds(s, plan);
    var sids := NewIds(plan.adds, names, conf, ids);
    SavedRow(s, db, namer, plan, names, s', db', conf, ids);
    Reloaded(s, db, namer, plan, names, s', db');
    assert Row(s'.values, conf) == if conf in Touched(s) then Row(db', conf) else Row(s.values, conf) by {
      var k := (conf, "");
      assert Row(s'.values, k.0) == if k.0 in Touched(s) then Row(db', k.0) else Row(s.values, k.0);
    }
    if conf !in Touched(s) {
      UntouchedRow(s, plan.adds, names, conf, ids);
    }
    ArrangedLoaded(s, conf, ids);
    assert conf in s'.values.Keys;
    PlainArranged(s', conf, sids);
  }

  /** With nothing pending for a configuration its sections keep their names, and are in order already. */
  lemma UntouchedRow(s: State, adds: seq<Key>, names: seq<Sid>, conf: Conf, ids: seq<Sid>)
    requires |adds| <= |names| && forall k :: k in adds ==> Cell(s.creates, k).Some?
    requires conf !in Touched(s) && Arranged(s, conf, ids)
    ensures NewIds(adds, names, conf, ids) == ids && Distinct(ids)
    ensures forall sid :: sid in ids <==> sid in Row(s.values, conf)
    ensures forall i :: 0 <= i < |ids| ==> Row(s.values, conf)[ids[i]].index == i
  {
    forall sid
      ensures EntryOf(s, conf, sid).Some? <==> sid in Row(s.values, conf)
      ensures sid in Row(s.values, conf) ==> EntryOf(s, conf, sid).value.sec.index == Row(s.values, conf)[sid].index
      ensures NewName(adds, names, (conf, sid)) == sid
    {
      assert Cell(s.creates, (conf, sid)).None?;
    }
  }

  /** Over a whole run: what the acts make of the order is what is loaded after the save. */
  lemma RunSavesOrder(s0: State, conf: Conf, ids: seq<Sid>, acts: seq<Act>, db: Db, namer: Namer,
                      plan: Plan, names: seq<Sid>, s': State, db': Db)
    requires Arranged(s0, conf, ids) && |ids| <= 1000 + s0.newidx && AllPossible(s0, conf, ids, acts)
    requires Complete(s0, conf) && OwnNames(s0, conf)
    requires var s := ActAll(s0, conf, ids, acts);
             && Ready(s, db, namer) && !Revives(s) && conf in s.reorder
             && Saves(s, db, namer, plan, names, s', db')
    ensures Arranged(s', conf, NewIds(plan.adds, names, conf, OrderAll(ids, acts)))
  {
    hide Arranged, Complete, OwnNames, Ready, Revives, AllPossible, ActAll, OrderAll, NewName;
    RunArranges(s0, conf, ids, acts);
    RunKeeps(s0, conf, ids, acts);
    SaveKeepsOrder(ActAll(s0, conf, ids, acts), db, namer, plan, names, s', db', conf, OrderAll(ids, acts));
  }
}
