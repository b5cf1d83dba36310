/**
 Saving commits the overlay: what it stood for is what the server holds and what is
 loaded afterwards, with added sections under the names the server gave them. This
 holds exactly when no section is added under a name whose deletion is pending, since
 the batch puts its deletes last.
 */
module UciSave {
  import opened Options
  import opened UciTypes
  import opened UciServer
  import opened Uci
  import opened UciOverlay

  function ContentAt(t: Table<Section>, k: Key): Option<Content> {
    match Cell(t, k)
    case Some(sec) => Some(ContentOf(sec))
    case None => None
  }

  /** Loaded configurations hold what the server holds. */
  ghost predicate Synced(s: State, db: Db) {
    forall k: Key :: k.0 in s.values ==> ContentAt(s.values, k) == ContentAt(db, k)
  }

  /** A name that the client asks for or deletes. */
  predicate Mentions(s: State, sid: Sid) {
    || (exists k :: k in Keys(s.creates) && Cell(s.creates, k).value.create == sid)
    || (exists k :: k in Keys(s.deletes) && k.1 == sid)
  }

  /** The server makes up names that are neither in use nor mentioned by the client. */
  ghost predicate Avoids(s: State, namer: Namer) {
    forall used :: namer(used) !in used && !Mentions(s, namer(used))
  }

  /** A section added by name is kept under that name. */
  ghost predicate KeepsNames(s: State) {
    forall k :: k in Keys(s.creates) ==> Cell(s.creates, k).value.create in {"", k.1}
  }

  /** What a client that saves can rely on: loaded first, nothing hidden, nothing stale. */
  ghost predicate Ready(s: State, db: Db, namer: Namer) {
    && Grounded(s) && Coherent(s) && KeepsNames(s)
    && Touched(s) <= s.values.Keys
    && Synced(s, db)
    && Avoids(s, namer)
  }

  /** A section has been added under a name that is also to be deleted. */
  predicate Revives(s: State) {
    exists k :: k in Keys(s.creates) && Cell(s.creates, k).value.create != "" && Cell(s.deletes, k) == Some(Whole)
  }

  /** Where the added sections end up. */
  function Targets(ks: seq<Key>, names: seq<Sid>): seq<Key>
    requires |ks| <= |names|
  {
    seq(|ks|, i requires 0 <= i < |ks| => (ks[i].0, names[i]))
  }

  // ----- the three parts of the batch

  /** A section added by name gets that name, any other a name the client does not mention. */
  predicate NamedBy(s: State, k: Key, name: Sid)
    requires Cell(s.creates, k).Some?
  {
    if Cell(s.creates, k).value.create != "" then name == k.1 else !Mentions(s, name)
  }

  /** The section is put at its target, which is new. */
  predicate PlacedOne(s: State, db: Db, db': Db, k: Key, name: Sid) {
    && Cell(s.creates, k).Some?
    && NamedBy(s, k, name)
    && Cell(db, (k.0, name)) == None
    && ContentAt(db', (k.0, name)) == ContentAt(s.creates, k)
  }

  /** The adds put each section at its target, all targets different, and change nothing else. */
  ghost predicate Placed(s: State, db: Db, db': Db, ks: seq<Key>, names: seq<Sid>)
    requires |ks| <= |names|
  {
    && Distinct(Targets(ks, names))
    && (forall i :: 0 <= i < |ks| ==> PlacedOne(s, db, db', ks[i], names[i]))
    && (forall k :: k !in Targets(ks, names) ==> ContentAt(db', k) == ContentAt(db, k))
  }

  lemma {:induction false} AddsPlaced(s: State, db: Db, namer: Namer, ks: seq<Key>)
    requires Distinct(ks) && KeepsNames(s) && Avoids(s, namer)
    requires forall k :: k in ks ==> Cell(s.creates, k).Some?
    requires forall k :: k in ks && Cell(s.creates, k).value.create != "" ==> Cell(db, k) == None
    ensures Placed(s, db, ExecAll(db, namer, AddCalls(s, ks)), ks, Replies(db, namer, AddCalls(s, ks)))
    decreases |ks|
  {
    if ks != [] {
      hide Exec, Reply, Cell;
      var k, rest := ks[0], ks[1..];
      var sec, calls := Cell(s.creates, k).value, AddCalls(s, ks);
      assert calls[0] == AddCall(s, k) && calls[1..] == AddCalls(s, rest);
      var sid := Reply(db, namer, calls[0]);
      var t, db1 := (k.0, sid), Exec(db, namer, calls[0]);
      AddPlaced(s, db, namer, k);
      assert k in Keys(s.creates);
      forall k2 | k2 in rest && Cell(s.creates, k2).value.create != ""
        ensures Cell(db1, k2) == None
      {
        assert k2 in Keys(s.creates);
        assert k2 != t;
      }
      AddsPlaced(s, db1, namer, rest);
      PlacedCons(s, db, db1, ExecAll(db1, namer, AddCalls(s, rest)), ks, sid, Replies(db1, namer, AddCalls(s, rest)));
    }
  }

  /** `db1` is `db` with one section more, at `t`. */
  ghost predicate AddsOnly(db: Db, db1: Db, t: Key) {
    && Cell(db, t) == None && Cell(db1, t) != None
    && forall k :: k != t ==> Cell(db1, k) == Cell(db, k) && ContentAt(db1, k) == ContentAt(db, k)
  }

  lemma PlacedEarlier(s: State, db: Db, db1: Db, db': Db, t: Key, k: Key, name: Sid)
    requires AddsOnly(db, db1, t) && PlacedOne(s, db1, db', k, name)
    ensures (k.0, name) != t && PlacedOne(s, db, db', k, name)
  {
  }

  lemma PlacedCons(s: State, db: Db, db1: Db, db': Db, ks: seq<Key>, sid: Sid, names: seq<Sid>)
    requires ks != [] && |ks| <= |names| + 1
    requires AddsOnly(db, db1, (ks[0].0, sid)) && Placed(s, db1, db', ks[1..], names)
    requires Cell(s.creates, ks[0]).Some? && NamedBy(s, ks[0], sid)
    requires ContentAt(db1, (ks[0].0, sid)) == ContentAt(s.creates, ks[0])
    ensures Placed(s, db, db', ks, [sid] + names)
  {
    hide PlacedOne, AddsOnly, ContentAt, Cell, NamedBy;
    var t, rest, all := (ks[0].0, sid), Targets(ks[1..], names), [sid] + names;
    var ts := Targets(ks, all);
    TargetsCons(ks, sid, names);
    forall i | 0 < i < |ks|
      ensures ts[i] != t && PlacedOne(s, db, db', ks[i], all[i])
    {
      assert ks[i] == ks[1..][i - 1] && all[i] == names[i - 1];
      PlacedEarlier(s, db, db1, db', t, ks[i], all[i]);
    }
    DistinctCons(t, rest, ts);
    PlacedFirst(s, db, db1, db', ks[0], sid);
    forall k | k !in ts
      ensures ContentAt(db', k) == ContentAt(db, k)
    {
      SameElsewhere(db, db1, t, k);
    }
  }

  lemma TargetsCons(ks: seq<Key>, sid: Sid, names: seq<Sid>)
    requires ks != [] && |ks| <= |names| + 1
    ensures Targets(ks, [sid] + names) == [(ks[0].0, sid)] + Targets(ks[1..], names)
  {
  }

  lemma DistinctCons(t: Key, rest: seq<Key>, ts: seq<Key>)
    requires ts == [t] + rest && Distinct(rest)
    requires forall i :: 0 < i < |ts| ==> ts[i] != t
    ensures Distinct(ts) && t !in rest
    ensures forall k :: k !in ts ==> k !in rest && k != t
  {
    assert forall j :: 0 <= j < |rest| ==> rest[j] == ts[j + 1];
    assert ts[0] == t;
  }

  lemma PlacedFirst(s: State, db: Db, db1: Db, db': Db, k: Key, sid: Sid)
    requires AddsOnly(db, db1, (k.0, sid)) && Cell(s.creates, k).Some? && NamedBy(s, k, sid)
    requires ContentAt(db1, (k.0, sid)) == ContentAt(s.creates, k) == ContentAt(db', (k.0, sid))
    ensures PlacedOne(s, db, db', k, sid)
  {
  }

  lemma SameElsewhere(db: Db, db1: Db, t: Key, k: Key)
    requires AddsOnly(db, db1, t) && k != t
    ensures ContentAt(db1, k) == ContentAt(db, k)
  {
  }

  lemma AddPlaced(s: State, db: Db, namer: Namer, k: Key)
    requires KeepsNames(s) && Avoids(s, namer)
    requires Cell(s.creates, k).Some?
    requires Cell(s.creates, k).value.create != "" ==> Cell(db, k) == None
    ensures var sid, db1 := Reply(db, namer, AddCall(s, k)), Exec(db, namer, AddCall(s, k));
            && AddsOnly(db, db1, (k.0, sid))
            && NamedBy(s, k, sid)
            && ContentAt(db1, (k.0, sid)) == ContentAt(s.creates, k)
  {
    assert k in Keys(s.creates);
    var c := AddCall(s, k);
    var sid, row := Reply(db, namer, c), Row(db, k.0);
    PutCellAll(db, k.0, sid, Section(c.typ, sid, "", c.name == "", |row|, c.opts));
  }

  function SetTo(o: Option<Content>, c: Option<Opts>): Option<Content> {
    if o.Some? && c.Some? then Some(o.value.(opts := o.value.opts + c.value)) else o
  }

  lemma {:induction false} SetsDone(s: State, db: Db, namer: Namer, ks: seq<Key>)
    requires Distinct(ks) && forall k :: k in ks ==> Cell(s.changes, k).Some?
    ensures forall k :: ContentAt(ExecAll(db, namer, SetCalls(s, ks)), k) ==
                        if k in ks then SetTo(ContentAt(db, k), Cell(s.changes, k)) else ContentAt(db, k)
    decreases |ks|
  {
    if ks != [] {
      var k, rest, calls := ks[0], ks[1..], SetCalls(s, ks);
      assert calls[0] == SetCall(s, k) && calls[1..] == SetCalls(s, rest);
      var db1, row := Exec(db, namer, calls[0]), Row(db, k.0);
      if k.1 in row {
        PutCellAll(db, k.0, k.1, row[k.1].(opts := row[k.1].opts + calls[0].opts));
      }
      SetsDone(s, db1, namer, rest);
    }
  }

  function DeletedTo(o: Option<Content>, d: Option<Deletion>): Option<Content> {
    if o.None? || d.None? then o
    else if d.value.Whole? then None
    else Some(o.value.(opts := Minus(o.value.opts, d.value.list)))
  }

  lemma {:induction false} DeletesDone(s: State, db: Db, namer: Namer, ks: seq<Key>)
    requires Distinct(ks) && forall k :: k in ks ==> Cell(s.deletes, k).Some?
    ensures forall k :: ContentAt(ExecAll(db, namer, DeleteCalls(s, ks)), k) ==
                        if k in ks then DeletedTo(ContentAt(db, k), Cell(s.deletes, k)) else ContentAt(db, k)
    decreases |ks|
  {
    if ks != [] {
      var k, rest, calls := ks[0], ks[1..], DeleteCalls(s, ks);
      assert calls[0] == DeleteCall(s, k) && calls[1..] == DeleteCalls(s, rest);
      var db1, row := Exec(db, namer, calls[0]), Row(db, k.0);
      forall k'
        ensures ContentAt(db1, k') == if k' == k then DeletedTo(ContentAt(db, k), Cell(s.deletes, k)) else ContentAt(db, k')
      {
        DropCell(db, k.0, k.1, k');
        if k.1 in row && calls[0].list.Some? {
          PutCell(db, k.0, k.1, row[k.1].(opts := Minus(row[k.1].opts, calls[0].list.value)), k');
        }
      }
      DeletesDone(s, db1, namer, rest);
    }
  }

  lemma {:induction false} OrdersKeepContent(db: Db, namer: Namer, orders: seq<(Conf, seq<Entry>)>)
    ensures forall k :: ContentAt(ExecAll(db, namer, OrderCalls(orders)), k) == ContentAt(db, k)
    decreases |orders|
  {
    if orders != [] {
      var first := if orders[0].1 == [] then [] else [CallOrder(orders[0].0, Names(orders[0].1))];
      ExecConcat(db, namer, first, OrderCalls(orders[1..]));
      var db1 := ExecAll(db, namer, first);
      if first != [] {
        assert first[1..] == [];
        assert db1 == Exec(db, namer, first[0]);
      }
      forall k
        ensures ContentAt(db1, k) == ContentAt(db, k)
      {
      }
      OrdersKeepContent(db1, namer, orders[1..]);
    }
  }

  /** What the sets and deletes of the batch make of a section. */
  function Stored(s: State, o: Option<Content>, k: Key): Option<Content> {
    DeletedTo(SetTo(o, Cell(s.changes, k)), Cell(s.deletes, k))
  }

  lemma BatchStores(s: State, db: Db, namer: Namer, plan: Plan, k: Key)
    requires Covers(s, plan)
    ensures ContentAt(ExecAll(db, namer, BatchCalls(s, plan)), k) ==
            Stored(s, ContentAt(ExecAll(db, namer, AddCalls(s, plan.adds)), k), k)
  {
    hide Exec, ExecAll, Reply, Replies, AddCalls, SetCalls, DeleteCalls, ContentAt;
    var a, b, c := AddCalls(s, plan.adds), SetCalls(s, plan.sets), DeleteCalls(s, plan.dels);
    ExecConcat(db, namer, a + b, c);
    ExecConcat(db, namer, a, b);
    var dbA := ExecAll(db, namer, a);
    SetsDone(s, dbA, namer, plan.sets);
    DeletesDone(s, ExecAll(dbA, namer, b), namer, plan.dels);
    assert k in plan.sets <==> k in Keys(s.changes);
    assert k in plan.dels <==> k in Keys(s.deletes);
  }

  /** For a loaded section the batch stores what the overlay says. */
  lemma StoredIsSeen(s: State, k: Key)
    requires GroundedAt(s, k)
    ensures Stored(s, ContentAt(s.values, k), k) == Seen(Cell(s.values, k), None, Cell(s.changes, k), Cell(s.deletes, k))
  {
  }

  /** An added section at its target is not touched by the rest of the batch. */
  lemma StoredAtTarget(s: State, db: Db, namer: Namer, k: Key, sid: Sid, o: Option<Content>)
    requires Ready(s, db, namer) && !Revives(s)
    requires k in Keys(s.creates) && Cell(db, (k.0, sid)) == None
    requires NamedBy(s, k, sid)
    ensures Stored(s, o, (k.0, sid)) == o
  {
    var t := (k.0, sid);
    assert GroundedAt(s, t);
    assert k.0 in Touched(s);
    assert ContentAt(s.values, t) == ContentAt(db, t);
    assert t in Keys(s.deletes) <==> Cell(s.deletes, t).Some?;
  }

  // ----- what is loaded afterwards

  lemma {:induction false} NamedKeeps(s: State, adds: seq<Key>, names: seq<Sid>)
    requires |adds| <= |names|
    requires forall k :: k in adds ==> Cell(s.creates, k).Some?
    ensures var s' := Named(s, adds, names);
            && s'.values == s.values && s'.changes == s.changes && s'.deletes == s.deletes
            && s'.creates.Keys == s.creates.Keys
    decreases |adds|
  {
    if adds != [] {
      var k := adds[0];
      var sec := Cell(s.creates, k).value.(name := names[0]);
      var s' := s.(creates := Put(s.creates, k.0, k.1, sec));
      PutCellAll(s.creates, k.0, k.1, sec);
      forall k' | k' in adds[1..]
        ensures Cell(s'.creates, k').Some?
      {
        assert k' in adds;
      }
      NamedKeeps(s', adds[1..], names[1..]);
    }
  }

  /** Unloading and loading configurations replaces them by what the server has. */
  lemma ReloadedTables(n: State, pkgs: set<Conf>, db: Db)
    requires n.creates.Keys <= pkgs && n.changes.Keys <= pkgs && n.deletes.Keys <= pkgs
    ensures var s' := Loaded(Unloaded(n, pkgs), pkgs, db);
            && s'.creates == map[] && s'.changes == map[] && s'.deletes == map[] && s'.reorder == n.reorder
            && s'.values.Keys == n.values.Keys + pkgs
            && forall conf :: Row(s'.values, conf) == if conf in pkgs then Row(db, conf) else Row(n.values, conf)
  {
  }

  lemma Reloaded(s: State, db: Db, namer: Namer, plan: Plan, names: seq<Sid>, s': State, db': Db)
    requires Saves(s, db, namer, plan, names, s', db')
    ensures s'.creates == map[] && s'.changes == map[] && s'.deletes == map[] && s'.reorder == {}
    ensures forall k: Key :: Row(s'.values, k.0) == if k.0 in Touched(s) then Row(db', k.0) else Row(s.values, k.0)
    ensures s'.values.Keys == s.values.Keys + Touched(s)
  {
    hide Named, BatchCalls, ExecAll, Replies, Reorders, Covers, Cell, OrderCalls, Loaded, Unloaded, Row;
    CoversAdds(s, plan);
    NamedKeeps(s, plan.adds, names);
    ReloadedTables(Named(s, plan.adds, names).(reorder := {}), Touched(s), db');
  }

  lemma CoversAdds(s: State, plan: Plan)
    requires Covers(s, plan)
    ensures forall k :: k in plan.adds ==> k in Keys(s.creates) && Cell(s.creates, k).Some?
    ensures forall k :: k in plan.sets ==> Cell(s.changes, k).Some?
    ensures forall k :: k in plan.dels ==> Cell(s.deletes, k).Some?
    ensures Distinct(plan.adds)
  {
    assert forall k :: k in plan.adds ==> k in Keys(s.creates);
    assert forall k :: k in plan.sets ==> k in Keys(s.changes);
    assert forall k :: k in plan.dels ==> k in Keys(s.deletes);
  }

  // ----- the theorem

  /** What a map holds for a section once the added ones go under their new names. */
  ghost function Committed(e: Eager, adds: seq<Key>, names: seq<Sid>, k: Key): Option<Content>
    requires |adds| <= |names|
  {
    if i :| 0 <= i < |adds| && Targets(adds, names)[i] == k then Lookup(e.live, adds[i])
    else if k in e.made then None
    else Lookup(e.live, k)
  }

  /** In a batch the first replies are those to the adds. */
  lemma FirstReplies(s: State, db: Db, namer: Namer, plan: Plan)
    requires Covers(s, plan)
    ensures |plan.adds| <= |Replies(db, namer, BatchCalls(s, plan))|
    ensures Replies(db, namer, BatchCalls(s, plan))[..|plan.adds|] == Replies(db, namer, AddCalls(s, plan.adds))
  {
    var a, b, c := AddCalls(s, plan.adds), SetCalls(s, plan.sets), DeleteCalls(s, plan.dels);
    ExecConcat(db, namer, a + b, c);
    ExecConcat(db, namer, a, b);
  }

  lemma PlacedPrefix(s: State, db: Db, db': Db, ks: seq<Key>, names: seq<Sid>)
    requires |ks| <= |names| && forall k :: k in ks ==> Cell(s.creates, k).Some?
    requires Placed(s, db, db', ks, names[..|ks|])
    ensures Placed(s, db, db', ks, names)
  {
    assert Targets(ks, names[..|ks|]) == Targets(ks, names);
  }

  /** Nothing added by name is on the server yet, unless its deletion is pending. */
  lemma NewNames(s: State, db: Db, namer: Namer, k: Key)
    requires Ready(s, db, namer) && !Revives(s)
    requires k in Keys(s.creates) && Cell(s.creates, k).value.create != ""
    ensures Cell(db, k) == None
  {
    assert !Hides(s, k) && k.0 in Touched(s);
    assert ContentAt(s.values, k) == ContentAt(db, k);
  }

  /** What the adds leave on the server. */
  lemma AddsOf(s: State, db: Db, namer: Namer, plan: Plan)
    requires Ready(s, db, namer) && !Revives(s) && Covers(s, plan)
    ensures |plan.adds| <= |Replies(db, namer, BatchCalls(s, plan))|
    ensures forall k :: k in plan.adds ==> k in Keys(s.creates) && Cell(s.creates, k).Some?
    ensures Placed(s, db, ExecAll(db, namer, AddCalls(s, plan.adds)), plan.adds, Replies(db, namer, BatchCalls(s, plan)))
  {
    hide Exec, ExecAll, Reply, Replies, BatchCalls, AddCalls, ContentAt, Ready, Revives;
    CoversAdds(s, plan);
    forall k | k in plan.adds && Cell(s.creates, k).value.create != ""
      ensures Cell(db, k) == None
    {
      NewNames(s, db, namer, k);
    }
    FirstReplies(s, db, namer, plan);
    assert KeepsNames(s) && Avoids(s, namer) by {
      ReadyNames(s, db, namer);
    }
    AddsPlaced(s, db, namer, plan.adds);
    PlacedPrefix(s, db, ExecAll(db, namer, AddCalls(s, plan.adds)), plan.adds, Replies(db, namer, BatchCalls(s, plan)));
  }

  lemma ReadyNames(s: State, db: Db, namer: Namer)
    requires Ready(s, db, namer)
    ensures KeepsNames(s) && Avoids(s, namer)
  {
  }

  lemma CommittedTarget(s: State, adds: seq<Key>, names: seq<Sid>, k: Key)
    requires |adds| <= |names| && k in Targets(adds, names) && Distinct(Targets(adds, names))
    ensures exists i :: 0 <= i < |adds| && Targets(adds, names)[i] == k
                        && Committed(View(s), adds, names, k) == ViewAt(s, adds[i])
  {
    hide ViewAt, Cell, View;
    var i :| 0 <= i < |Targets(adds, names)| && Targets(adds, names)[i] == k;
    ViewLookup(s, adds[i]);
  }

  lemma CommittedElsewhere(s: State, adds: seq<Key>, names: seq<Sid>, k: Key)
    requires |adds| <= |names| && k !in Targets(adds, names)
    ensures Committed(View(s), adds, names, k) == if Cell(s.creates, k).Some? then None else ViewAt(s, k)
  {
    hide ViewAt, Cell, View;
    ViewLookup(s, k);
    assert forall i :: 0 <= i < |adds| ==> Targets(adds, names)[i] in Targets(adds, names);
  }

  /** What the server holds after the batch, for configurations that are loaded. */
  lemma CommittedAt(s: State, db: Db, namer: Namer, plan: Plan, k: Key)
    requires Ready(s, db, namer) && !Revives(s) && Covers(s, plan)
    ensures var calls := BatchCalls(s, plan);
            |plan.adds| <= |Replies(db, namer, calls)| &&
            (k.0 in s.values ==>
               ContentAt(ExecAll(db, namer, calls), k) == Committed(View(s), plan.adds, Replies(db, namer, calls), k))
    ensures k.0 !in Touched(s) ==> Committed(View(s), plan.adds, Replies(db, namer, BatchCalls(s, plan)), k) == ViewAt(s, k)
  {
    hide Exec, ExecAll, Reply, Replies, BatchCalls, AddCalls, ContentAt, Committed, Stored, Mentions, Avoids, KeepsNames, Revives, ViewAt, View;
    var names := Replies(db, namer, BatchCalls(s, plan));
    var dbA := ExecAll(db, namer, AddCalls(s, plan.adds));
    AddsOf(s, db, namer, plan);
    BatchStores(s, db, namer, plan, k);
    var ts := Targets(plan.adds, names);
    if k in ts {
      CommittedTarget(s, plan.adds, names, k);
      var i :| 0 <= i < |plan.adds| && ts[i] == k && Committed(View(s), plan.adds, names, k) == ViewAt(s, plan.adds[i]);
      assert plan.adds[i] in plan.adds;
      StoredAtTarget(s, db, namer, plan.adds[i], names[i], ContentAt(dbA, k));
      assert plan.adds[i].0 in Touched(s);
      CreatedView(s, plan.adds[i]);
    } else {
      CommittedElsewhere(s, plan.adds, names, k);
      assert GroundedAt(s, k) && !Hides(s, k);
      StoredIsSeen(s, k);
      assert k.0 in s.values ==> ContentAt(s.values, k) == ContentAt(db, k);
      LoadedView(s, k);
    }
  }

  lemma LoadedView(s: State, k: Key)
    requires !Hides(s, k)
    ensures Seen(Cell(s.values, k), None, Cell(s.changes, k), Cell(s.deletes, k)) ==
            if Cell(s.creates, k).Some? then None else ViewAt(s, k)
  {
  }

  lemma CreatedView(s: State, k: Key)
    requires Cell(s.creates, k).Some?
    ensures ViewAt(s, k) == ContentAt(s.creates, k)
  {
  }

  /** After saving, everything the overlay stood for is loaded, under the new names, if and
      only if no section was added under a name that was also to be deleted. */
  lemma SaveCommits(s: State, db: Db, namer: Namer, plan: Plan, names: seq<Sid>, s': State, db': Db)
    requires Ready(s, db, namer) && Saves(s, db, namer, plan, names, s', db')
    ensures s'.creates == map[] && s'.changes == map[] && s'.deletes == map[] && s'.reorder == {}
    ensures (forall k :: ViewAt(s', k) == Committed(View(s), plan.adds, names, k)) <==> !Revives(s)
    ensures !Revives(s) ==> Synced(s', db')
  {
    hide Exec, ExecAll, Replies, Reorders, Covers, BatchCalls, AddCalls, Named, ContentAt, Committed, ViewAt, View;
    CoversAdds(s, plan);
    Reloaded(s, db, namer, plan, names, s', db');
    OrdersKeepContent(ExecAll(db, namer, BatchCalls(s, plan)), namer, plan.orders);
    forall k: Key
      ensures ViewAt(s', k) == ContentAt(s'.values, k)
      ensures ContentAt(s'.values, k) == ContentAt(if k.0 in Touched(s) then db' else s.values, k)
    {
      PlainView(s', k);
      SameRow(s'.values, if k.0 in Touched(s) then db' else s.values, k);
    }
    if Revives(s) {
      var k :| k in Keys(s.creates) && Cell(s.creates, k).value.create != "" && Cell(s.deletes, k) == Some(Whole);
      RevivedIsLost(s, db, namer, plan, k);
    } else {
      forall k: Key
        ensures ViewAt(s', k) == Committed(View(s), plan.adds, names, k)
        ensures k.0 in s'.values ==> ContentAt(s'.values, k) == ContentAt(db', k)
      {
        CommittedAt(s, db, namer, plan, k);
        UntouchedView(s, k);
      }
    }
  }

  lemma PlainView(s: State, k: Key)
    requires s.creates == map[] && s.changes == map[] && s.deletes == map[]
    ensures ViewAt(s, k) == ContentAt(s.values, k)
  {
  }

  lemma SameRow(a: Table<Section>, b: Table<Section>, k: Key)
    requires Row(a, k.0) == Row(b, k.0)
    ensures ContentAt(a, k) == ContentAt(b, k)
  {
  }

  lemma UntouchedView(s: State, k: Key)
    ensures k.0 !in Touched(s) ==> ViewAt(s, k) == ContentAt(s.values, k)
  {
  }

  /** A section added under a name to be deleted is lost. */
  lemma RevivedIsLost(s: State, db: Db, namer: Namer, plan: Plan, k: Key)
    requires Covers(s, plan) && KeepsNames(s)
    requires k in Keys(s.creates) && Cell(s.creates, k).value.create != "" && Cell(s.deletes, k) == Some(Whole)
    ensures var calls := BatchCalls(s, plan);
            && |plan.adds| <= |Replies(db, namer, calls)|
            && ContentAt(ExecAll(db, namer, calls), k) == None
            && Committed(View(s), plan.adds, Replies(db, namer, calls), k) != None
  {
    hide Exec, ExecAll, BatchCalls, ContentAt, View;
    var names := Replies(db, namer, BatchCalls(s, plan));
    BatchStores(s, db, namer, plan, k);
    FirstReplies(s, db, namer, plan);
    CoversAdds(s, plan);
    assert k in plan.adds by {
      assert Enumerates(plan.adds, Keys(s.creates));
    }
    var i :| 0 <= i < |plan.adds| && plan.adds[i] == k;
    AddReply(s, db, namer, plan.adds, i);
    assert names[i] == names[..|plan.adds|][i] == k.1;
    assert Targets(plan.adds, names)[i] == k;
    forall j | 0 <= j < |plan.adds|
      ensures Lookup(View(s).live, plan.adds[j]).Some?
    {
      assert plan.adds[j] in plan.adds;
      ViewLookup(s, plan.adds[j]);
      CreatedView(s, plan.adds[j]);
    }
  }

  lemma {:induction false} AddReply(s: State, db: Db, namer: Namer, ks: seq<Key>, i: nat)
    requires i < |ks| && forall k :: k in ks ==> Cell(s.creates, k).Some?
    ensures ks[i] in ks
    ensures var name := Cell(s.creates, ks[i]).value.create;
            name != "" ==> Replies(db, namer, AddCalls(s, ks))[i] == name
    decreases |ks|
  {
    hide Exec, Row;
    var calls := AddCalls(s, ks);
    assert ks[i] in ks && ks[0] in ks;
    assert calls[0] == AddCall(s, ks[0]) && calls[1..] == AddCalls(s, ks[1..]);
    if i > 0 {
      AddReply(s, Exec(db, namer, calls[0]), namer, ks[1..], i - 1);
    }
  }

  // ----- a whole transaction

  /** The operation keeps to loaded configurations and to fresh names. */
  predicate Proper(s: State, op: Op) {
    && Fresh(s, op)
    && (op.OpAdd? ==> op.conf in s.values && op.name in {"", op.sid})
    && (op.OpRemove? ==> op.conf in s.values)
  }

  predicate AllProper(s: State, ops: seq<Op>)
    decreases |ops|
  {
    ops == [] || (Proper(s, ops[0]) && AllProper(Do(s, ops[0]), ops[1..]))
  }

  ghost predicate Bound(s: State, db: Db) {
    && KeepsNames(s)
    && Touched(s) <= s.values.Keys
    && Synced(s, db)
  }

  lemma PutKeys<V>(t: Table<V>, conf: Conf, sid: Sid, v: V)
    ensures Put(t, conf, sid, v).Keys == t.Keys + {conf}
    ensures Drop(t, conf, sid).Keys == t.Keys
  {
  }

  /** `s'` has the loaded sections of `s` and reaches at most `conf` besides, if that is loaded. */
  ghost predicate Reaches(s: State, s': State, conf: Conf) {
    && s'.values == s.values
    && forall c :: c in Touched(s') ==> c in Touched(s) || (c == conf && conf in s.values)
  }

  lemma CreatedReaches(s: State, conf: Conf, sid: Sid, opt: Opt, val: Option<Value>)
    requires sid in Row(s.creates, conf)
    ensures Reaches(s, InCreated(s, conf, sid, opt, val), conf)
  {
  }

  lemma ChangeReaches(s: State, conf: Conf, sid: Sid, opt: Opt, val: Value)
    ensures Reaches(s, InChanges(s, conf, sid, opt, val), conf)
  {
  }

  lemma DeletionReaches(s: State, conf: Conf, sid: Sid, opt: Opt)
    ensures Reaches(s, InDeletes(s, conf, sid, opt), conf)
  {
  }

  lemma SetReaches(s: State, conf: Conf, sid: Sid, opt: Opt, val: Option<Value>)
    ensures Reaches(s, WithOption(s, conf, sid, opt, val), conf)
  {
    hide InCreated, InChanges, InDeletes;
    if sid in Row(s.creates, conf) {
      CreatedReaches(s, conf, sid, opt, val);
    }
    if val.Some? {
      ChangeReaches(s, conf, sid, opt, val.value);
    }
    DeletionReaches(s, conf, sid, opt);
  }

  lemma SwapTouches(s: State, conf: Conf, sid: Sid, other: Sid)
    ensures var s' := Swapped(s, conf, sid, other);
            && s'.values.Keys == s.values.Keys && s'.creates.Keys == s.creates.Keys
            && s'.changes == s.changes && s'.deletes == s.deletes
  {
    hide WithIndex;
    var s1, s2 := GotSection(s, conf, sid), GotSection(s, conf, other);
    if s1.Some? && s2.Some? {
      IndexTouches(s, conf, sid, s2.value.index);
      IndexKeeps(s, conf, sid, s2.value.index, other);
      IndexTouches(WithIndex(s, conf, sid, s2.value.index), conf, other, s1.value.index);
    }
  }

  lemma IndexTouches(s: State, conf: Conf, sid: Sid, index: int)
    requires GotSection(s, conf, sid).Some?
    ensures var s' := WithIndex(s, conf, sid, index);
            && s'.values.Keys == s.values.Keys && s'.creates.Keys == s.creates.Keys
            && s'.changes == s.changes && s'.deletes == s.deletes
  {
  }

  lemma StepTouches(s: State, op: Op)
    requires Proper(s, op) && Touched(s) <= s.values.Keys
    ensures Touched(Do(s, op)) <= Do(s, op).values.Keys == s.values.Keys
  {
    hide Renumbered, WithOption, Swapped, Put, Drop, Fresh;
    match op {
      case OpAdd(conf, typ, name, sid) =>
        PutKeys(s.creates, conf, sid, Section(typ, sid, name, name == "", 1000 + s.newidx, map[]));
      case OpRemove(conf, sid) =>
        RemoveTouches(s, conf, sid);
      case OpSet(conf, sid, opt, val) => SetReaches(s, conf, sid, opt, val);
      case OpSwap(conf, sid, other) => SwapTouches(s, conf, sid, other);
      case OpSections(conf, listing) => RenumberedTouches(s, conf, listing, 0);
    }
  }

  lemma RemoveTouches(s: State, conf: Conf, sid: Sid)
    ensures var s' := Removed(s, conf, sid);
            s'.values == s.values && Touched(s') <= Touched(s) + {conf}
  {
  }

  lemma {:induction false} RenumberedTouches(s: State, conf: Conf, sa: seq<Entry>, i: nat)
    requires i <= |sa|
    ensures var s' := Renumbered(s, conf, sa, i);
            s' == s.(creates := s'.creates) && s'.creates.Keys == s.creates.Keys
    decreases |sa| - i
  {
    if i < |sa| {
      var n := Row(s.creates, conf);
      var s' := if sa[i].made && sa[i].sid in n
                then s.(creates := Put(s.creates, conf, sa[i].sid, n[sa[i].sid].(index := i))) else s;
      RenumberedTouches(s', conf, sa, i + 1);
    }
  }

  /** No operation changes what loaded sections hold, or the name an added one asked for. */
  lemma StepLeaves(s: State, op: Op, k: Key)
    requires Proper(s, op)
    ensures ContentAt(Do(s, op).values, k) == ContentAt(s.values, k)
    ensures var n, n' := Cell(s.creates, k), Cell(Do(s, op).creates, k);
            n'.Some? ==> n'.value.create in {"", k.1} || (n.Some? && n'.value.create == n.value.create)
  {
    hide Put, Drop, Renumbered, Swapped;
    match op {
      case OpAdd(conf, typ, name, sid) =>
        PutCells(s.creates, conf, sid, k);
      case OpRemove(conf, sid) =>
        DropCell(s.creates, conf, sid, k);
      case OpSet(conf, sid, opt, val) =>
        PutCells(s.creates, conf, sid, k);
      case OpSwap(conf, sid, other) =>
        SwappedAt(s, conf, sid, other, k);
      case OpSections(conf, listing) =>
        RenumberedAt(s, conf, listing, 0, k);
    }
  }

  lemma StepBound(s: State, op: Op, db: Db)
    requires Proper(s, op) && Bound(s, db)
    ensures Bound(Do(s, op), db)
  {
    hide Do, ContentAt;
    StepTouches(s, op);
    forall k: Key
      ensures ContentAt(Do(s, op).values, k) == ContentAt(s.values, k)
      ensures k in Keys(Do(s, op).creates) ==> Cell(Do(s, op).creates, k).value.create in {"", k.1}
    {
      StepLeaves(s, op, k);
      assert k in Keys(s.creates) <==> Cell(s.creates, k).Some?;
    }
  }

  lemma {:induction false} RunBound(s: State, ops: seq<Op>, db: Db)
    requires AllProper(s, ops) && Bound(s, db)
    ensures Bound(DoAll(s, ops), db) && AllFresh(s, ops)
    decreases |ops|
  {
    hide Do, Bound;
    if ops != [] {
      StepBound(s, ops[0], db);
      RunBound(Do(s, ops[0]), ops[1..], db);
    }
  }

  /** Load, do anything proper, save: the map updated at once by every operation is what is
      loaded in the end, up to the new names, if and only if no deleted name was added again. */
  lemma TransactionCommits(s0: State, ops: seq<Op>, db: Db, namer: Namer, plan: Plan, names: seq<Sid>, s': State, db': Db)
    requires s0.creates == map[] && s0.changes == map[] && s0.deletes == map[] && Synced(s0, db)
    requires AllProper(s0, ops) && Avoids(DoAll(s0, ops), namer)
    requires Saves(DoAll(s0, ops), db, namer, plan, names, s', db')
    ensures (forall k :: Lookup(View(s').live, k) == Committed(EagerDoAll(View(s0), ops), plan.adds, names, k))
            <==> !Revives(DoAll(s0, ops))
    ensures !Revives(DoAll(s0, ops)) ==> Synced(s', db')
  {
    hide DoAll, EagerDoAll, Committed, View, Saves, Avoids, Revives;
    var s := DoAll(s0, ops);
    assert Touched(s0) == {};
    assert Bound(s0, db) && Grounded(s0) && Coherent(s0);
    RunBound(s0, ops, db);
    FreshRun(s0, ops);
    RunRefines(s0, ops);
    assert Ready(s, db, namer);
    SaveCommits(s, db, namer, plan, names, s', db');
    forall k
      ensures Lookup(View(s').live, k) == ViewAt(s', k)
    {
      ViewLookup(s', k);
    }
  }

  /** Load a section, remove it and add one under its name: a proper run that is not committed. */
  lemma RevivingRun(conf: Conf, typ: string, sec: Section) returns (s0: State, ops: seq<Op>, db: Db)
    ensures s0.creates == map[] && s0.changes == map[] && s0.deletes == map[] && Synced(s0, db)
    ensures AllProper(s0, ops) && Revives(DoAll(s0, ops))
  {
    hide Row, Put, Drop, Cell;
    var k, e1, e2 := (conf, "a"), OpRemove(conf, "a"), OpAdd(conf, typ, "a", "a");
    db := map[conf := map["a" := sec]];
    s0, ops := Empty.(values := db), [e1, e2];
    assert [e1, e2][1..] == [e2] && [e2][1..] == [];
    var s1 := Removed(s0, conf, "a");
    var s2 := Added(s1, conf, typ, "a", "a");
    NoRow(conf);
    PutCells(s0.deletes, conf, "a", k);
    PutCells(s1.creates, conf, "a", k);
    assert Cell(s2.deletes, k) == Some(Whole) && Cell(s2.creates, k).Some?;
    assert k in Keys(s2.creates);
    assert DoAll(s0, ops) == DoAll(s1, [e2]) == DoAll(s2, []) == s2;
    assert AllProper(s2, []) && AllProper(s1, [e2]);
  }

  lemma NoRow(conf: Conf)
    ensures Row(Empty.creates, conf) == map[]
  {
  }
}
