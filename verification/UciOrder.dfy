/**
 The order of sections. Indexes are 0, 1, 2, ... for loaded sections and 1000 and more
 for added ones until a listing gives them their positions. As long as every addition is
 followed by a listing and nothing is removed, listings agree with one another, swapping
 exchanges two positions, and reordering sends the order that is listed.
 */
module UciOrder {
  import opened Options
  import opened UciTypes
  import opened UciServer
  import opened Uci
  import opened UciOverlay

  ghost predicate Increasing(sa: seq<Entry>) {
    forall i, j :: 0 <= i < j < |sa| ==> sa[i].sec.index < sa[j].sec.index
  }

  /** There is one way to put entries of different indexes in order. */
  lemma {:induction false} OneOrder(sa: seq<Entry>, sb: seq<Entry>, n: nat)
    requires Increasing(sa) && Ordered(sb) && Distinct(sb)
    requires forall e :: e in sa <==> e in sb
    requires n <= |sa|
    ensures n <= |sb| && sa[..n] == sb[..n]
  {
    if n > 0 {
      OneOrder(sa, sb, n - 1);
      var e := sa[n - 1];
      assert e in sb;
      var p :| 0 <= p < |sb| && sb[p] == e;
      assert forall i :: 0 <= i < n - 1 ==> sb[i] == sb[..n - 1][i] == sa[..n - 1][i] == sa[i];
      assert n - 1 <= p;
      assert sb[n - 1] in sa;
      var q :| 0 <= q < |sa| && sa[q] == sb[n - 1];
      assert n - 1 <= q;
      assert sa[q].sec.index <= e.sec.index;
      assert q == n - 1;
      assert sa[..n] == sa[..n - 1] + [e] && sb[..n] == sb[..n - 1] + [sb[n - 1]];
    }
  }

  lemma Repeats(sa: seq<Entry>, sb: seq<Entry>)
    requires |sa| < |sb| && sa == sb[..|sa|] && forall e :: e in sb ==> e in sa
    ensures !Distinct(sb)
  {
    assert sb[|sa|] in sb;
    var q :| 0 <= q < |sa| && sa[q] == sb[|sa|];
    assert sb[q] == sb[|sa|];
  }

  lemma SameOrder(sa: seq<Entry>, sb: seq<Entry>)
    requires Increasing(sa) && Ordered(sb) && Distinct(sb)
    requires forall e :: e in sa <==> e in sb
    ensures sa == sb
  {
    OneOrder(sa, sb, |sa|);
    assert sa[..|sa|] == sa;
    assert forall q :: 0 <= q < |sa| ==> sa[q] == sb[q];
    if |sa| < |sb| {
      Repeats(sa, sb);
    }
    assert sb[..|sb|] == sb;
  }

  /** The line that a section has in a listing. */
  function EntryOf(s: State, conf: Conf, sid: Sid): Option<Entry> {
    var n := Row(s.creates, conf);
    if sid in n then Some(Entry(true, sid, n[sid]))
    else if BaseLive(s, (conf, sid)) then Some(LoadedEntry(s, conf, sid))
    else None
  }

  /** The live sections of a loaded configuration, none hidden, have the indexes 0, 1, 2, ... in this order. */
  ghost predicate Arranged(s: State, conf: Conf, ids: seq<Sid>) {
    && conf in s.values
    && (forall sid :: !Hides(s, (conf, sid)))
    && Distinct(ids)
    && (forall sid :: sid in ids <==> EntryOf(s, conf, sid).Some?)
    && forall i :: 0 <= i < |ids| ==> EntryOf(s, conf, ids[i]).value.sec.index == i
  }

  function Entries(s: State, conf: Conf, ids: seq<Sid>): seq<Entry>
    requires forall i :: 0 <= i < |ids| ==> EntryOf(s, conf, ids[i]).Some?
  {
    seq(|ids|, i requires 0 <= i < |ids| => EntryOf(s, conf, ids[i]).value)
  }

  lemma CandidateIsEntry(s: State, conf: Conf, e: Entry)
    requires conf in s.values && !Hides(s, (conf, e.sid))
    ensures IsCandidate(s, conf, "", e) <==> EntryOf(s, conf, e.sid) == Some(e)
  {
  }

  /** The listing of an arranged configuration is its arrangement, every time. */
  lemma ArrangedListing(s: State, conf: Conf, ids: seq<Sid>, sb: seq<Entry>)
    requires Arranged(s, conf, ids) && Lists(s, conf, "", sb)
    ensures sb == Entries(s, conf, ids)
  {
    hide IsCandidate, EntryOf;
    var sa := Entries(s, conf, ids);
    forall e
      ensures e in sa <==> e in sb
    {
      CandidateIsEntry(s, conf, e);
      ListedIds(s, conf, ids, e);
    }
    SameOrder(sa, sb);
  }

  lemma ListedIds(s: State, conf: Conf, ids: seq<Sid>, e: Entry)
    requires forall sid :: sid in ids <==> EntryOf(s, conf, sid).Some?
    requires forall i :: 0 <= i < |ids| ==> EntryOf(s, conf, ids[i]).Some?
    ensures e in Entries(s, conf, ids) <==> EntryOf(s, conf, e.sid) == Some(e)
  {
    var sa := Entries(s, conf, ids);
    forall i | 0 <= i < |ids|
      ensures sa[i].sid == ids[i]
    {
    }
    if EntryOf(s, conf, e.sid) == Some(e) {
      assert e.sid in ids;
      var i :| 0 <= i < |ids| && ids[i] == e.sid;
      assert sa[i] == e;
    }
  }

  /** Entries that have their positions as indexes keep them. */
  lemma {:induction false} InPlace(s: State, conf: Conf, sa: seq<Entry>, i: nat, n: nat)
    requires i <= n <= |sa|
    requires forall p :: i <= p < n && sa[p].made && sa[p].sid in Row(s.creates, conf) ==>
                           Row(s.creates, conf)[sa[p].sid].index == p
    ensures Renumbered(s, conf, sa, i) == Renumbered(s, conf, sa, n)
    decreases n - i
  {
    if i < n {
      var row, sid := Row(s.creates, conf), sa[i].sid;
      if sa[i].made && sid in row {
        assert row[sid].(index := i) == row[sid];
        assert row[sid := row[sid]] == row;
        assert Put(s.creates, conf, sid, row[sid]) == s.creates;
      }
      InPlace(s, conf, sa, i + 1, n);
    }
  }

  /** A listing of an arranged configuration changes nothing. */
  lemma ListingChangesNothing(s: State, conf: Conf, ids: seq<Sid>)
    requires Arranged(s, conf, ids)
    ensures Renumbered(s, conf, Entries(s, conf, ids), 0) == s
  {
    InPlace(s, conf, Entries(s, conf, ids), 0, |ids|);
  }

  /** Listings of an arranged configuration agree, and leave it as it is. */
  lemma ListingsAgree(s: State, conf: Conf, ids: seq<Sid>, sa: seq<Entry>, sb: seq<Entry>)
    requires Arranged(s, conf, ids) && Lists(s, conf, "", sa)
    requires Lists(Renumbered(s, conf, sa, 0), conf, "", sb)
    ensures Renumbered(s, conf, sa, 0) == s && sa == sb == Positioned(sa)
    ensures |sa| == |ids| && forall i :: 0 <= i < |ids| ==> sa[i].sid == ids[i]
  {
    ArrangedListing(s, conf, ids, sa);
    ListingChangesNothing(s, conf, ids);
    ArrangedListing(s, conf, ids, sb);
  }

  function Exchanged<T>(a: seq<T>, i: nat, j: nat): seq<T>
    requires i < |a| && j < |a|
  {
    a[i := a[j]][j := a[i]]
  }

  lemma IndexEntry(s: State, conf: Conf, sid: Sid, index: int, other: Sid)
    requires GotSection(s, conf, sid).Some? && !Hides(s, (conf, other))
    ensures var s' := WithIndex(s, conf, sid, index);
            && !Hides(s', (conf, other))
            && (conf in s.values ==> conf in s'.values)
            && EntryOf(s', conf, other) ==
               match EntryOf(s, conf, other)
               case None => None
               case Some(e) => Some(if other == sid then e.(sec := e.sec.(index := index)) else e)
  {
    hide Put;
    PutCells(s.creates, conf, sid, (conf, other));
    PutCells(s.values, conf, sid, (conf, other));
    RowOfPut(s.creates, conf, sid);
    RowOfPut(s.values, conf, sid);
  }

  lemma RowOfPut(t: Table<Section>, conf: Conf, sid: Sid)
    ensures forall v :: Row(Put(t, conf, sid, v), conf) == Row(t, conf)[sid := v]
    ensures forall v :: conf in Put(t, conf, sid, v)
  {
  }

  lemma EntrySection(s: State, conf: Conf, sid: Sid)
    requires EntryOf(s, conf, sid).Some?
    ensures GotSection(s, conf, sid).Some?
    ensures GotSection(s, conf, sid).value.index == EntryOf(s, conf, sid).value.sec.index
  {
  }

  /** Swapping exchanges two positions of the arrangement, and nothing else. */
  lemma SwapExchanges(s: State, conf: Conf, ids: seq<Sid>, i: nat, j: nat)
    requires Arranged(s, conf, ids) && i < |ids| && j < |ids|
    ensures var s' := Swapped(s, conf, ids[i], ids[j]);
            Arranged(s', conf, Exchanged(ids, i, j)) && s'.reorder == s.reorder + {conf}
  {
    hide EntryOf, WithIndex, GotSection, Hides;
    var a, b, ids' := ids[i], ids[j], Exchanged(ids, i, j);
    EntrySection(s, conf, a);
    EntrySection(s, conf, b);
    var s1 := WithIndex(s, conf, a, j);
    var s' := Swapped(s, conf, a, b);
    forall sid
      ensures !Hides(s1, (conf, sid)) && !Hides(s', (conf, sid)) && conf in s'.values
      ensures EntryOf(s', conf, sid) ==
              match EntryOf(s, conf, sid)
              case None => None
              case Some(e) => Some(if sid == b then e.(sec := e.sec.(index := i))
                                   else if sid == a then e.(sec := e.sec.(index := j)) else e)
    {
      IndexEntry(s, conf, a, j, sid);
      IndexEntry(s, conf, a, j, b);
      IndexKeepsEntry(s, conf, a, j, b);
      IndexEntry(s1, conf, b, i, sid);
      ReorderAside(WithIndex(s1, conf, b, i), s.reorder + {conf}, conf, sid);
    }
    forall sid
      ensures sid in ids' <==> sid in ids
    {
      ExchangedMembers(ids, i, j, sid);
    }
  }

  lemma ReorderAside(s: State, reorder: set<Conf>, conf: Conf, sid: Sid)
    ensures var s' := s.(reorder := reorder);
            EntryOf(s', conf, sid) == EntryOf(s, conf, sid) && (Hides(s', (conf, sid)) <==> Hides(s, (conf, sid)))
  {
  }

  lemma IndexKeepsEntry(s: State, conf: Conf, sid: Sid, index: int, other: Sid)
    requires GotSection(s, conf, sid).Some?
    ensures GotSection(WithIndex(s, conf, sid, index), conf, other).Some? <==> GotSection(s, conf, other).Some?
    ensures WithIndex(s, conf, sid, index).reorder == s.reorder
  {
  }

  lemma ExchangedMembers<T>(a: seq<T>, i: nat, j: nat, e: T)
    requires i < |a| && j < |a|
    ensures e in Exchanged(a, i, j) <==> e in a
    ensures Distinct(a) ==> Distinct(Exchanged(a, i, j))
  {
    var b := Exchanged(a, i, j);
    assert b[i] == a[j] && b[j] == a[i];
    if e in a {
      var k :| 0 <= k < |a| && a[k] == e;
      assert k != i && k != j ==> b[k] == e;
    }
  }

  // ----- adding

  predicate Unused(s: State, conf: Conf, sid: Sid) {
    sid !in Row(s.creates, conf) && sid !in Row(s.values, conf)
  }

  lemma AddedEntry(s: State, conf: Conf, typ: string, name: string, sid: Sid, other: Sid)
    requires Unused(s, conf, sid) && !Hides(s, (conf, other))
    ensures var s' := Added(s, conf, typ, name, sid);
            && !Hides(s', (conf, other))
            && (if other != sid then EntryOf(s', conf, other) == EntryOf(s, conf, other)
                else EntryOf(s, conf, sid) == None && sid in Row(s'.creates, conf)
                     && EntryOf(s', conf, sid) == Some(Entry(true, sid, Row(s'.creates, conf)[sid]))
                     && Row(s'.creates, conf)[sid].index == 1000 + s.newidx)
  {
    hide Put;
    RowOfPut(s.creates, conf, sid);
    PutCells(s.creates, conf, sid, (conf, other));
  }

  /** An added section is listed last. */
  lemma AddedListing(s: State, conf: Conf, ids: seq<Sid>, typ: string, name: string, sid: Sid, sb: seq<Entry>)
    requires Arranged(s, conf, ids) && |ids| <= 1000 + s.newidx && Unused(s, conf, sid)
    requires Lists(Added(s, conf, typ, name, sid), conf, "", sb)
    ensures var s' := Added(s, conf, typ, name, sid);
            && EntryOf(s', conf, sid).Some?
            && sb == Entries(s, conf, ids) + [EntryOf(s', conf, sid).value]
  {
    hide EntryOf, IsCandidate, Hides, Added;
    var s' := Added(s, conf, typ, name, sid);
    AddedEntry(s, conf, typ, name, sid, sid);
    var e := EntryOf(s', conf, sid).value;
    var sa := Entries(s, conf, ids) + [e];
    assert conf in s'.values by {
      AddedKeeps(s, conf, typ, name, sid);
    }
    forall e'
      ensures e' in sa <==> e' in sb
    {
      AddedEntry(s, conf, typ, name, sid, e'.sid);
      CandidateIsEntry(s', conf, e');
      ListedIds(s, conf, ids, e');
    }
    SameOrder(sa, sb);
  }

  lemma AddedKeeps(s: State, conf: Conf, typ: string, name: string, sid: Sid)
    ensures var s' := Added(s, conf, typ, name, sid);
            s'.values == s.values && s'.newidx == s.newidx + 1
  {
  }

  /** Adding a section and listing puts it at the end of the arrangement. */
  lemma AddAppends(s: State, conf: Conf, ids: seq<Sid>, typ: string, name: string, sid: Sid, sb: seq<Entry>)
    requires Arranged(s, conf, ids) && |ids| <= 1000 + s.newidx && Unused(s, conf, sid)
    requires Lists(Added(s, conf, typ, name, sid), conf, "", sb)
    ensures var s' := Renumbered(Added(s, conf, typ, name, sid), conf, sb, 0);
            Arranged(s', conf, ids + [sid]) && s'.newidx == s.newidx + 1
  {
    hide EntryOf, Lists, Hides, Added, Put, WithIndex;
    var s1, n := Added(s, conf, typ, name, sid), |ids|;
    AddedListing(s, conf, ids, typ, name, sid, sb);
    AddedEntry(s, conf, typ, name, sid, sid);
    AddedKeeps(s, conf, typ, name, sid);
    forall other | other != sid
      ensures EntryOf(s1, conf, other) == EntryOf(s, conf, other)
    {
      AddedEntry(s, conf, typ, name, sid, other);
    }
    RenumbersLast(s, s1, conf, ids, sid, sb);
    var s' := WithIndex(s1, conf, sid, n);
    forall other
      ensures !Hides(s', (conf, other)) && conf in s'.values
      ensures other != sid ==> EntryOf(s', conf, other) == EntryOf(s, conf, other)
      ensures EntryOf(s', conf, sid).Some? && EntryOf(s', conf, sid).value.sec.index == n
      ensures EntryOf(s, conf, sid) == None
    {
      AddedEntry(s, conf, typ, name, sid, other);
      IndexEntry(s1, conf, sid, n, other);
      IndexEntry(s1, conf, sid, n, sid);
    }
    assert sid !in ids;
  }

  lemma RenumbersLast(s: State, s1: State, conf: Conf, ids: seq<Sid>, sid: Sid, sb: seq<Entry>)
    requires Arranged(s, conf, ids) && sid !in ids
    requires sid in Row(s1.creates, conf)
    requires forall other :: other != sid ==> EntryOf(s1, conf, other) == EntryOf(s, conf, other)
    requires sb == Entries(s, conf, ids) + [Entry(true, sid, Row(s1.creates, conf)[sid])]
    ensures Renumbered(s1, conf, sb, 0) == WithIndex(s1, conf, sid, |ids|)
    ensures WithIndex(s1, conf, sid, |ids|).newidx == s1.newidx
  {
    InPlace(s1, conf, sb, 0, |ids|);
    var s' := WithIndex(s1, conf, sid, |ids|);
    assert Renumbered(s', conf, sb, |ids| + 1) == s';
  }

  // ----- reordering

  /** No loaded section is removed. */
  ghost predicate Complete(s: State, conf: Conf) {
    forall sid :: sid in Row(s.values, conf) ==> BaseLive(s, (conf, sid))
  }

  /** The section object of a line of a listing. */
  function ObjectOf(s: State, conf: Conf, sid: Sid): Option<Entry> {
    match GotSection(s, conf, sid)
    case None => None
    case Some(sec) => Some(Entry(sid in Row(s.creates, conf), sid, sec))
  }

  lemma ObjectIsEntry(s: State, conf: Conf, e: Entry)
    requires Complete(s, conf) && !Hides(s, (conf, e.sid))
    ensures IsObject(s, conf, e) <==> ObjectOf(s, conf, e.sid) == Some(e)
    ensures EntryOf(s, conf, e.sid).Some? <==> ObjectOf(s, conf, e.sid).Some?
    ensures ObjectOf(s, conf, e.sid).Some? ==>
              var o := ObjectOf(s, conf, e.sid).value;
              o.sid == e.sid && o.sec.index == EntryOf(s, conf, e.sid).value.sec.index
  {
    assert e.sid in Row(s.values, conf) ==> BaseLive(s, (conf, e.sid));
  }

  /** Reordering sends the names of the sections in the order that is listed. */
  lemma OrderIsListed(s: State, conf: Conf, ids: seq<Sid>, sa: seq<Entry>)
    requires Arranged(s, conf, ids) && Complete(s, conf) && Objects(s, conf, sa)
    ensures |sa| == |Names(sa)| == |ids|
    ensures forall i :: 0 <= i < |ids| ==> sa[i].sid == ids[i] && ObjectOf(s, conf, ids[i]) == Some(sa[i])
  {
    hide EntryOf, ObjectOf, IsObject, Hides, Complete;
    forall sid
      ensures EntryOf(s, conf, sid).Some? <==> ObjectOf(s, conf, sid).Some?
      ensures ObjectOf(s, conf, sid).Some? ==>
                var o := ObjectOf(s, conf, sid).value;
                o.sid == sid && o.sec.index == EntryOf(s, conf, sid).value.sec.index
    {
      ObjectIsEntry(s, conf, Entry(false, sid, Section("", sid, "", false, 0, map[])));
    }
    var so := seq(|ids|, i requires 0 <= i < |ids| => ObjectOf(s, conf, ids[i]).value);
    forall e
      ensures e in so <==> e in sa
    {
      ObjectIsEntry(s, conf, e);
      if ObjectOf(s, conf, e.sid) == Some(e) {
        assert e.sid in ids;
        var i :| 0 <= i < |ids| && ids[i] == e.sid;
        assert so[i] == e;
      }
    }
    SameOrder(so, sa);
  }

  // ----- whole runs

  /** Adding a section and listing, swapping two sections, or just listing. */
  datatype Act =
    | AddAndList(typ: string, name: string, sid: Sid, listing: seq<Entry>)
    | SwapTwo(i: nat, j: nat)
    | List(listing: seq<Entry>)

  function Act1(s: State, conf: Conf, ids: seq<Sid>, a: Act): State {
    match a
    case AddAndList(typ, name, sid, listing) => Renumbered(Added(s, conf, typ, name, sid), conf, listing, 0)
    case SwapTwo(i, j) => if i < |ids| && j < |ids| then Swapped(s, conf, ids[i], ids[j]) else s
    case List(listing) => Renumbered(s, conf, listing, 0)
  }

  function Order1(ids: seq<Sid>, a: Act): seq<Sid> {
    match a
    case AddAndList(_, _, sid, _) => ids + [sid]
    case SwapTwo(i, j) => if i < |ids| && j < |ids| then Exchanged(ids, i, j) else ids
    case List(_) => ids
  }

  /** The listing of an act is a listing of the state it is made in, and added names are new. */
  ghost predicate Possible(s: State, conf: Conf, a: Act) {
    match a
    case AddAndList(typ, name, sid, listing) =>
      Unused(s, conf, sid) && Lists(Added(s, conf, typ, name, sid), conf, "", listing)
    case SwapTwo(_, _) => true
    case List(listing) => Lists(s, conf, "", listing)
  }

  ghost predicate AllPossible(s: State, conf: Conf, ids: seq<Sid>, acts: seq<Act>)
    decreases |acts|
  {
    acts == [] ||
    (Possible(s, conf, acts[0]) && AllPossible(Act1(s, conf, ids, acts[0]), conf, Order1(ids, acts[0]), acts[1..]))
  }

  function ActAll(s: State, conf: Conf, ids: seq<Sid>, acts: seq<Act>): State
    decreases |acts|
  {
    if acts == [] then s else ActAll(Act1(s, conf, ids, acts[0]), conf, Order1(ids, acts[0]), acts[1..])
  }

  function OrderAll(ids: seq<Sid>, acts: seq<Act>): seq<Sid>
    decreases |acts|
  {
    if acts == [] then ids else OrderAll(Order1(ids, acts[0]), acts[1..])
  }

  lemma ActArranges(s: State, conf: Conf, ids: seq<Sid>, a: Act)
    requires Arranged(s, conf, ids) && |ids| <= 1000 + s.newidx && Possible(s, conf, a)
    ensures var s', ids' := Act1(s, conf, ids, a), Order1(ids, a);
            Arranged(s', conf, ids') && |ids'| <= 1000 + s'.newidx
  {
    hide Arranged, Lists, Added, Renumbered, Swapped, Unused;
    match a {
      case AddAndList(typ, name, sid, listing) => AddAppends(s, conf, ids, typ, name, sid, listing);
      case SwapTwo(i, j) =>
        if i < |ids| && j < |ids| {
          SwapExchanges(s, conf, ids, i, j);
          SwapKeepsCount(s, conf, ids[i], ids[j]);
        }
      case List(listing) =>
        ArrangedListing(s, conf, ids, listing);
        ListingChangesNothing(s, conf, ids);
    }
  }

  lemma SwapKeepsCount(s: State, conf: Conf, sid1: Sid, sid2: Sid)
    ensures Swapped(s, conf, sid1, sid2).newidx == s.newidx
  {
  }

  /** Over whole runs the live sections stay numbered from 0 in the order that the acts make. */
  lemma {:induction false} RunArranges(s: State, conf: Conf, ids: seq<Sid>, acts: seq<Act>)
    requires Arranged(s, conf, ids) && |ids| <= 1000 + s.newidx && AllPossible(s, conf, ids, acts)
    ensures Arranged(ActAll(s, conf, ids, acts), conf, OrderAll(ids, acts))
    decreases |acts|
  {
    hide Arranged, Possible, Act1, Order1;
    if acts != [] {
      ActArranges(s, conf, ids, acts[0]);
      RunArranges(Act1(s, conf, ids, acts[0]), conf, Order1(ids, acts[0]), acts[1..]);
    }
  }
}
