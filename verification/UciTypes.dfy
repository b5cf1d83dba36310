/**
 Configurations, sections and options, and the tables that hold them.
 */
module UciTypes {
  import opened Options

  type Conf = string
  type Sid = string
  type Opt = string

  datatype Value = Text(text: string) | List(items: seq<string>) | Num(n: int) | Flag(b: bool)

  type Opts = map<Opt, Value>

  /** A section. The members whose names begin with a dot are fields of their own; `create`
      is the name asked for when the section was added, empty for none. */
  datatype Section = Section(typ: string, name: Sid, create: string, anonymous: bool, index: int, opts: Opts)

  /** What a section holds: its type and its options. */
  datatype Content = Content(typ: string, opts: Opts)

  function ContentOf(sec: Section): Content {
    Content(sec.typ, sec.opts)
  }

  datatype Deletion = Whole | Only(list: seq<Opt>)

  type Table<V> = map<Conf, map<Sid, V>>

  type Key = (Conf, Sid)

  function Row<V>(t: Table<V>, conf: Conf): map<Sid, V> {
    if conf in t then t[conf] else map[]
  }

  function Put<V>(t: Table<V>, conf: Conf, sid: Sid, v: V): Table<V> {
    t[conf := Row(t, conf)[sid := v]]
  }

  function Drop<V>(t: Table<V>, conf: Conf, sid: Sid): Table<V> {
    if conf in t then t[conf := t[conf] - {sid}] else t
  }

  function Lookup<K, V>(m: map<K, V>, k: K): Option<V> {
    if k in m then Some(m[k]) else None
  }

  function Cell<V>(t: Table<V>, k: Key): Option<V> {
    Lookup(Row(t, k.0), k.1)
  }

  function Keys<V>(t: Table<V>): (r: set<Key>)
    ensures forall k :: k in r <==> Cell(t, k).Some?
  {
    set conf, sid | conf in t && sid in t[conf] :: (conf, sid)
  }

  lemma PutCell<V>(t: Table<V>, conf: Conf, sid: Sid, v: V, k: Key)
    ensures Cell(Put(t, conf, sid, v), k) == if k == (conf, sid) then Some(v) else Cell(t, k)
  {
  }

  lemma PutCells<V(!new)>(t: Table<V>, conf: Conf, sid: Sid, k: Key)
    ensures forall v :: Cell(Put(t, conf, sid, v), k) == if k == (conf, sid) then Some(v) else Cell(t, k)
  {
    forall v {
      PutCell(t, conf, sid, v, k);
    }
  }

  lemma DropCell<V>(t: Table<V>, conf: Conf, sid: Sid, k: Key)
    ensures Cell(Drop(t, conf, sid), k) == if k == (conf, sid) then None else Cell(t, k)
  {
  }

  ghost predicate Distinct<T>(a: seq<T>) {
    forall i, j :: 0 <= i < j < |a| ==> a[i] != a[j]
  }

  /** All of `s`, once each, in some order. */
  ghost predicate Enumerates<T(!new)>(a: seq<T>, s: set<T>) {
    Distinct(a) && forall e :: e in a <==> e in s
  }

  /** The order a `for in` loop goes through an object is left open. */
  method Enumerate<T(==,!new)>(s: set<T>) returns (a: seq<T>)
    ensures Enumerates(a, s)
  {
    a := [];
    var todo := s;
    while todo != {}
      invariant todo <= s
      invariant Enumerates(a, s - todo)
      decreases |todo|
    {
      var e :| e in todo;
      a := a + [e];
      todo := todo - {e};
    }
  }
}
