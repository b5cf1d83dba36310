/**
 The router's side of a batch of uci calls, as far as saving needs it: configurations
 as maps of sections, changed by one call after the other.
 */
module UciServer {
  import opened Options
  import opened UciTypes

  datatype Call =
    | CallAdd(conf: Conf, typ: string, name: string, opts: Opts)
    | CallSet(conf: Conf, sid: Sid, opts: Opts)
    | CallDelete(conf: Conf, sid: Sid, list: Option<seq<Opt>>)
    | CallOrder(conf: Conf, sids: seq<Sid>)

  type Db = Table<Section>

  /** The names the server makes up for anonymous sections, given those in use. */
  type Namer = set<Sid> -> Sid

  function Minus(opts: Opts, list: seq<Opt>): Opts {
    map o | o in opts && o !in list :: opts[o]
  }

  function IndexOf(sids: seq<Sid>, sid: Sid): (i: nat)
    requires sid in sids
    ensures i < |sids| && sids[i] == sid
  {
    if sids[0] == sid then 0 else 1 + IndexOf(sids[1..], sid)
  }

  /** The reply to a call: the name of the new section for `add`, nothing of interest otherwise. */
  function Reply(db: Db, namer: Namer, c: Call): Sid {
    if !c.CallAdd? then "" else if c.name != "" then c.name else namer(Row(db, c.conf).Keys)
  }

  function Exec(db: Db, namer: Namer, c: Call): Db {
    var row := Row(db, c.conf);
    match c
    case CallAdd(conf, typ, name, opts) =>
      var sid := Reply(db, namer, c);
      var sec := if sid in row then row[sid].(typ := typ, opts := row[sid].opts + opts)
                 else Section(typ, sid, "", name == "", |row|, opts);
      Put(db, conf, sid, sec)
    case CallSet(conf, sid, opts) =>
      if sid in row then Put(db, conf, sid, row[sid].(opts := row[sid].opts + opts)) else db
    case CallDelete(conf, sid, list) =>
      if sid !in row then db
      else if list.Some? then Put(db, conf, sid, row[sid].(opts := Minus(row[sid].opts, list.value)))
      else Drop(db, conf, sid)
    case CallOrder(conf, sids) =>
      if conf !in db then db
      else db[conf := map sid | sid in row ::
                        if sid in sids then row[sid].(index := IndexOf(sids, sid)) else row[sid]]
  }

  function ExecAll(db: Db, namer: Namer, calls: seq<Call>): Db
    decreases |calls|
  {
    if calls == [] then db else ExecAll(Exec(db, namer, calls[0]), namer, calls[1..])
  }

  function Replies(db: Db, namer: Namer, calls: seq<Call>): (r: seq<Sid>)
    ensures |r| == |calls|
    decreases |calls|
  {
    if calls == [] then []
    else [Reply(db, namer, calls[0])] + Replies(Exec(db, namer, calls[0]), namer, calls[1..])
  }

  lemma {:induction false} ExecConcat(db: Db, namer: Namer, a: seq<Call>, b: seq<Call>)
    ensures ExecAll(db, namer, a + b) == ExecAll(ExecAll(db, namer, a), namer, b)
    ensures Replies(db, namer, a + b) == Replies(db, namer, a) + Replies(ExecAll(db, namer, a), namer, b)
    decreases |a|
  {
    if a == [] {
      assert a + b == b;
    } else {
      assert (a + b)[1..] == a[1..] + b;
      ExecConcat(Exec(db, namer, a[0]), namer, a[1..], b);
    }
  }

  class Server {
    var db: Db
    const namer: Namer

    constructor (db: Db, namer: Namer)
      ensures this.db == db && this.namer == namer
    {
      this.db, this.namer := db, namer;
    }

    /** A batch is carried out call by call, and answered in order. */
    method Batch(calls: seq<Call>) returns (replies: seq<Sid>)
      modifies this
      ensures db == ExecAll(old(db), namer, calls)
      ensures replies == Replies(old(db), namer, calls)
    {
      hide Exec, Reply;
      replies := [];
      for i := 0 to |calls|
        invariant ExecAll(old(db), namer, calls) == ExecAll(db, namer, calls[i..])
        invariant Replies(old(db), namer, calls) == replies + Replies(db, namer, calls[i..])
      {
        assert calls[i..][0] == calls[i] && calls[i..][1..] == calls[i + 1..];
        replies := replies + [Reply(db, namer, calls[i])];
        db := Exec(db, namer, calls[i]);
      }
      assert calls[|calls|..] == [];
    }
  }
}
