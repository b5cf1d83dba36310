/**
 Batched JSON-RPC calls of luci2-base/htdocs/luci2/rpc.js: calls get ids, a table
 remembers for each id how its reply is to be treated, and replies are matched through
 the table whenever they arrive.

 `Step` is what the object does; class `Rpc` is the object. `PlainStep` pairs calls and
 replies directly, without ids and table, and `RunRefines` shows that nobody can tell
 the difference, whatever the order of calls, batches, flushes and deliveries.
 */
module Rpc {
  import opened Options

  datatype Json =
    | Null
    | Bool(b: bool)
    | Number(n: int)
    | Str(s: string)
    | Arr(items: seq<Json>)
    | Obj(members: map<string, Json>)

  datatype Tag = UndefinedTag | NullTag | BooleanTag | NumberTag | StringTag | ArrayTag | ObjectTag

  /** Object.prototype.toString; an absent value is undefined. */
  function TagOf(v: Option<Json>): Tag {
    match v
    case None => UndefinedTag
    case Some(Null) => NullTag
    case Some(Bool(_)) => BooleanTag
    case Some(Number(_)) => NumberTag
    case Some(Str(_)) => StringTag
    case Some(Arr(_)) => ArrayTag
    case Some(Obj(_)) => ObjectTag
  }

  type Filter = Option<Json> -> Option<Json>

  datatype Expect = Expect(key: string, default: Json)

  /** How a call was declared, with its arguments. */
  datatype Spec = Spec(path: string, action: string, params: map<string, Json>,
                       wants: Option<Expect>, filter: Option<Filter>)

  /** An entry of the table of requests. */
  datatype Request = Request(wants: Option<Expect>, filter: Option<Filter>, params: map<string, Json>, index: Option<nat>)

  datatype Message = Message(id: nat, path: string, action: string, params: map<string, Json>)

  datatype Result<+T> = Ok(value: T) | Throws

  // ----- what becomes of one reply

  function MemberOf(m: Json, key: string): Option<Json> {
    if m.Obj? && key in m.members then Some(m.members[key]) else None
  }

  /** The payload of a well-formed reply with status 0. */
  function Payload(msg: Json): Option<Json> {
    var result := MemberOf(msg, "result");
    if MemberOf(msg, "jsonrpc") == Some(Str("2.0")) && result.Some? && result.value.Arr?
       && result.value.items != [] && result.value.items[0] == Number(0)
    then Some(if |result.value.items| > 1 then result.value.items[1] else result.value.items[0])
    else None
  }

  /** The value handed to the filter. Members of null, and replies that are null, throw. */
  function Expected(wants: Option<Expect>, msg: Json): Result<Option<Json>> {
    var ret := Payload(msg);
    if msg.Null? then Throws
    else if wants.None? then Ok(ret)
    else
      var e := wants.value;
      if ret.Some? && e.key != "" && ret.value.Null? then Throws
      else
        var picked := if ret.Some? && e.key != "" then MemberOf(ret.value, e.key) else ret;
        Ok(if picked.None? || TagOf(picked) != TagOf(Some(e.default)) then Some(e.default) else picked)
  }

  function Treated(wants: Option<Expect>, filter: Option<Filter>, msg: Json): Result<Option<Json>> {
    match Expected(wants, msg)
    case Throws => Throws
    case Ok(ret) => Ok(if filter.Some? then filter.value(ret) else ret)
  }

  /** With an expectation the value before filtering has the type of the default. */
  lemma ExpectedTag(wants: Option<Expect>, msg: Json)
    requires wants.Some? && Expected(wants, msg).Ok?
    ensures TagOf(Expected(wants, msg).value) == TagOf(Some(wants.value.default))
    ensures Payload(msg) == None ==> Expected(wants, msg).value == Some(wants.value.default)
  {
    var r := Expected(wants, msg).value;
    assert r == Some(wants.value.default) || TagOf(r) == TagOf(Some(wants.value.default));
  }

  // ----- the replies there are, written out

  /** A version 2.0 reply with these items as its result. */
  predicate IsReply(msg: Json, items: seq<Json>) {
    && msg.Obj? && "jsonrpc" in msg.members && msg.members["jsonrpc"] == Str("2.0")
    && "result" in msg.members && msg.members["result"] == Arr(items)
  }

  predicate SameKind(a: Json, b: Json) {
    match a
    case Null => b.Null?
    case Bool(_) => b.Bool?
    case Number(_) => b.Number?
    case Str(_) => b.Str?
    case Arr(_) => b.Arr?
    case Obj(_) => b.Obj?
  }

  /** With status 0 the caller gets the item after the status, or the member of it that it expects, or its
      default where that is of another kind or is missing. */
  lemma Succeeds(msg: Json, x: Json, rest: seq<Json>, key: string, default: Json)
    requires IsReply(msg, [Number(0), x] + rest)
    ensures Treated(None, None, msg) == Ok(Some(x))
    ensures Treated(Some(Expect("", default)), None, msg) == Ok(Some(if SameKind(x, default) then x else default))
    ensures key != "" ==>
              && (x == Null ==> Treated(Some(Expect(key, default)), None, msg) == Throws)
              && (x != Null ==> Treated(Some(Expect(key, default)), None, msg) == Ok(Some(
                    if x.Obj? && key in x.members && SameKind(x.members[key], default) then x.members[key] else default)))
  {
    var items := [Number(0), x] + rest;
    assert items[0] == Number(0) && items[1] == x;
    assert Payload(msg) == Some(x);
  }

  /** With nothing after the status the caller gets the status, or its default unless that is a number. */
  lemma SucceedsEmpty(msg: Json, key: string, default: Json)
    requires IsReply(msg, [Number(0)])
    ensures Treated(None, None, msg) == Ok(Some(Number(0)))
    ensures Treated(Some(Expect(key, default)), None, msg) ==
            Ok(Some(if key == "" && default.Number? then Number(0) else default))
  {
    assert Payload(msg) == Some(Number(0));
  }

  /** With another status, version or shape the caller gets nothing, or its default; a reply that is null
      makes the callback throw. */
  lemma Fails(msg: Json, key: string, default: Json)
    requires forall items :: IsReply(msg, items) ==> items == [] || items[0] != Number(0)
    ensures msg == Null ==> Treated(None, None, msg) == Treated(Some(Expect(key, default)), None, msg) == Throws
    ensures msg != Null ==> Treated(None, None, msg) == Ok(None)
    ensures msg != Null ==> Treated(Some(Expect(key, default)), None, msg) == Ok(Some(default))
  {
    if msg.Obj? && "result" in msg.members && msg.members["result"].Arr? {
      assert IsReply(msg, msg.members["result"].items) || MemberOf(msg, "jsonrpc") != Some(Str("2.0"));
    }
    assert Payload(msg) == None;
  }

  /** A filter is handed what the caller would get without it, and the caller gets what the filter makes of it. */
  lemma Filtered(wants: Option<Expect>, f: Filter, msg: Json)
    ensures Treated(wants, Some(f), msg).Throws? <==> Treated(wants, None, msg).Throws?
    ensures Treated(wants, None, msg).Ok? ==>
              Treated(wants, Some(f), msg) == Ok(f(Treated(wants, None, msg).value))
  {
    hide Expected;
    var expected := Expected(wants, msg);
  }

  // ----- the object

  /** A message or a batch of messages that has been sent and not been answered. */
  datatype Flight = Listing(id: nat) | Single(msg: Message) | Multi(msgs: seq<Message>)

  datatype State = State(id: nat, batch: Option<seq<Message>>, requests: map<nat, Request>, wire: seq<Flight>)

  const Initial := State(1, None, map[], [])

  /** What a caller is given: the array of a batch, or the value of a single call. */
  datatype Data = Many(items: seq<Option<Json>>) | One(item: Option<Json>)

  datatype Event =
    | Call(spec: Spec)
    | CallList
    | Batch
    | Flush
    | Deliver(k: nat, reply: Json)

  datatype Output = Quiet | EmptyBatch | Answer(data: Data) | Exception | ListAnswer(list: seq<Json>)

  function Called(s: State, spec: Spec): State {
    var index := if s.batch.Some? then Some(|s.batch.value|) else None;
    var msg := Message(s.id, spec.path, spec.action, spec.params);
    var s' := s.(id := s.id + 1, requests := s.requests[s.id := Request(spec.wants, spec.filter, spec.params, index)]);
    if s.batch.Some? then s'.(batch := Some(s.batch.value + [msg])) else s'.(wire := s.wire + [Single(msg)])
  }

  /** `data[index] = ret`, holes being undefined; without an index the value takes the place of the array. */
  function Store(data: Data, index: Option<nat>, ret: Option<Json>): Data {
    if index.None? || data.One? then One(ret)
    else if index.value < |data.items| then Many(data.items[index.value := ret])
    else Many(data.items + seq(index.value - |data.items|, _ => None) + [ret])
  }

  /** The replies from the `i`-th on, matched through the table. */
  function Matched(requests: map<nat, Request>, msgs: seq<Message>, replies: seq<Json>, i: nat, data: Data)
      : (map<nat, Request>, Result<Data>)
    requires i <= |replies|
    decreases |replies| - i
  {
    if i == |replies| then (requests, Ok(data))
    else if i >= |msgs| || msgs[i].id !in requests then (requests, Throws)
    else
      var req := requests[msgs[i].id];
      match Treated(req.wants, req.filter, replies[i])
      case Throws => (requests, Throws)
      case Ok(ret) => Matched(requests - {msgs[i].id}, msgs, replies, i + 1, Store(data, req.index, ret))
  }

  function Decimal(n: nat): string {
    (if n < 10 then "" else Decimal(n / 10)) + [('0' as int + n % 10) as char]
  }

  /** What the callback of a batch iterates over: the items of an array, the characters of a string, and of an
      object that has a length the members 0, 1, 2 and so on. A missing one is treated like anything else that
      is no object. Nothing else has a length. */
  function RepliesOf(reply: Json): seq<Json> {
    match reply
    case Arr(items) => items
    case Str(s) => seq(|s|, i requires 0 <= i < |s| => Str([s[i]]))
    case Obj(members) =>
      var length := if "length" in members && members["length"].Number? then members["length"].n else 0;
      seq(if length < 0 then 0 else length, i requires 0 <= i =>
        var item := MemberOf(reply, Decimal(i));
        if item.Some? then item.value else Bool(false))
    case _ => []
  }

  function ListOf(reply: Json): seq<Json> {
    var id, result := MemberOf(reply, "id"), MemberOf(reply, "result");
    if MemberOf(reply, "jsonrpc") == Some(Str("2.0"))
       && id.Some? && id.value !in {Null, Bool(false), Number(0), Str("")}
       && result.Some? && result.value.Arr?
    then result.value.items else []
  }

  /** The result array of a version 2.0 reply with an id, and the empty list otherwise. */
  lemma ListReplies(msg: Json, items: seq<Json>, id: Json)
    ensures IsReply(msg, items) && "id" in msg.members && msg.members["id"] == id && SomeId(id) ==> ListOf(msg) == items
    ensures (forall list :: !IsReply(msg, list)) ==> ListOf(msg) == []
    ensures msg.Obj? && ("id" !in msg.members || !SomeId(msg.members["id"])) ==> ListOf(msg) == []
  {
    if msg.Obj? && "result" in msg.members && msg.members["result"].Arr? && MemberOf(msg, "jsonrpc") == Some(Str("2.0")) {
      assert IsReply(msg, msg.members["result"].items);
    }
  }

  /** What JavaScript takes for true. */
  predicate SomeId(id: Json) {
    match id
    case Null => false
    case Bool(b) => b
    case Number(n) => n != 0
    case Str(s) => |s| > 0
    case Arr(_) => true
    case Obj(_) => true
  }

  /** Numbers in decimal, as members of an object are named. */
  lemma Decimals(n: nat, d: nat)
    requires d < 10
    ensures Decimal(d) == ["0123456789"[d]]
    ensures n > 0 ==> Decimal(10 * n + d) == Decimal(n) + ["0123456789"[d]]
  {
    if n > 0 {
      assert (10 * n + d) / 10 == n && (10 * n + d) % 10 == d;
    }
  }

  /** The replies to a batch are the items of an array, and the numbered members of an object of that length. */
  lemma RepliesAre(reply: Json, i: nat)
    ensures reply.Arr? ==> RepliesOf(reply) == reply.items
    ensures reply.Obj? && i < |RepliesOf(reply)| && Decimal(i) in reply.members ==>
              RepliesOf(reply)[i] == reply.members[Decimal(i)]
    ensures reply.Obj? && "length" in reply.members && reply.members["length"] == Number(i) ==> |RepliesOf(reply)| == i
    ensures reply.Obj? && "length" !in reply.members ==> RepliesOf(reply) == []
    ensures reply.Str? ==> |RepliesOf(reply)| == |reply.s|
    ensures reply.Str? && i < |reply.s| ==> RepliesOf(reply)[i] == Str([reply.s[i]])
  {
    hide Decimal;
  }

  function OutputOf(r: Result<Data>): Output {
    if r.Ok? then Answer(r.value) else Exception
  }

  function Delivered(s: State, k: nat, reply: Json): (State, Output)
    requires k < |s.wire|
  {
    var rest := s.(wire := s.wire[..k] + s.wire[k + 1..]);
    match s.wire[k]
    case Listing(_) => (rest, if reply.Null? then Exception else ListAnswer(ListOf(reply)))
    case Single(msg) =>
      var (requests, r) := Matched(s.requests, [msg], [reply], 0, Many([]));
      (rest.(requests := requests), OutputOf(r))
    case Multi(msgs) =>
      if reply.Null? then (rest, Exception)
      else
        var (requests, r) := Matched(s.requests, msgs, RepliesOf(reply), 0, Many([]));
        (rest.(requests := requests), OutputOf(r))
  }

  function Step(s: State, e: Event): (State, Output) {
    match e
    case Call(spec) => (Called(s, spec), Quiet)
    case CallList => (s.(id := s.id + 1, wire := s.wire + [Listing(s.id)]), Quiet)
    case Batch => (if s.batch.Some? then s else s.(batch := Some([])), Quiet)
    case Flush =>
      if s.batch.None? then (s, EmptyBatch)
      else (s.(batch := None, wire := s.wire + [Multi(s.batch.value)]), Quiet)
    case Deliver(k, reply) => if k < |s.wire| then Delivered(s, k, reply) else (s, Quiet)
  }

  class Rpc {
    var id: nat
    var batch: Option<seq<Message>>
    var requests: map<nat, Request>
    /** What has been sent and not been answered. */
    var wire: seq<Flight>

    function St(): State
      reads this
    {
      State(id, batch, requests, wire)
    }

    constructor ()
      ensures St() == Initial
    {
      id, batch, requests, wire := 1, None, map[], [];
    }

    method StartBatch()
      modifies this
      ensures (St(), Quiet) == Step(old(St()), Batch)
    {
      if batch.None? {
        batch := Some([]);
      }
    }

    method FlushBatch() returns (out: Output)
      modifies this
      ensures (St(), out) == Step(old(St()), Flush)
    {
      if batch.None? { return EmptyBatch; }
      var req := batch.value;
      batch := None;
      wire := wire + [Multi(req)];
      out := Quiet;
    }

    /** The function that `declare` returns. */
    method Invoke(spec: Spec)
      modifies this
      ensures (St(), Quiet) == Step(old(St()), Call(spec))
    {
      var req := Request(spec.wants, spec.filter, spec.params, None);
      var msg := Message(id, spec.path, spec.action, spec.params);
      requests := requests[id := req];
      id := id + 1;
      if batch.Some? {
        ghost var stored := requests;
        batch := Some(batch.value + [msg]);
        req := req.(index := Some(|batch.value| - 1));
        requests := requests[msg.id := req];
        assert requests == (stored - {msg.id})[msg.id := req] == old(requests)[msg.id := req];
        return;
      }
      wire := wire + [Single(msg)];
    }

    method ListObjects()
      modifies this
      ensures (St(), Quiet) == Step(old(St()), CallList)
    {
      wire := wire + [Listing(id)];
      id := id + 1;
    }

    /** _call_cb on the messages sent and their replies. */
    method CallCb(msgs: seq<Message>, replies: seq<Json>) returns (r: Result<Data>)
      modifies this`requests
      ensures (requests, r) == Matched(old(requests), msgs, replies, 0, Many([]))
    {
      var data := Many([]);
      for i := 0 to |replies|
        invariant Matched(old(requests), msgs, replies, 0, Many([])) == Matched(requests, msgs, replies, i, data)
      {
        if i >= |msgs| || msgs[i].id !in requests { return Throws; }
        var req := requests[msgs[i].id];
        var ret := Treated(req.wants, req.filter, replies[i]);
        if ret.Throws? { return Throws; }
        data := Store(data, req.index, ret.value);
        requests := requests - {msgs[i].id};
      }
      r := Ok(data);
    }

    /** The answer to what was sent `k`-th among the unanswered arrives. */
    method Receive(k: nat, reply: Json) returns (out: Output)
      requires k < |wire|
      modifies this
      ensures (St(), out) == Step(old(St()), Deliver(k, reply))
    {
      var flight := wire[k];
      wire := wire[..k] + wire[k + 1..];
      match flight {
        case Listing(_) =>
          out := if reply.Null? then Exception else ListAnswer(ListOf(reply));
        case Single(msg) =>
          var r := CallCb([msg], [reply]);
          out := OutputOf(r);
        case Multi(msgs) =>
          if reply.Null? { return Exception; }
          var r := CallCb(msgs, RepliesOf(reply));
          out := OutputOf(r);
      }
    }
  }
}
