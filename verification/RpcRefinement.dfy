/**
 Ids and the table of requests do what pairing calls and replies directly would do.
 */
module RpcRefinement {
  import opened Options
  import opened Rpc

  // ----- the plain machine

  datatype PlainFlight = PlainListing | PlainSingle(spec: Spec) | PlainMulti(specs: seq<Spec>)

  datatype Plain = Plain(batch: Option<seq<Spec>>, wire: seq<PlainFlight>)

  const PlainInitial := Plain(None, [])

  /** The k-th reply is treated as the k-th call asks, up to the first one that throws. */
  function Answers(specs: seq<Spec>, replies: seq<Json>, n: nat): Result<seq<Option<Json>>>
    requires n <= |replies|
  {
    if n == 0 then Ok([])
    else
      var before := Answers(specs, replies, n - 1);
      if before.Throws? || n - 1 >= |specs| then Throws
      else
        match Treated(specs[n - 1].wants, specs[n - 1].filter, replies[n - 1])
        case Throws => Throws
        case Ok(ret) => Ok(before.value + [ret])
  }

  function PlainOutput(f: PlainFlight, reply: Json): Output {
    match f
    case PlainListing => if reply.Null? then Exception else ListAnswer(ListOf(reply))
    case PlainSingle(spec) =>
      (match Treated(spec.wants, spec.filter, reply)
       case Throws => Exception
       case Ok(ret) => Answer(One(ret)))
    case PlainMulti(specs) =>
      if reply.Null? then Exception
      else
        match Answers(specs, RepliesOf(reply), |RepliesOf(reply)|)
        case Throws => Exception
        case Ok(data) => Answer(Many(data))
  }

  function PlainStep(p: Plain, e: Event): (Plain, Output) {
    match e
    case Call(spec) =>
      (if p.batch.Some? then p.(batch := Some(p.batch.value + [spec])) else p.(wire := p.wire + [PlainSingle(spec)]), Quiet)
    case CallList => (p.(wire := p.wire + [PlainListing]), Quiet)
    case Batch => (if p.batch.Some? then p else p.(batch := Some([])), Quiet)
    case Flush =>
      if p.batch.None? then (p, EmptyBatch)
      else (p.(batch := None, wire := p.wire + [PlainMulti(p.batch.value)]), Quiet)
    case Deliver(k, reply) =>
      if k < |p.wire| then (p.(wire := p.wire[..k] + p.wire[k + 1..]), PlainOutput(p.wire[k], reply)) else (p, Quiet)
  }

  // ----- how the two are related

  function Ids(msgs: seq<Message>): set<nat> {
    set i | 0 <= i < |msgs| :: msgs[i].id
  }

  function FlightIds(f: Flight): set<nat> {
    match f
    case Listing(id) => {id}
    case Single(msg) => {msg.id}
    case Multi(msgs) => Ids(msgs)
  }

  predicate Unlike(msgs: seq<Message>) {
    forall i, j :: 0 <= i < j < |msgs| ==> msgs[i].id != msgs[j].id
  }

  /** The message is that of the call, and the table says under its id how to treat the reply. */
  ghost predicate Stands(requests: map<nat, Request>, msg: Message, spec: Spec, index: Option<nat>) {
    && msg.path == spec.path && msg.action == spec.action && msg.params == spec.params
    && msg.id in requests && requests[msg.id] == Request(spec.wants, spec.filter, spec.params, index)
  }

  /** The messages of a batch are those of the calls, and stand in the table in their places. */
  ghost predicate BatchStands(requests: map<nat, Request>, msgs: seq<Message>, specs: seq<Spec>) {
    && Unlike(msgs) && |msgs| == |specs|
    && forall i :: 0 <= i < |msgs| ==> Stands(requests, msgs[i], specs[i], Some(i))
  }

  ghost predicate FlightStands(requests: map<nat, Request>, f: Flight, p: PlainFlight) {
    match f
    case Listing(id) => p.PlainListing? && id !in requests
    case Single(msg) => p.PlainSingle? && Stands(requests, msg, p.spec, None)
    case Multi(msgs) => p.PlainMulti? && BatchStands(requests, msgs, p.specs)
  }

  function BatchIds(s: State): set<nat> {
    if s.batch.Some? then Ids(s.batch.value) else {}
  }

  ghost predicate Below(ids: set<nat>, n: nat) {
    forall id :: id in ids ==> id < n
  }

  /** Ids never collide, and were all given out. */
  ghost predicate IdsApart(s: State) {
    && (forall a, b :: 0 <= a < b < |s.wire| ==> FlightIds(s.wire[a]) !! FlightIds(s.wire[b]))
    && (forall a :: 0 <= a < |s.wire| ==> FlightIds(s.wire[a]) !! BatchIds(s) && Below(FlightIds(s.wire[a]), s.id))
    && Below(BatchIds(s), s.id)
    && Below(s.requests.Keys, s.id)
  }

  /** One more flight, with ids that no other flight and no longer the batch has. */
  lemma SentApart(s: State, s': State, f: Flight)
    requires IdsApart(s) && s'.wire == s.wire + [f] && s.id <= s'.id
    requires forall a :: 0 <= a < |s.wire| ==> FlightIds(s.wire[a]) !! FlightIds(f)
    requires BatchIds(s') <= BatchIds(s) && BatchIds(s') !! FlightIds(f)
    requires Below(FlightIds(f), s'.id) && Below(s'.requests.Keys, s'.id)
    ensures IdsApart(s')
  {
    hide FlightIds, BatchIds;
    forall a | 0 <= a < |s'.wire|
      ensures FlightIds(s'.wire[a]) !! BatchIds(s') && Below(FlightIds(s'.wire[a]), s'.id)
    {
      if a < |s.wire| {
        assert s'.wire[a] == s.wire[a];
      }
    }
    forall a, b | 0 <= a < b < |s'.wire|
      ensures FlightIds(s'.wire[a]) !! FlightIds(s'.wire[b])
    {
      assert s'.wire[a] == s.wire[a];
      if b < |s.wire| {
        assert s'.wire[b] == s.wire[b];
      }
    }
  }

  /** The next id is new. */
  lemma NextIdNew(s: State)
    requires IdsApart(s)
    ensures s.id !in BatchIds(s) && s.id !in s.requests
    ensures forall a :: 0 <= a < |s.wire| ==> s.id !in FlightIds(s.wire[a])
  {
    forall a | 0 <= a < |s.wire|
      ensures s.id !in FlightIds(s.wire[a])
    {
      assert Below(FlightIds(s.wire[a]), s.id);
    }
  }

  ghost predicate Related(s: State, p: Plain) {
    && IdsApart(s)
    && |s.wire| == |p.wire|
    && (forall a :: 0 <= a < |s.wire| ==> FlightStands(s.requests, s.wire[a], p.wire[a]))
    && s.batch.Some? == p.batch.Some?
    && (s.batch.Some? ==> BatchStands(s.requests, s.batch.value, p.batch.value))
  }

  // ----- deliveries

  /** Matching through the table finds what direct pairing finds, and takes only these ids out. */
  lemma {:induction false} MatchedAnswers(requests: map<nat, Request>, msgs: seq<Message>, specs: seq<Spec>,
                                          replies: seq<Json>, i: nat, data: seq<Option<Json>>)
    requires i <= |replies| && |data| == i
    requires Unlike(msgs) && |msgs| == |specs|
    requires forall j :: i <= j < |msgs| ==> Stands(requests, msgs[j], specs[j], Some(j))
    requires Answers(specs, replies, i) == Ok(data)
    ensures var (rest, r) := Matched(requests, msgs, replies, i, Many(data));
            var a := Answers(specs, replies, |replies|);
            && r == (if a.Ok? then Ok(Many(a.value)) else Throws)
            && (forall id :: id !in Ids(msgs) ==> (id in rest <==> id in requests) && (id in rest ==> rest[id] == requests[id]))
            && (forall id :: id in rest ==> id in requests)
            && (forall j :: i <= j < |msgs| ==>
                  (msgs[j].id in rest <==> !(j < |replies| && Answers(specs, replies, j + 1).Ok?)))
    decreases |replies| - i
  {
    hide Treated, Ids, Store;
    if i == |replies| {
    } else if i >= |msgs| {
      ThrowsOn(specs, replies, i + 1, |replies|);
    } else {
      var req := requests[msgs[i].id];
      assert Stands(requests, msgs[i], specs[i], Some(i));
      match Treated(req.wants, req.filter, replies[i]) {
        case Throws =>
          forall n | i + 1 <= n <= |replies|
            ensures Answers(specs, replies, n) == Throws
          {
            ThrowsOn(specs, replies, i + 1, n);
          }
        case Ok(ret) =>
          var left := requests - {msgs[i].id};
          MatchedAnswers(left, msgs, specs, replies, i + 1, data + [ret]);
          StoreNext(data, ret);
          IdIn(msgs, i);
      }
    }
  }

  lemma StoreNext(data: seq<Option<Json>>, ret: Option<Json>)
    ensures Store(Many(data), Some(|data|), ret) == Many(data + [ret])
  {
    assert data + seq(0, _ => None) + [ret] == data + [ret];
  }

  lemma IdIn(msgs: seq<Message>, i: nat)
    requires i < |msgs|
    ensures msgs[i].id in Ids(msgs)
  {
  }

  lemma CutAt<T>(w: seq<T>, k: nat, a: nat)
    requires k < |w| && a < |w| - 1
    ensures (w[..k] + w[k + 1..])[a] == w[if a < k then a else a + 1]
  {
  }

  lemma {:induction false} ThrowsOn(specs: seq<Spec>, replies: seq<Json>, n: nat, m: nat)
    requires n <= m <= |replies| && Answers(specs, replies, n) == Throws
    ensures Answers(specs, replies, m) == Throws
    decreases m
  {
    if n < m {
      ThrowsOn(specs, replies, n, m - 1);
    }
  }

  lemma StandsLonger(requests: map<nat, Request>, id: nat, req: Request, f: Flight, p: PlainFlight)
    requires FlightStands(requests, f, p) && id !in FlightIds(f)
    ensures FlightStands(requests[id := req], f, p)
  {
    if f.Multi? {
      BatchStandsLonger(requests, id, req, f.msgs, p.specs);
    }
  }

  lemma BatchStandsLonger(requests: map<nat, Request>, id: nat, req: Request, msgs: seq<Message>, specs: seq<Spec>)
    requires BatchStands(requests, msgs, specs) && id !in Ids(msgs)
    ensures BatchStands(requests[id := req], msgs, specs)
  {
    forall i | 0 <= i < |msgs|
      ensures Stands(requests[id := req], msgs[i], specs[i], Some(i))
    {
      assert msgs[i].id in Ids(msgs);
      assert Stands(requests, msgs[i], specs[i], Some(i));
    }
  }

  /** The rest of the table still stands for other flights when ids have been taken out of it. */
  lemma StandsStill(requests: map<nat, Request>, rest: map<nat, Request>, f: Flight, p: PlainFlight)
    requires FlightStands(requests, f, p)
    requires forall id :: id in FlightIds(f) ==> (id in rest <==> id in requests) && (id in rest ==> rest[id] == requests[id])
    ensures FlightStands(rest, f, p)
  {
    match f {
      case Listing(id) =>
      case Single(msg) =>
      case Multi(msgs) => BatchStandsStill(requests, rest, msgs, p.specs);
    }
  }

  lemma BatchStandsStill(requests: map<nat, Request>, rest: map<nat, Request>, msgs: seq<Message>, specs: seq<Spec>)
    requires BatchStands(requests, msgs, specs)
    requires forall id :: id in Ids(msgs) ==> (id in rest <==> id in requests) && (id in rest ==> rest[id] == requests[id])
    ensures BatchStands(rest, msgs, specs)
  {
    forall i | 0 <= i < |msgs|
      ensures Stands(rest, msgs[i], specs[i], Some(i))
    {
      assert msgs[i].id in Ids(msgs);
      assert Stands(requests, msgs[i], specs[i], Some(i));
    }
  }

  lemma CallRefines(s: State, p: Plain, spec: Spec)
    requires Related(s, p)
    ensures Related(Called(s, spec), PlainStep(p, Call(spec)).0)
  {
    hide FlightStands, BatchStands, Ids;
    var s', p' := Called(s, spec), PlainStep(p, Call(spec)).0;
    var req, msg := s'.requests[s.id], Message(s.id, spec.path, spec.action, spec.params);
    NextIdNew(s);
    forall a | 0 <= a < |s.wire|
      ensures FlightStands(s'.requests, s.wire[a], p.wire[a])
    {
      StandsLonger(s.requests, s.id, req, s.wire[a], p.wire[a]);
    }
    if s.batch.Some? {
      var msgs, specs := s.batch.value, p.batch.value;
      assert BatchIds(s) == Ids(msgs);
      BatchStandsLonger(s.requests, s.id, req, msgs, specs);
      BatchGrows(s'.requests, msgs, specs, msg, spec);
      IdsSnoc(msgs, msg);
      assert BatchIds(s') == BatchIds(s) + {s.id};
      CollectedApart(s, s');
    } else {
      SingleStands(s'.requests, msg, spec);
      SentApart(s, s', Single(msg));
      assert forall a :: 0 <= a < |s.wire| ==> s'.wire[a] == s.wire[a];
    }
  }

  lemma CollectedApart(s: State, s': State)
    requires IdsApart(s) && s'.wire == s.wire && s'.id == s.id + 1
    requires BatchIds(s') == BatchIds(s) + {s.id} && s'.requests.Keys == s.requests.Keys + {s.id}
    ensures IdsApart(s')
  {
    hide FlightIds, BatchIds;
    NextIdNew(s);
    forall a | 0 <= a < |s'.wire|
      ensures FlightIds(s'.wire[a]) !! BatchIds(s') && Below(FlightIds(s'.wire[a]), s'.id)
    {
      assert Below(FlightIds(s.wire[a]), s.id);
    }
  }

  lemma SingleStands(requests: map<nat, Request>, msg: Message, spec: Spec)
    requires Stands(requests, msg, spec, None)
    ensures FlightStands(requests, Single(msg), PlainSingle(spec))
  {
  }

  lemma IdsSnoc(msgs: seq<Message>, msg: Message)
    ensures Ids(msgs + [msg]) == Ids(msgs) + {msg.id}
  {
    var all := msgs + [msg];
    assert all[|msgs|] == msg;
    forall id | id in Ids(msgs)
      ensures id in Ids(all)
    {
      var i :| 0 <= i < |msgs| && msgs[i].id == id;
      assert all[i].id == id;
    }
  }

  lemma BatchGrows(requests: map<nat, Request>, msgs: seq<Message>, specs: seq<Spec>, msg: Message, spec: Spec)
    requires BatchStands(requests, msgs, specs) && msg.id !in Ids(msgs)
    requires Stands(requests, msg, spec, Some(|msgs|))
    ensures BatchStands(requests, msgs + [msg], specs + [spec])
  {
    assert forall i :: 0 <= i < |msgs| ==> msgs[i].id in Ids(msgs);
  }

  lemma DeliverRefines(s: State, p: Plain, k: nat, reply: Json)
    requires Related(s, p) && k < |s.wire|
    ensures var (s', o), (p', o') := Delivered(s, k, reply), PlainStep(p, Deliver(k, reply));
            Related(s', p') && o == o'
  {
    hide FlightStands, BatchStands, Delivered, PlainOutput;
    var (s', o) := Delivered(s, k, reply);
    DeliveredAt(s, p, k, reply);
    var w, pw := s.wire[..k] + s.wire[k + 1..], p.wire[..k] + p.wire[k + 1..];
    CutWire(s, s', k);
    forall a | 0 <= a < |w|
      ensures FlightStands(s'.requests, w[a], pw[a])
    {
      CutAt(s.wire, k, a);
      CutAt(p.wire, k, a);
      StandsStill(s.requests, s'.requests, w[a], pw[a]);
    }
    if s.batch.Some? {
      BatchStandsStill(s.requests, s'.requests, s.batch.value, p.batch.value);
    }
  }

  lemma CutWire(s: State, s': State, k: nat)
    requires IdsApart(s) && k < |s.wire|
    requires s' == s.(wire := s.wire[..k] + s.wire[k + 1..], requests := s'.requests)
    requires s'.requests.Keys <= s.requests.Keys
    ensures IdsApart(s')
    ensures forall a :: 0 <= a < |s'.wire| ==> FlightIds(s'.wire[a]) !! FlightIds(s.wire[k])
  {
    hide FlightIds, BatchIds;
    assert forall a :: 0 <= a < |s'.wire| ==> s'.wire[a] == s.wire[if a < k then a else a + 1];
    assert BatchIds(s') == BatchIds(s) by {
      SameBatch(s, s');
    }
  }

  lemma SameBatch(s: State, s': State)
    requires s'.batch == s.batch
    ensures BatchIds(s') == BatchIds(s)
  {
  }

  /** Delivering takes ids of this flight out of the table and outputs what the plain machine does. */
  lemma DeliveredAt(s: State, p: Plain, k: nat, reply: Json)
    requires Related(s, p) && k < |s.wire|
    ensures var (s', o) := Delivered(s, k, reply);
            && o == PlainOutput(p.wire[k], reply)
            && s' == s.(wire := s.wire[..k] + s.wire[k + 1..], requests := s'.requests)
            && (forall id :: id !in FlightIds(s.wire[k]) ==>
                  (id in s'.requests <==> id in s.requests) && (id in s'.requests ==> s'.requests[id] == s.requests[id]))
            && (forall id :: id in s'.requests ==> id in s.requests)
  {
    match s.wire[k] {
      case Listing(id) =>
      case Single(msg) => SingleAnswers(s.requests, msg, p.wire[k].spec, reply);
      case Multi(msgs) =>
        if !reply.Null? {
          MatchedAnswers(s.requests, msgs, p.wire[k].specs, RepliesOf(reply), 0, []);
        }
    }
  }

  lemma SingleAnswers(requests: map<nat, Request>, msg: Message, spec: Spec, reply: Json)
    requires Stands(requests, msg, spec, None)
    ensures var (rest, r) := Matched(requests, [msg], [reply], 0, Many([]));
            var t := Treated(spec.wants, spec.filter, reply);
            && r == (if t.Ok? then Ok(One(t.value)) else Throws)
            && rest == if t.Ok? then requests - {msg.id} else requests
  {
    var t := Treated(spec.wants, spec.filter, reply);
    if t.Ok? {
      var left := requests - {msg.id};
      assert Matched(left, [msg], [reply], 1, One(t.value)) == (left, Ok(One(t.value)));
    }
  }

  lemma StepRefines(s: State, p: Plain, e: Event)
    requires Related(s, p)
    ensures var (s', o), (p', o') := Step(s, e), PlainStep(p, e);
            Related(s', p') && o == o'
  {
    hide FlightStands, BatchStands, Ids, Delivered, Called;
    match e {
      case Call(spec) => CallRefines(s, p, spec);
      case CallList => ListRefines(s, p);
      case Batch => EmptyBatchStands(s.requests);
      case Flush => FlushRefines(s, p);
      case Deliver(k, reply) =>
        if k < |s.wire| {
          DeliverRefines(s, p, k, reply);
        }
    }
  }

  lemma EmptyBatchStands(requests: map<nat, Request>)
    ensures BatchStands(requests, [], []) && Ids([]) == {}
  {
  }

  lemma ListRefines(s: State, p: Plain)
    requires Related(s, p)
    ensures Related(Step(s, CallList).0, PlainStep(p, CallList).0)
  {
    hide BatchStands, Ids;
    var s' := Step(s, CallList).0;
    NextIdNew(s);
    SentApart(s, s', Listing(s.id));
    assert forall a :: 0 <= a < |s.wire| ==> s'.wire[a] == s.wire[a];
  }

  lemma FlushRefines(s: State, p: Plain)
    requires Related(s, p)
    ensures Related(Step(s, Flush).0, PlainStep(p, Flush).0)
    ensures Step(s, Flush).1 == PlainStep(p, Flush).1
  {
    hide BatchStands, Ids;
    if s.batch.Some? {
      var s' := Step(s, Flush).0;
      var f := Multi(s.batch.value);
      assert FlightIds(f) == BatchIds(s) && BatchIds(s') == {};
      SentApart(s, s', f);
      assert forall a :: 0 <= a < |s.wire| ==> s'.wire[a] == s.wire[a];
    }
  }

  // ----- whole runs

  function Run(s: State, es: seq<Event>): (State, seq<Output>)
    decreases |es|
  {
    if es == [] then (s, [])
    else
      var (s1, o) := Step(s, es[0]);
      var (s2, os) := Run(s1, es[1..]);
      (s2, [o] + os)
  }

  function PlainRun(p: Plain, es: seq<Event>): (Plain, seq<Output>)
    decreases |es|
  {
    if es == [] then (p, [])
    else
      var (p1, o) := PlainStep(p, es[0]);
      var (p2, os) := PlainRun(p1, es[1..]);
      (p2, [o] + os)
  }

  lemma {:induction false} RunRefinesFrom(s: State, p: Plain, es: seq<Event>)
    requires Related(s, p)
    ensures Related(Run(s, es).0, PlainRun(p, es).0)
    ensures Run(s, es).1 == PlainRun(p, es).1
    decreases |es|
  {
    hide Step, PlainStep, Related;
    if es != [] {
      StepRefines(s, p, es[0]);
      RunRefinesFrom(Step(s, es[0]).0, PlainStep(p, es[0]).0, es[1..]);
    }
  }

  /** Over all interleavings of calls, batches, flushes and deliveries, callers get what
      pairing calls and replies directly would give them. */
  lemma RunRefines(es: seq<Event>)
    ensures Run(Initial, es).1 == PlainRun(PlainInitial, es).1
    ensures Related(Run(Initial, es).0, PlainRun(PlainInitial, es).0)
  {
    RunRefinesFrom(Initial, PlainInitial, es);
  }

  // ----- what a flush answers

  function CallsOf(es: seq<Event>): seq<Spec> {
    if es == [] then [] else (if es[0].Call? then [es[0].spec] else []) + CallsOf(es[1..])
  }

  /** Between a batch and its flush all calls are collected, whatever else happens. */
  lemma {:induction false} BatchCollects(p: Plain, es: seq<Event>)
    requires p.batch.Some? && forall i :: 0 <= i < |es| ==> !es[i].Flush?
    ensures PlainRun(p, es).0.batch == Some(p.batch.value + CallsOf(es))
    decreases |es|
  {
    if es == [] {
      assert p.batch.value + [] == p.batch.value;
    } else {
      BatchCollects(PlainStep(p, es[0]).0, es[1..]);
      if es[0].Call? {
        assert p.batch.value + [es[0].spec] + CallsOf(es[1..]) == p.batch.value + CallsOf(es);
      } else {
        assert [] + CallsOf(es[1..]) == CallsOf(es[1..]);
      }
    }
  }

  /** The k-th result is the k-th reply, treated as the k-th call asks. */
  lemma {:induction false} AnswersPairwise(specs: seq<Spec>, replies: seq<Json>, n: nat)
    requires n <= |replies| && n <= |specs|
    ensures var a := Answers(specs, replies, n);
            && (a.Ok? <==> forall k :: 0 <= k < n ==> Treated(specs[k].wants, specs[k].filter, replies[k]).Ok?)
            && (a.Ok? ==> |a.value| == n && forall k :: 0 <= k < n ==>
                  a.value[k] == Treated(specs[k].wants, specs[k].filter, replies[k]).value)
  {
    if n > 0 {
      AnswersPairwise(specs, replies, n - 1);
    }
  }

  /** A call outside a batch goes out at once, and its reply is treated as it asks. */
  lemma CallAnswered(s: State, p: Plain, spec: Spec, reply: Json)
    requires Related(s, p) && s.batch.None?
    ensures var s1 := Step(s, Call(spec)).0;
            var t := Treated(spec.wants, spec.filter, reply);
            && s1.wire == s.wire + [Single(Message(s.id, spec.path, spec.action, spec.params))]
            && Step(s1, Deliver(|s.wire|, reply)).1 == if t.Ok? then Answer(One(t.value)) else Exception
  {
    hide Delivered, Related, Treated;
    var s1, p1 := Step(s, Call(spec)).0, PlainStep(p, Call(spec)).0;
    RelatedShape(s, p);
    StepRefines(s, p, Call(spec));
    StepRefines(s1, p1, Deliver(|s.wire|, reply));
  }

  lemma RelatedShape(s: State, p: Plain)
    requires Related(s, p)
    ensures |s.wire| == |p.wire| && s.batch.Some? == p.batch.Some?
  {
  }

  /** Whatever is called between a batch and its flush, and whatever else happens meanwhile, the array the flush
      yields holds for each call in turn the reply in its place, treated as that call asks; it yields none if and
      only if one of these cannot be treated. */
  lemma BatchAnswered(s: State, p: Plain, es: seq<Event>, replies: seq<Json>)
    requires Related(s, p) && s.batch.None?
    requires forall i :: 0 <= i < |es| ==> !es[i].Flush?
    requires |replies| == |CallsOf(es)|
    ensures var s1 := Run(Step(s, Batch).0, es).0;
            var out, specs := Step(Step(s1, Flush).0, Deliver(|s1.wire|, Arr(replies))).1, CallsOf(es);
            && (out == Exception <==> exists k :: 0 <= k < |specs| && Treated(specs[k].wants, specs[k].filter, replies[k]).Throws?)
            && (out != Exception ==>
                  && out.Answer? && out.data.Many? && |out.data.items| == |specs|
                  && forall k :: 0 <= k < |specs| ==>
                       out.data.items[k] == Treated(specs[k].wants, specs[k].filter, replies[k]).value)
  {
    hide Step, PlainStep, Related, Treated, CallsOf;
    var specs := CallsOf(es);
    var s0, p0 := Step(s, Batch).0, PlainStep(p, Batch).0;
    RelatedShape(s, p);
    StepRefines(s, p, Batch);
    BatchBegins(p);
    RunRefinesFrom(s0, p0, es);
    BatchCollects(p0, es);
    var s1, p1 := Run(s0, es).0, PlainRun(p0, es).0;
    assert [] + specs == specs;
    RelatedShape(s1, p1);
    StepRefines(s1, p1, Flush);
    StepRefines(Step(s1, Flush).0, PlainStep(p1, Flush).0, Deliver(|s1.wire|, Arr(replies)));
    FlushedAnswers(p1, specs, replies);
    AnswersPairwise(specs, replies, |specs|);
  }

  lemma BatchBegins(p: Plain)
    requires p.batch.None?
    ensures PlainStep(p, Batch).0.batch == Some([])
  {
  }

  lemma FlushedAnswers(p: Plain, specs: seq<Spec>, replies: seq<Json>)
    requires p.batch == Some(specs)
    ensures PlainStep(PlainStep(p, Flush).0, Deliver(|p.wire|, Arr(replies))).1 ==
            var a := Answers(specs, replies, |replies|);
            if a.Ok? then Answer(Many(a.value)) else Exception
  {
    hide Answers;
    var f, p' := PlainMulti(specs), PlainStep(p, Flush).0;
    assert p'.wire == p.wire + [f] && p'.wire[|p.wire|] == f;
    assert RepliesOf(Arr(replies)) == replies;
  }

  // ----- what stays in the table

  /** An id belongs to a flight with entries in the table. */
  ghost predicate InFlight(wire: seq<Flight>, id: nat) {
    exists a :: 0 <= a < |wire| && !wire[a].Listing? && id in FlightIds(wire[a])
  }

  /** The table holds exactly the ids that are batched or in flight. */
  ghost predicate Tight(s: State) {
    forall id :: id in s.requests <==> id in BatchIds(s) || InFlight(s.wire, id)
  }

  /** Every message of the flight gets a reply that can be treated. */
  ghost predicate Answered(p: PlainFlight, reply: Json) {
    match p
    case PlainListing => true
    case PlainSingle(spec) => Treated(spec.wants, spec.filter, reply).Ok?
    case PlainMulti(specs) =>
      specs == [] ||
      (!reply.Null? && |specs| <= |RepliesOf(reply)| && Answers(specs, RepliesOf(reply), |specs|).Ok?)
  }

  lemma AllAnswered(specs: seq<Spec>, replies: seq<Json>, n: nat, m: nat)
    requires n <= m <= |replies| && Answers(specs, replies, m).Ok?
    ensures Answers(specs, replies, n).Ok?
    decreases m
  {
    if n < m {
      AllAnswered(specs, replies, n, m - 1);
    }
  }

  /** Delivering empties the table of the ids of the flight exactly if all are answered. */
  lemma DeliveredLeaves(s: State, p: Plain, k: nat, reply: Json)
    requires Related(s, p) && k < |s.wire|
    ensures var s' := Delivered(s, k, reply).0;
            (forall id :: id in FlightIds(s.wire[k]) ==> id !in s'.requests) <==> Answered(p.wire[k], reply)
  {
    var s' := Delivered(s, k, reply).0;
    assert FlightStands(s.requests, s.wire[k], p.wire[k]);
    match s.wire[k] {
      case Listing(id) =>
      case Single(msg) => SingleAnswers(s.requests, msg, p.wire[k].spec, reply);
      case Multi(msgs) => MultiLeaves(s.requests, msgs, p.wire[k].specs, reply, s'.requests);
    }
  }

  lemma NoAnswers(specs: seq<Spec>, replies: seq<Json>)
    ensures Answers(specs, replies, 0) == Ok([])
  {
  }

  lemma MultiLeaves(requests: map<nat, Request>, msgs: seq<Message>, specs: seq<Spec>, reply: Json, rest: map<nat, Request>)
    requires BatchStands(requests, msgs, specs)
    requires rest == if reply.Null? then requests else Matched(requests, msgs, RepliesOf(reply), 0, Many([])).0
    ensures (forall id :: id in Ids(msgs) ==> id !in rest) <==> Answered(PlainMulti(specs), reply)
  {
    hide RepliesOf, Treated, Matched, Answers;
    var replies := RepliesOf(reply);
    assert forall j :: 0 <= j < |msgs| ==> Stands(requests, msgs[j], specs[j], Some(j)) && msgs[j].id in Ids(msgs);
    if !reply.Null? {
      NoAnswers(specs, replies);
      MatchedAnswers(requests, msgs, specs, replies, 0, []);
    }
    if Answered(PlainMulti(specs), reply) {
      forall j | 0 <= j < |msgs|
        ensures msgs[j].id !in rest
      {
        AllAnswered(specs, replies, j + 1, |specs|);
      }
    } else {
      var j := |msgs| - 1;
      assert msgs[j].id in Ids(msgs) && msgs[j].id in rest;
    }
  }

  /** The table stays tight in every step but a delivery that leaves something unanswered. */
  lemma StaysTight(s: State, p: Plain, e: Event)
    requires Related(s, p) && Tight(s)
    ensures Tight(Step(s, e).0) <==> (e.Deliver? && e.k < |s.wire| ==> Answered(p.wire[e.k], e.reply))
  {
    hide Answered, FlightStands, BatchStands, Delivered;
    var s' := Step(s, e).0;
    match e {
      case Call(spec) => CallTight(s, spec);
      case CallList => SentTight(s, s', Listing(s.id));
      case Batch => EmptyBatchStands(s.requests);
      case Flush =>
        if s.batch.Some? {
          SentTight(s.(batch := None), s', Multi(s.batch.value));
        }
      case Deliver(k, reply) =>
        if k < |s.wire| {
          DeliverTight(s, p, k, reply);
        }
    }
  }

  lemma SentTight(s: State, s': State, f: Flight)
    requires s'.wire == s.wire + [f]
    ensures forall id :: InFlight(s'.wire, id) <==> InFlight(s.wire, id) || (!f.Listing? && id in FlightIds(f))
  {
    forall id
      ensures InFlight(s'.wire, id) <==> InFlight(s.wire, id) || (!f.Listing? && id in FlightIds(f))
    {
      if InFlight(s.wire, id) {
        var a :| 0 <= a < |s.wire| && !s.wire[a].Listing? && id in FlightIds(s.wire[a]);
        assert s'.wire[a] == s.wire[a];
      }
      if !f.Listing? && id in FlightIds(f) {
        assert s'.wire[|s.wire|] == f;
      }
    }
  }

  lemma CallTight(s: State, spec: Spec)
    requires Tight(s)
    ensures Tight(Called(s, spec))
  {
    hide Ids;
    var s', msg := Called(s, spec), Message(s.id, spec.path, spec.action, spec.params);
    if s.batch.Some? {
      IdsSnoc(s.batch.value, msg);
    } else {
      SentTight(s, s', Single(msg));
    }
    forall id
      ensures id in s'.requests <==> id in BatchIds(s') || InFlight(s'.wire, id)
    {
      assert id in s.requests <==> id in BatchIds(s) || InFlight(s.wire, id);
    }
  }

  lemma DeliverTight(s: State, p: Plain, k: nat, reply: Json)
    requires Related(s, p) && Tight(s) && k < |s.wire|
    ensures Tight(Delivered(s, k, reply).0) <==> Answered(p.wire[k], reply)
  {
    hide FlightStands, BatchStands, Delivered, PlainOutput, Answered;
    var s' := Delivered(s, k, reply).0;
    DeliveredAt(s, p, k, reply);
    DeliveredLeaves(s, p, k, reply);
    forall id
      ensures InFlight(s'.wire, id) ==> InFlight(s.wire, id) && id !in FlightIds(s.wire[k])
      ensures InFlight(s.wire, id) && id !in FlightIds(s.wire[k]) ==> InFlight(s'.wire, id)
    {
      CutFlight(s, k, id);
    }
    forall id | id in FlightIds(s.wire[k])
      ensures !InFlight(s'.wire, id) && id !in BatchIds(s')
    {
    }
  }

  lemma CutFlight(s: State, k: nat, id: nat)
    requires IdsApart(s) && k < |s.wire|
    ensures var w := s.wire[..k] + s.wire[k + 1..];
            InFlight(w, id) <==> InFlight(s.wire, id) && id !in FlightIds(s.wire[k])
  {
    var w := s.wire[..k] + s.wire[k + 1..];
    assert forall a :: 0 <= a < |w| ==> w[a] == s.wire[if a < k then a else a + 1];
    if InFlight(s.wire, id) && id !in FlightIds(s.wire[k]) {
      var a :| 0 <= a < |s.wire| && !s.wire[a].Listing? && id in FlightIds(s.wire[a]);
      assert a != k;
      assert w[if a < k then a else a - 1] == s.wire[a];
    }
  }

  /** In a run all deliveries answer all calls of their flights. */
  ghost predicate AnswersAll(p: Plain, es: seq<Event>)
    decreases |es|
  {
    es == [] ||
    (&& (es[0].Deliver? && es[0].k < |p.wire| ==> Answered(p.wire[es[0].k], es[0].reply))
     && AnswersAll(PlainStep(p, es[0]).0, es[1..]))
  }

  /** The table is tight all along a run. */
  ghost predicate TightAlong(s: State, es: seq<Event>)
    decreases |es|
  {
    Tight(s) && (es != [] ==> TightAlong(Step(s, es[0]).0, es[1..]))
  }

  lemma {:induction false} TightFrom(s: State, p: Plain, es: seq<Event>)
    requires Related(s, p) && Tight(s)
    ensures TightAlong(s, es) <==> AnswersAll(p, es)
    decreases |es|
  {
    hide Step, PlainStep, Tight, Answered;
    if es != [] {
      StaysTight(s, p, es[0]);
      StepRefines(s, p, es[0]);
      var s', p' := Step(s, es[0]).0, PlainStep(p, es[0]).0;
      if Tight(s') {
        TightFrom(s', p', es[1..]);
      }
    }
  }

  /** From the beginning on the table holds exactly the ids batched or in flight, all along a run, if and only
      if every delivery of the run answers all calls of its flight. */
  lemma RunTight(es: seq<Event>)
    ensures TightAlong(Initial, es) <==> AnswersAll(PlainInitial, es)
    ensures AnswersAll(PlainInitial, es) ==> Tight(Run(Initial, es).0)
  {
    hide Step, PlainStep, Answered;
    assert Tight(Initial);
    assert Related(Initial, PlainInitial);
    TightFrom(Initial, PlainInitial, es);
    if TightAlong(Initial, es) {
      TightAtEnd(Initial, es);
    }
  }

  lemma {:induction false} TightAtEnd(s: State, es: seq<Event>)
    requires TightAlong(s, es)
    ensures Tight(Run(s, es).0)
    decreases |es|
  {
    hide Step, Tight;
    if es != [] {
      TightAtEnd(Step(s, es[0]).0, es[1..]);
    }
  }

  /** A call that is answered with null stays in the table, though nothing is batched or in flight. */
  lemma LeftInTable(spec: Spec)
    ensures var s := Run(Initial, [Call(spec), Deliver(0, Null)]).0;
            1 in s.requests && s.wire == [] && s.batch == None && !Tight(s)
  {
    var e1, e2 := Call(spec), Deliver(0, Null);
    var s1 := Step(Initial, e1).0;
    var s2 := Step(s1, e2).0;
    assert [e1, e2][1..] == [e2] && [e2][1..] == [];
    assert s1.wire == [] + [Single(Message(1, spec.path, spec.action, spec.params))];
    assert Matched(s1.requests, [s1.wire[0].msg], [Null], 0, Many([])) == (s1.requests, Throws);
    assert Run(s2, []).0 == s2 && Run(s1, [e2]).0 == s2;
    assert s2.wire == [] && 1 in s2.requests;
    assert !(1 in BatchIds(s2) || InFlight(s2.wire, 1));
  }
}
