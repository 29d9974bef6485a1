/** The sharded engine as a step machine: clients put requests into the queue of the shard that owns
    the key and wait, one worker per shard takes requests from its queue and carries them out. Every
    interleaving behaves like one map that carries out the requests one after the other. */
module ShardedEngine {
  import opened Codec
  import opened Snapshot
  import opened Buckets
  import opened Lists
  import R = Recovery
  import T = HashTable

  datatype Config = Config(shards: nat, hash: Hash)

  ghost predicate ValidConfig(c: Config) {
    c.shards > 0
  }

  function ShardOf(c: Config, key: Bytes): (s: nat)
    requires c.shards > 0
    ensures s < c.shards
  {
    Place(c.hash(key), c.shards)
  }

  type Reply = R.Option<ValueEntry>

  datatype Request = Get(key: Bytes) | Set(key: Bytes, value: ValueEntry) | Remove(key: Bytes)

  datatype Outcome = Outcome(contents: T.Model, reply: Reply)

  /** What a table does with one request; `victims` are the keys it evicts for a set. */
  function Perform(m: T.Model, r: Request, now: nat, later: U64, victims: set<Bytes>): Outcome {
    match r
    case Get(key) =>
      if key in m && !R.Expired(T.SlotOf(m[key]), now) then
        var value := m[key].(accessCount := (m[key].accessCount + 1) % TwoTo64, lastAccess := later);
        Outcome(m[key := value], R.Some(value))
      else Outcome(m, R.None)
    case Set(key, value) => Outcome((m - victims)[key := value], R.None)
    case Remove(key) => Outcome(m - {key}, R.None)
  }

  // ----- The machine

  datatype Ticket = Ticket(id: nat, request: Request)

  datatype Engine = Engine(
    shards: seq<T.Model>,
    queues: seq<seq<Ticket>>,
    held: seq<R.Option<Ticket>>,
    answers: map<nat, Reply>,
    waiting: map<nat, nat>,
    calls: nat)

  /** A client calls or gets its answer; a worker takes a request or carries out the one it holds. */
  datatype Step =
    | Call(client: nat, request: Request)
    | Take(shard: nat)
    | Carry(shard: nat, now: nat, later: U64, evict: set<Bytes>)
    | Return(client: nat)

  function Start(c: Config): Engine {
    Engine(seq(c.shards, _ => map[]), seq(c.shards, _ => []), seq(c.shards, _ => R.None), map[], map[], 0)
  }

  predicate Enabled(c: Config, e: Engine, step: Step)
    requires c.shards > 0 && Shaped(c, e)
  {
    match step
    case Call(client, _) => client !in e.waiting
    case Take(s) => s < c.shards && e.held[s].None? && e.queues[s] != []
    case Carry(s, _, _, _) => s < c.shards && e.held[s].Some?
    case Return(client) => client in e.waiting && e.waiting[client] in e.answers
  }

  predicate Shaped(c: Config, e: Engine) {
    |e.shards| == |e.queues| == |e.held| == c.shards
  }

  /** The keys the shard's table evicts are keys it holds. */
  function Victims(e: Engine, s: nat, evict: set<Bytes>): set<Bytes>
    requires s < |e.shards|
  {
    evict * e.shards[s].Keys
  }

  function Done(c: Config, e: Engine, step: Step): Outcome
    requires c.shards > 0 && Shaped(c, e) && step.Carry? && Enabled(c, e, step)
  {
    var victims := Victims(e, step.shard, step.evict);
    Perform(e.shards[step.shard], e.held[step.shard].value.request, step.now, step.later, victims)
  }

  function Next(c: Config, e: Engine, step: Step): (e': Engine)
    requires c.shards > 0 && Shaped(c, e)
    ensures Shaped(c, e')
  {
    if !Enabled(c, e, step) then e
    else
      match step
      case Call(client, request) =>
        var s := ShardOf(c, request.key);
        e.(queues := e.queues[s := e.queues[s] + [Ticket(e.calls, request)]],
           waiting := e.waiting[client := e.calls], calls := e.calls + 1)
      case Take(s) =>
        e.(queues := e.queues[s := e.queues[s][1..]], held := e.held[s := R.Some(e.queues[s][0])])
      case Carry(s, _, _, _) =>
        var out := Done(c, e, step);
        e.(shards := e.shards[s := out.contents], held := e.held[s := R.None],
           answers := e.answers[e.held[s].value.id := out.reply])
      case Return(client) => e.(waiting := e.waiting - {client})
  }

  function Exec(c: Config, run: seq<Step>): (e: Engine)
    requires c.shards > 0
    ensures Shaped(c, e)
  {
    if run == [] then Start(c) else Next(c, Exec(c, run[..|run| - 1]), run[|run| - 1])
  }

  // ----- What is observed of a run

  /** One request carried out: when, what the table evicted, and what it answered. */
  datatype Act = Act(ticket: Ticket, now: nat, later: U64, victims: set<Bytes>, reply: Reply)

  /** Where a request is: in a queue, with a worker, or carried out as the given act of the log. */
  datatype Stage = Queued(shard: nat) | Held(shard: nat) | Carried(at: nat)

  datatype Returned = Returned(at: nat, reply: Reply)

  /** The requests as called and the length of the log at that time, the log of carried out requests,
      the answers as returned and the length of the log at that time. */
  datatype History = History(
    asked: map<nat, Request>,
    calledAt: map<nat, nat>,
    log: seq<Act>,
    returned: map<nat, Returned>,
    stage: map<nat, Stage>)

  function Record(c: Config, e: Engine, h: History, step: Step): History
    requires c.shards > 0 && Shaped(c, e)
  {
    if !Enabled(c, e, step) then h
    else
      match step
      case Call(_, request) =>
        h.(asked := h.asked[e.calls := request], calledAt := h.calledAt[e.calls := |h.log|],
           stage := h.stage[e.calls := Queued(ShardOf(c, request.key))])
      case Take(s) => h.(stage := h.stage[e.queues[s][0].id := Held(s)])
      case Carry(s, now, later, evict) =>
        var ticket := e.held[s].value;
        h.(log := h.log + [Act(ticket, now, later, Victims(e, s, evict), Done(c, e, step).reply)],
           stage := h.stage[ticket.id := Carried(|h.log|)])
      case Return(client) =>
        var id := e.waiting[client];
        h.(returned := h.returned[id := Returned(|h.log|, e.answers[id])])
  }

  function HistoryOf(c: Config, run: seq<Step>): History
    requires c.shards > 0
  {
    if run == [] then History(map[], map[], [], map[], map[])
    else
      var before := run[..|run| - 1];
      Record(c, Exec(c, before), HistoryOf(c, before), run[|run| - 1])
  }

  // ----- One map, one request at a time

  function Effect(m: T.Model, act: Act): Outcome {
    Perform(m, act.ticket.request, act.now, act.later, act.victims)
  }

  function Sequential(log: seq<Act>): T.Model {
    if log == [] then map[] else Effect(Sequential(log[..|log| - 1]), log[|log| - 1]).contents
  }

  /** Every answer in the log is the one a single map gives. */
  ghost predicate Honest(log: seq<Act>) {
    forall i :: 0 <= i < |log| ==> log[i].reply == Effect(Sequential(log[..i]), log[i]).reply
  }

  /** The part of a map that belongs to one shard. */
  function Part(c: Config, m: T.Model, s: nat): T.Model
    requires c.shards > 0
  {
    map key | key in m && ShardOf(c, key) == s :: m[key]
  }

  /** A request acts inside its own part alone, and there as on the whole map. */
  lemma ActsInItsPart(c: Config, m: T.Model, r: Request, now: nat, later: U64, victims: set<Bytes>, s: nat)
    requires c.shards > 0 && victims <= Part(c, m, ShardOf(c, r.key)).Keys
    ensures s == ShardOf(c, r.key) ==>
      && Perform(Part(c, m, s), r, now, later, victims).reply == Perform(m, r, now, later, victims).reply
      && Perform(Part(c, m, s), r, now, later, victims).contents
         == Part(c, Perform(m, r, now, later, victims).contents, s)
    ensures s != ShardOf(c, r.key) ==> Part(c, Perform(m, r, now, later, victims).contents, s) == Part(c, m, s)
  {
    hide Place;
    forall key | key in victims ensures ShardOf(c, key) == ShardOf(c, r.key) {
      assert key in Part(c, m, ShardOf(c, r.key));
    }
  }

  // ----- The invariant

  ghost predicate Partitioned(c: Config, e: Engine, log: seq<Act>)
    requires c.shards > 0 && Shaped(c, e)
  {
    forall s :: 0 <= s < c.shards ==> e.shards[s] == Part(c, Sequential(log), s)
  }

  /** A request not yet carried out: known, routed to its shard, called no later than now. */
  ghost predicate Open(c: Config, h: History, s: nat, t: Ticket, stage: Stage)
    requires c.shards > 0
  {
    && t.id in h.asked && h.asked[t.id] == t.request && ShardOf(c, t.request.key) == s
    && t.id in h.stage && h.stage[t.id] == stage
    && t.id in h.calledAt && h.calledAt[t.id] <= |h.log|
  }

  ghost predicate QueuesOk(c: Config, e: Engine, h: History)
    requires c.shards > 0 && Shaped(c, e)
  {
    && (forall s, i :: 0 <= s < c.shards && 0 <= i < |e.queues[s]| ==> Open(c, h, s, e.queues[s][i], Queued(s)))
    && (forall s, i, j :: 0 <= s < c.shards && 0 <= i < j < |e.queues[s]| ==> e.queues[s][i].id != e.queues[s][j].id)
    && (forall s :: 0 <= s < c.shards && e.held[s].Some? ==> Open(c, h, s, e.held[s].value, Held(s)))
  }

  /** A request that was carried out, once, after it was called. */
  ghost predicate Closed(h: History, i: nat)
    requires i < |h.log|
  {
    var t := h.log[i].ticket;
    && t.id in h.asked && h.asked[t.id] == t.request
    && t.id in h.stage && h.stage[t.id] == Carried(i)
    && t.id in h.calledAt && h.calledAt[t.id] <= i
  }

  ghost predicate LogOk(h: History) {
    forall i :: 0 <= i < |h.log| ==> Closed(h, i)
  }

  ghost predicate AnswersOk(e: Engine, h: History) {
    forall id :: id in e.answers ==> AnsweredBy(h, id, e.answers[id])
  }

  /** The answer is that of the log act in which the request was carried out. */
  ghost predicate AnsweredBy(h: History, id: nat, reply: Reply) {
    && id in h.stage && h.stage[id].Carried? && h.stage[id].at < |h.log|
    && h.log[h.stage[id].at].ticket.id == id && h.log[h.stage[id].at].reply == reply
  }

  ghost predicate ReturnsOk(h: History) {
    forall id :: id in h.returned ==>
      AnsweredBy(h, id, h.returned[id].reply) && h.stage[id].at < h.returned[id].at <= |h.log|
  }

  ghost predicate IdsOk(e: Engine, h: History) {
    && (forall id :: id in h.stage ==> id < e.calls)
    && (forall id :: 0 <= id < e.calls ==> id in h.stage)
    && (forall id :: id in h.asked ==> id in h.stage)
    && (forall id :: id in h.calledAt ==> id in h.stage)
  }

  /** Nothing is lost: a request that is said to be in a queue or with a worker is there. */
  ghost predicate StagesOk(c: Config, e: Engine, h: History)
    requires c.shards > 0 && Shaped(c, e)
  {
    forall id :: id in h.stage ==> Located(c, e, h, id, h.stage[id])
  }

  ghost predicate Located(c: Config, e: Engine, h: History, id: nat, stage: Stage)
    requires c.shards > 0 && Shaped(c, e)
  {
    match stage
    case Queued(s) => s < c.shards && exists i :: 0 <= i < |e.queues[s]| && e.queues[s][i].id == id
    case Held(s) => s < c.shards && e.held[s].Some? && e.held[s].value.id == id
    case Carried(i) => i < |h.log| && h.log[i].ticket.id == id
  }

  ghost predicate Inv(c: Config, e: Engine, h: History)
    requires c.shards > 0 && Shaped(c, e)
  {
    && Partitioned(c, e, h.log) && Honest(h.log)
    && QueuesOk(c, e, h) && LogOk(h) && AnswersOk(e, h) && ReturnsOk(h) && IdsOk(e, h) && StagesOk(c, e, h)
  }

  // ----- Every step keeps it

  lemma CallKeepsQueues(c: Config, e: Engine, h: History, step: Step)
    requires c.shards > 0 && Shaped(c, e) && step.Call? && Enabled(c, e, step)
    requires QueuesOk(c, e, h) && StagesOk(c, e, h) && e.calls !in h.stage
    ensures QueuesOk(c, Next(c, e, step), Record(c, e, h, step)) && StagesOk(c, Next(c, e, step), Record(c, e, h, step))
  {
    hide Place;
    var e', h' := Next(c, e, step), Record(c, e, h, step);
    var s, id := ShardOf(c, step.request.key), e.calls;
    forall x, i | 0 <= x < c.shards && 0 <= i < |e.queues[x]|
      ensures Open(c, h', x, e.queues[x][i], Queued(x)) && e.queues[x][i].id != id
    {
      assert Open(c, h, x, e.queues[x][i], Queued(x));
    }
    assert Open(c, h', s, e'.queues[s][|e.queues[s]|], Queued(s));
    forall x | 0 <= x < c.shards && e'.held[x].Some? ensures Open(c, h', x, e'.held[x].value, Held(x)) {
      assert Open(c, h, x, e.held[x].value, Held(x));
    }
    forall x | x in h'.stage ensures Located(c, e', h', x, h'.stage[x]) {
      if x == id {
        assert e'.queues[s][|e.queues[s]|].id == id;
      } else {
        CallKeepsLocation(c, e, h, step, x);
      }
    }
  }

  lemma CallKeepsLocation(c: Config, e: Engine, h: History, step: Step, x: nat)
    requires c.shards > 0 && Shaped(c, e) && step.Call? && Enabled(c, e, step)
    requires x in h.stage && Located(c, e, h, x, h.stage[x])
    ensures Located(c, Next(c, e, step), Record(c, e, h, step), x, h.stage[x])
  {
    var e' := Next(c, e, step);
    if h.stage[x].Queued? {
      var q := h.stage[x].shard;
      var i :| 0 <= i < |e.queues[q]| && e.queues[q][i].id == x;
      assert e'.queues[q][i].id == x;
    }
  }

  /** What is known of requests only grows, and a step that carries nothing out leaves the log. */
  ghost predicate Grows(e: Engine, h: History, e': Engine, h': History) {
    && h'.log == h.log && e'.answers == e.answers && e'.shards == e.shards
    && (forall id :: id in h.asked ==> id in h'.asked && h'.asked[id] == h.asked[id])
    && (forall id :: id in h.calledAt ==> id in h'.calledAt && h'.calledAt[id] == h.calledAt[id])
    && (forall id :: id in h.stage && h.stage[id].Carried? ==> id in h'.stage && h'.stage[id] == h.stage[id])
  }

  lemma RestKept(c: Config, e: Engine, h: History, e': Engine, h': History)
    requires c.shards > 0 && Shaped(c, e) && Shaped(c, e') && Grows(e, h, e', h')
    requires Partitioned(c, e, h.log) && LogOk(h) && AnswersOk(e, h) && ReturnsOk(h)
    ensures Partitioned(c, e', h'.log) && LogOk(h') && AnswersOk(e', h')
    ensures h'.log == h.log && (h'.returned == h.returned ==> ReturnsOk(h'))
  {
    hide Sequential, Part;
    forall x | x in e'.answers ensures AnsweredBy(h', x, e'.answers[x]) {
      assert AnsweredBy(h, x, e.answers[x]);
    }
    forall i | 0 <= i < |h'.log| ensures Closed(h', i) {
      assert Closed(h, i);
    }
    forall id | id in h.returned ensures AnsweredBy(h', id, h.returned[id].reply) {
      assert AnsweredBy(h, id, h.returned[id].reply);
    }
  }

  lemma CallGrows(c: Config, e: Engine, h: History, step: Step)
    requires c.shards > 0 && Shaped(c, e) && step.Call? && Enabled(c, e, step) && IdsOk(e, h)
    ensures IdsOk(Next(c, e, step), Record(c, e, h, step)) && Grows(e, h, Next(c, e, step), Record(c, e, h, step))
    ensures Record(c, e, h, step).returned == h.returned && e.calls !in h.stage
  {
    hide Place;
    assert e.calls !in h.stage;
  }

  lemma CallKeeps(c: Config, e: Engine, h: History, step: Step)
    requires c.shards > 0 && Shaped(c, e) && Inv(c, e, h) && step.Call? && Enabled(c, e, step)
    ensures Inv(c, Next(c, e, step), Record(c, e, h, step))
  {
    hide *;
    var e', h' := Next(c, e, step), Record(c, e, h, step);
    Split(c, e, h);
    CallGrows(c, e, h, step);
    CallKeepsQueues(c, e, h, step);
    RestKept(c, e, h, e', h');
    Join(c, e', h');
  }

  lemma Split(c: Config, e: Engine, h: History)
    requires c.shards > 0 && Shaped(c, e) && Inv(c, e, h)
    ensures Partitioned(c, e, h.log) && Honest(h.log)
    ensures QueuesOk(c, e, h) && LogOk(h) && AnswersOk(e, h) && ReturnsOk(h) && IdsOk(e, h) && StagesOk(c, e, h)
  {
  }

  lemma Join(c: Config, e: Engine, h: History)
    requires c.shards > 0 && Shaped(c, e)
    requires Partitioned(c, e, h.log) && Honest(h.log)
    requires QueuesOk(c, e, h) && LogOk(h) && AnswersOk(e, h) && ReturnsOk(h) && IdsOk(e, h) && StagesOk(c, e, h)
    ensures Inv(c, e, h)
  {
  }

  lemma ReturnKeepsQueues(c: Config, e: Engine, h: History, step: Step)
    requires c.shards > 0 && Shaped(c, e) && step.Return? && Enabled(c, e, step)
    requires QueuesOk(c, e, h) && StagesOk(c, e, h) && IdsOk(e, h)
    ensures QueuesOk(c, Next(c, e, step), Record(c, e, h, step)) && StagesOk(c, Next(c, e, step), Record(c, e, h, step))
    ensures Grows(e, h, Next(c, e, step), Record(c, e, h, step)) && IdsOk(Next(c, e, step), Record(c, e, h, step))
  {
    hide Place;
    var e', h' := Next(c, e, step), Record(c, e, h, step);
    forall x | x in h'.stage ensures Located(c, e', h', x, h'.stage[x]) {
      assert Located(c, e, h, x, h.stage[x]);
    }
    forall x, i | 0 <= x < c.shards && 0 <= i < |e'.queues[x]| ensures Open(c, h', x, e'.queues[x][i], Queued(x)) {
      assert Open(c, h, x, e.queues[x][i], Queued(x));
    }
    forall x | 0 <= x < c.shards && e'.held[x].Some? ensures Open(c, h', x, e'.held[x].value, Held(x)) {
      assert Open(c, h, x, e.held[x].value, Held(x));
    }
  }

  lemma ReturnKeepsReturns(c: Config, e: Engine, h: History, step: Step)
    requires c.shards > 0 && Shaped(c, e) && step.Return? && Enabled(c, e, step)
    requires AnswersOk(e, h) && ReturnsOk(h)
    ensures ReturnsOk(Record(c, e, h, step))
  {
    hide Place;
    var h' := Record(c, e, h, step);
    assert AnsweredBy(h, e.waiting[step.client], e.answers[e.waiting[step.client]]);
    forall id | id in h.returned ensures AnsweredBy(h', id, h.returned[id].reply) {
      assert AnsweredBy(h, id, h.returned[id].reply);
    }
  }

  lemma ReturnKeeps(c: Config, e: Engine, h: History, step: Step)
    requires c.shards > 0 && Shaped(c, e) && Inv(c, e, h) && step.Return? && Enabled(c, e, step)
    ensures Inv(c, Next(c, e, step), Record(c, e, h, step))
  {
    hide *;
    var e', h' := Next(c, e, step), Record(c, e, h, step);
    Split(c, e, h);
    ReturnKeepsQueues(c, e, h, step);
    ReturnKeepsReturns(c, e, h, step);
    RestKept(c, e, h, e', h');
    Join(c, e', h');
  }

  lemma TakeKeepsQueues(c: Config, e: Engine, h: History, step: Step)
    requires c.shards > 0 && Shaped(c, e) && step.Take? && Enabled(c, e, step)
    requires QueuesOk(c, e, h) && StagesOk(c, e, h)
    ensures QueuesOk(c, Next(c, e, step), Record(c, e, h, step)) && StagesOk(c, Next(c, e, step), Record(c, e, h, step))
  {
    hide Place;
    var e', h' := Next(c, e, step), Record(c, e, h, step);
    var s, id := step.shard, e.queues[step.shard][0].id;
    assert Open(c, h, s, e.queues[s][0], Queued(s));
    forall x, i | 0 <= x < c.shards && 0 <= i < |e'.queues[x]| ensures Open(c, h', x, e'.queues[x][i], Queued(x)) {
      if x == s {
        assert e'.queues[x][i] == e.queues[x][i + 1];
        assert Open(c, h, x, e.queues[x][i + 1], Queued(x));
      } else {
        assert Open(c, h, x, e.queues[x][i], Queued(x));
      }
    }
    forall x | x in h'.stage ensures Located(c, e', h', x, h'.stage[x]) {
      assert Located(c, e, h, x, h.stage[x]);
      if x != id && h.stage[x].Queued? {
        var q := h.stage[x].shard;
        var i :| 0 <= i < |e.queues[q]| && e.queues[q][i].id == x;
        assert if q == s then i > 0 && e'.queues[q][i - 1].id == x else e'.queues[q][i].id == x;
      }
    }
  }

  lemma TakeGrows(c: Config, e: Engine, h: History, step: Step)
    requires c.shards > 0 && Shaped(c, e) && step.Take? && Enabled(c, e, step) && IdsOk(e, h) && QueuesOk(c, e, h)
    ensures IdsOk(Next(c, e, step), Record(c, e, h, step)) && Grows(e, h, Next(c, e, step), Record(c, e, h, step))
    ensures Record(c, e, h, step).returned == h.returned
  {
    hide Place;
    assert Open(c, h, step.shard, e.queues[step.shard][0], Queued(step.shard));
  }

  lemma TakeKeeps(c: Config, e: Engine, h: History, step: Step)
    requires c.shards > 0 && Shaped(c, e) && Inv(c, e, h) && step.Take? && Enabled(c, e, step)
    ensures Inv(c, Next(c, e, step), Record(c, e, h, step))
  {
    hide *;
    var e', h' := Next(c, e, step), Record(c, e, h, step);
    Split(c, e, h);
    TakeGrows(c, e, h, step);
    TakeKeepsQueues(c, e, h, step);
    RestKept(c, e, h, e', h');
    Join(c, e', h');
  }

  lemma {:induction false} SequentialMore(log: seq<Act>, act: Act)
    ensures Sequential(log + [act]) == Effect(Sequential(log), act).contents
    ensures Honest(log) && act.reply == Effect(Sequential(log), act).reply ==> Honest(log + [act])
  {
    assert (log + [act])[..|log|] == log;
    forall i | 0 <= i < |log| ensures (log + [act])[..i] == log[..i] {
    }
  }

  lemma CarryKeepsContents(c: Config, e: Engine, h: History, step: Step)
    requires c.shards > 0 && Shaped(c, e) && step.Carry? && Enabled(c, e, step)
    requires QueuesOk(c, e, h) && Partitioned(c, e, h.log) && Honest(h.log)
    ensures Partitioned(c, Next(c, e, step), Record(c, e, h, step).log) && Honest(Record(c, e, h, step).log)
  {
    var e', h' := Next(c, e, step), Record(c, e, h, step);
    var s, act, m := step.shard, h'.log[|h.log|], Sequential(h.log);
    assert Open(c, h, s, e.held[s].value, Held(s));
    assert h'.log == h.log + [act];
    hide Sequential, Perform, Part, Place, Honest;
    SequentialMore(h.log, act);
    forall x | 0 <= x < c.shards ensures e'.shards[x] == Part(c, Sequential(h'.log), x) {
      ActsInItsPart(c, m, act.ticket.request, act.now, act.later, act.victims, x);
    }
    ActsInItsPart(c, m, act.ticket.request, act.now, act.later, act.victims, s);
  }

  lemma CarryKeepsQueues(c: Config, e: Engine, h: History, step: Step)
    requires c.shards > 0 && Shaped(c, e) && step.Carry? && Enabled(c, e, step)
    requires QueuesOk(c, e, h) && StagesOk(c, e, h)
    ensures QueuesOk(c, Next(c, e, step), Record(c, e, h, step)) && StagesOk(c, Next(c, e, step), Record(c, e, h, step))
  {
    hide Place, Done;
    var e', h' := Next(c, e, step), Record(c, e, h, step);
    var s, id := step.shard, e.held[step.shard].value.id;
    assert Open(c, h, s, e.held[s].value, Held(s));
    forall x, i | 0 <= x < c.shards && 0 <= i < |e'.queues[x]| ensures Open(c, h', x, e'.queues[x][i], Queued(x)) {
      assert Open(c, h, x, e.queues[x][i], Queued(x));
    }
    forall x | 0 <= x < c.shards && e'.held[x].Some? ensures Open(c, h', x, e'.held[x].value, Held(x)) {
      assert Open(c, h, x, e.held[x].value, Held(x));
    }
    forall x | x in h'.stage ensures Located(c, e', h', x, h'.stage[x]) {
      assert Located(c, e, h, x, h.stage[x]);
    }
  }

  lemma CarryKeepsLog(c: Config, e: Engine, h: History, step: Step)
    requires c.shards > 0 && Shaped(c, e) && step.Carry? && Enabled(c, e, step)
    requires QueuesOk(c, e, h) && IdsOk(e, h) && LogOk(h) && AnswersOk(e, h) && ReturnsOk(h)
    ensures IdsOk(Next(c, e, step), Record(c, e, h, step)) && LogOk(Record(c, e, h, step))
    ensures AnswersOk(Next(c, e, step), Record(c, e, h, step)) && ReturnsOk(Record(c, e, h, step))
  {
    hide Place, Done;
    var e', h' := Next(c, e, step), Record(c, e, h, step);
    var s, id := step.shard, e.held[step.shard].value.id;
    assert Open(c, h, s, e.held[s].value, Held(s));
    forall x | x in e'.answers ensures AnsweredBy(h', x, e'.answers[x]) {
      assert x != id ==> AnsweredBy(h, x, e.answers[x]);
    }
    forall i | 0 <= i < |h'.log| ensures Closed(h', i) {
      assert i < |h.log| ==> Closed(h, i);
    }
    forall x | x in h.returned ensures AnsweredBy(h', x, h.returned[x].reply) {
      assert AnsweredBy(h, x, h.returned[x].reply);
    }
  }

  lemma CarryKeeps(c: Config, e: Engine, h: History, step: Step)
    requires c.shards > 0 && Shaped(c, e) && Inv(c, e, h) && step.Carry? && Enabled(c, e, step)
    ensures Inv(c, Next(c, e, step), Record(c, e, h, step))
  {
    hide *;
    Split(c, e, h);
    CarryKeepsContents(c, e, h, step);
    CarryKeepsQueues(c, e, h, step);
    CarryKeepsLog(c, e, h, step);
    Join(c, Next(c, e, step), Record(c, e, h, step));
  }

  lemma {:induction false} RunInv(c: Config, run: seq<Step>)
    requires ValidConfig(c)
    ensures Inv(c, Exec(c, run), HistoryOf(c, run))
    decreases |run|
  {
    if run != [] {
      var before, step := run[..|run| - 1], run[|run| - 1];
      RunInv(c, before);
      var e, h := Exec(c, before), HistoryOf(c, before);
      hide Inv, Next, Record;
      if Enabled(c, e, step) {
        match step
        case Call(_, _) => CallKeeps(c, e, h, step);
        case Take(_) => TakeKeeps(c, e, h, step);
        case Carry(_, _, _, _) => CarryKeeps(c, e, h, step);
        case Return(_) => ReturnKeeps(c, e, h, step);
      } else {
        Idle(c, e, h, step);
      }
    }
  }

  lemma Idle(c: Config, e: Engine, h: History, step: Step)
    requires c.shards > 0 && Shaped(c, e) && !Enabled(c, e, step)
    ensures Next(c, e, step) == e && Record(c, e, h, step) == h
  {
  }

  // ----- What every run gives

  /** The request took effect once, at a moment between its call and its return, and was answered
      what a single map answers at that moment. */
  ghost predicate TookEffect(h: History, id: nat, i: nat) {
    && id in h.asked && id in h.calledAt && id in h.returned
    && h.calledAt[id] <= i < h.returned[id].at <= |h.log|
    && h.log[i].ticket == Ticket(id, h.asked[id])
    && h.log[i].reply == h.returned[id].reply == Effect(Sequential(h.log[..i]), h.log[i]).reply
  }

  lemma Linearizable(c: Config, run: seq<Step>, id: nat)
    requires ValidConfig(c) && id in HistoryOf(c, run).returned
    ensures var h := HistoryOf(c, run);
      && (exists i :: TookEffect(h, id, i))
      && (forall i, j :: 0 <= i < |h.log| && 0 <= j < |h.log| && h.log[i].ticket.id == h.log[j].ticket.id ==> i == j)
  {
    var e, h := Exec(c, run), HistoryOf(c, run);
    RunInv(c, run);
    hide Sequential, Effect, HistoryOf, Exec;
    assert AnsweredBy(h, id, h.returned[id].reply);
    assert Closed(h, h.stage[id].at);
    assert TookEffect(h, id, h.stage[id].at);
    forall i, j | 0 <= i < |h.log| && 0 <= j < |h.log| && h.log[i].ticket.id == h.log[j].ticket.id ensures i == j {
      assert Closed(h, i) && Closed(h, j);
    }
  }

  lemma {:induction false} LogOnlyGrows(c: Config, run: seq<Step>, p: nat)
    requires ValidConfig(c) && p <= |run|
    ensures HistoryOf(c, run[..p]).log <= HistoryOf(c, run).log
    decreases |run|
  {
    if p == |run| {
      assert run[..p] == run;
    } else {
      var before := run[..|run| - 1];
      assert before[..p] == run[..p];
      LogOnlyGrows(c, before, p);
      hide Exec, Enabled, Done, Victims;
      assert HistoryOf(c, before).log <= HistoryOf(c, run).log;
    }
  }

  /** A request that had returned before another was called also took effect before it: `a` is
      answered after the first `p` steps of the run, and `b` is the number of a later call. */
  lemma RealTimeOrder(c: Config, run: seq<Step>, p: nat, a: nat, b: nat, i: nat, j: nat)
    requires ValidConfig(c) && p <= |run|
    requires a in HistoryOf(c, run[..p]).returned && b >= Exec(c, run[..p]).calls
    requires var log := HistoryOf(c, run).log;
      i < |log| && j < |log| && log[i].ticket.id == a && log[j].ticket.id == b
    ensures i < j
  {
    var early, h := HistoryOf(c, run[..p]), HistoryOf(c, run);
    RunInv(c, run[..p]);
    RunInv(c, run);
    LogOnlyGrows(c, run, p);
    hide HistoryOf, Exec;
    assert AnsweredBy(early, a, early.returned[a].reply);
    var at := early.stage[a].at;
    assert h.log[at] == early.log[at];
    assert Closed(h, i) && Closed(h, at);
    assert j < |early.log| ==> Closed(early, j) && h.log[j] == early.log[j];
  }

  /** No request disappears: it is in its shard's queue, with its worker, or carried out. */
  lemma NothingLost(c: Config, run: seq<Step>, id: nat)
    requires ValidConfig(c) && id < Exec(c, run).calls
    ensures var h := HistoryOf(c, run);
      id in h.stage && Located(c, Exec(c, run), h, id, h.stage[id])
  {
    RunInv(c, run);
  }

  /** The shards hold disjoint parts of the one map, and together all of it. */
  lemma ShardsPartition(c: Config, run: seq<Step>, s: nat, key: Bytes)
    requires ValidConfig(c) && s < c.shards
    ensures var m, shard := Sequential(HistoryOf(c, run).log), Exec(c, run).shards[s];
      && (key in shard <==> key in m && c.hash(key) % c.shards == s)
      && (key in shard ==> shard[key] == m[key])
  {
    RunInv(c, run);
  }

  ghost function BelowShard(c: Config, m: T.Model, k: nat): T.Model
    requires c.shards > 0
  {
    map key | key in m && ShardOf(c, key) < k :: m[key]
  }

  lemma OneMoreShard(c: Config, m: T.Model, k: nat)
    requires c.shards > 0
    ensures |BelowShard(c, m, k + 1)| == |BelowShard(c, m, k)| + |Part(c, m, k)|
    ensures BelowShard(c, m, 0) == map[] && BelowShard(c, m, c.shards) == m
  {
    hide Place;
    assert BelowShard(c, m, k + 1).Keys == BelowShard(c, m, k).Keys + Part(c, m, k).Keys;
    assert BelowShard(c, m, k).Keys !! Part(c, m, k).Keys;
  }

  /** Adding up the sizes of the shards gives the size of the one map. */
  method TotalEntries(c: Config, e: Engine, ghost log: seq<Act>) returns (total: nat)
    requires c.shards > 0 && Shaped(c, e) && Partitioned(c, e, log)
    ensures total == |Sequential(log)|
  {
    hide Sequential, Part, BelowShard;
    total := 0;
    OneMoreShard(c, Sequential(log), 0);
    for s := 0 to |e.shards|
      invariant total == |BelowShard(c, Sequential(log), s)|
    {
      OneMoreShard(c, Sequential(log), s);
      total := total + |e.shards[s]|;
    }
  }

  // ----- Each shard serves its requests in the order of the calls

  function ActShard(c: Config, act: Act): nat
    requires c.shards > 0
  {
    ShardOf(c, act.ticket.request.key)
  }

  /** Along shard `s`, from the log over the worker to the end of the queue, call numbers increase. */
  ghost predicate InLine(c: Config, e: Engine, log: seq<Act>, s: nat)
    requires c.shards > 0 && Shaped(c, e) && s < c.shards
  {
    var queue, held := e.queues[s], e.held[s];
    && (forall i, j :: 0 <= i < j < |queue| ==> queue[i].id < queue[j].id)
    && (forall i :: 0 <= i < |queue| ==> queue[i].id < e.calls && (held.Some? ==> held.value.id < queue[i].id))
    && (held.Some? ==> held.value.id < e.calls && ShardOf(c, held.value.request.key) == s)
    && (forall i :: 0 <= i < |queue| ==> ShardOf(c, queue[i].request.key) == s)
    && (forall k :: 0 <= k < |log| && ActShard(c, log[k]) == s ==> Served(log[k].ticket.id, queue, held, e.calls))
    && (forall k, l :: 0 <= k < l < |log| && ActShard(c, log[k]) == s && ActShard(c, log[l]) == s ==>
          log[k].ticket.id < log[l].ticket.id)
  }

  ghost predicate Served(id: nat, queue: seq<Ticket>, held: R.Option<Ticket>, calls: nat) {
    && id < calls && (held.Some? ==> id < held.value.id)
    && forall i :: 0 <= i < |queue| ==> id < queue[i].id
  }

  lemma StepKeepsLine(c: Config, e: Engine, h: History, step: Step, s: nat)
    requires c.shards > 0 && Shaped(c, e) && s < c.shards && InLine(c, e, h.log, s)
    requires step.Carry? && Enabled(c, e, step) && step.shard != s ==>
      ShardOf(c, e.held[step.shard].value.request.key) == step.shard
    ensures InLine(c, Next(c, e, step), Record(c, e, h, step).log, s)
  {
    hide Place, Done;
    if Enabled(c, e, step) {
      if step.Carry? {
        CarryKeepsLine(c, e, h, step, s);
      } else {
        QueueKeepsLine(c, e, h, step, s);
      }
    }
  }

  lemma QueueKeepsLine(c: Config, e: Engine, h: History, step: Step, s: nat)
    requires c.shards > 0 && Shaped(c, e) && s < c.shards && InLine(c, e, h.log, s)
    requires !step.Carry? && Enabled(c, e, step)
    ensures InLine(c, Next(c, e, step), Record(c, e, h, step).log, s)
  {
    hide Place, ActShard;
    var e', log := Next(c, e, step), h.log;
    assert Record(c, e, h, step).log == log;
    forall k | 0 <= k < |log| && ActShard(c, log[k]) == s
      ensures Served(log[k].ticket.id, e'.queues[s], e'.held[s], e'.calls)
    {
      assert Served(log[k].ticket.id, e.queues[s], e.held[s], e.calls);
    }
  }

  lemma CarryKeepsLine(c: Config, e: Engine, h: History, step: Step, s: nat)
    requires c.shards > 0 && Shaped(c, e) && s < c.shards && InLine(c, e, h.log, s)
    requires step.Carry? && Enabled(c, e, step)
    requires step.shard != s ==> ShardOf(c, e.held[step.shard].value.request.key) == step.shard
    ensures InLine(c, Next(c, e, step), Record(c, e, h, step).log, s)
  {
    hide Place, Done;
    var e', log, log' := Next(c, e, step), h.log, Record(c, e, h, step).log;
    forall k | 0 <= k < |log'| && ActShard(c, log'[k]) == s
      ensures Served(log'[k].ticket.id, e'.queues[s], e'.held[s], e'.calls)
    {
      if k < |log| {
        assert log'[k] == log[k];
        assert Served(log[k].ticket.id, e.queues[s], e.held[s], e.calls);
      }
    }
  }

  lemma {:induction false} LinesInOrder(c: Config, run: seq<Step>, s: nat)
    requires ValidConfig(c) && s < c.shards
    ensures InLine(c, Exec(c, run), HistoryOf(c, run).log, s)
    decreases |run|
  {
    if run != [] {
      var before, step := run[..|run| - 1], run[|run| - 1];
      var e, h := Exec(c, before), HistoryOf(c, before);
      hide InLine, Next, Record;
      LinesInOrder(c, before, s);
      RunInv(c, before);
      if step.Carry? && Enabled(c, e, step) {
        HeldIsRouted(c, e, h, step.shard);
      }
      StepKeepsLine(c, e, h, step, s);
    }
  }

  lemma HeldIsRouted(c: Config, e: Engine, h: History, s: nat)
    requires c.shards > 0 && Shaped(c, e) && Inv(c, e, h) && s < c.shards && e.held[s].Some?
    ensures ShardOf(c, e.held[s].value.request.key) == s
  {
    assert Open(c, h, s, e.held[s].value, Held(s));
  }

  /** Of two requests to one shard the one called first is carried out first, in every run. */
  lemma FirstCalledFirstServed(c: Config, run: seq<Step>, k: nat, l: nat)
    requires ValidConfig(c) && k < |HistoryOf(c, run).log| && l < |HistoryOf(c, run).log|
    requires var log := HistoryOf(c, run).log; ActShard(c, log[k]) == ActShard(c, log[l])
    ensures var log := HistoryOf(c, run).log; k < l <==> log[k].ticket.id < log[l].ticket.id
  {
    hide Exec, HistoryOf, ShardOf;
    LinesInOrder(c, run, ActShard(c, HistoryOf(c, run).log[k]));
  }

  // ----- A get answers from the latest write

  ghost predicate Writes(act: Act, key: Bytes) {
    match act.ticket.request
    case Get(_) => false
    case Set(k, _) => k == key || key in act.victims
    case Remove(k) => k == key
  }

  ghost predicate LastWrite(log: seq<Act>, n: nat, key: Bytes, j: nat)
    requires n <= |log|
  {
    j < n && Writes(log[j], key) && forall k :: j < k < n ==> !Writes(log[k], key)
  }

  /** The latest write to the key before `n` set it, to a value of the given bytes and expiry. */
  ghost predicate LastSet(log: seq<Act>, n: nat, key: Bytes, slot: R.Slot)
    requires n <= |log|
  {
    exists j: nat :: LastWrite(log, n, key, j) && log[j].ticket.request.Set? && log[j].ticket.request.key == key
      && T.SlotOf(log[j].ticket.request.value) == slot
  }

  lemma LastSetStep(log: seq<Act>, n: nat, key: Bytes, slot: R.Slot)
    requires n < |log|
    ensures var r := log[n].ticket.request;
      LastSet(log, n + 1, key, slot) <==>
        if Writes(log[n], key) then r.Set? && r.key == key && T.SlotOf(r.value) == slot else LastSet(log, n, key, slot)
  {
    if Writes(log[n], key) {
      assert LastWrite(log, n + 1, key, n);
    } else {
      forall j: nat ensures LastWrite(log, n + 1, key, j) <==> LastWrite(log, n, key, j) {
      }
    }
  }

  lemma {:induction false} StoredByLastSet(log: seq<Act>, n: nat, key: Bytes, slot: R.Slot)
    requires n <= |log|
    ensures var m := Sequential(log[..n]);
      key in m && T.SlotOf(m[key]) == slot <==> LastSet(log, n, key, slot)
    decreases n
  {
    if n == 0 {
      assert log[..n] == [];
    } else {
      StoredByLastSet(log, n - 1, key, slot);
      LastSetStep(log, n - 1, key, slot);
      assert log[..n] == log[..n - 1] + [log[n - 1]];
      SequentialMore(log[..n - 1], log[n - 1]);
    }
  }

  /** In every run a get is answered from the latest write to its key carried out before it: with
      its value if that was a set that has not expired, and with nothing otherwise. */
  lemma GetSeesLatestWrite(c: Config, run: seq<Step>, i: nat, slot: R.Slot)
    requires ValidConfig(c) && i < |HistoryOf(c, run).log| && HistoryOf(c, run).log[i].ticket.request.Get?
    ensures var log := HistoryOf(c, run).log;
      var act := log[i];
      (act.reply.Some? && T.SlotOf(act.reply.value) == slot) <==>
        (LastSet(log, i, act.ticket.request.key, slot) && (slot.expiry == 0 || act.now < slot.expiry))
  {
    var log := HistoryOf(c, run).log;
    RunInv(c, run);
    Split(c, Exec(c, run), HistoryOf(c, run));
    hide HistoryOf, Exec, Sequential, LastSet;
    StoredByLastSet(log, i, log[i].ticket.request.key, slot);
    assert log[i].reply == Effect(Sequential(log[..i]), log[i]).reply;
  }

  // ----- A worker carries out a request on its table

  /** A worker that carries out the request it holds on a table with the contents of its shard makes the
      step of the machine that evicts the same keys. */
  method Work(
    ghost c: Config, ghost e: Engine, ghost s: nat, table: T.Table, r: Request, now: nat, later: U64)
    returns (reply: Reply, ghost e': Engine)
    requires c.shards > 0 && Shaped(c, e) && s < c.shards && e.held[s].Some? && e.held[s].value.request == r
    requires table.Valid() && table.model == e.shards[s]
    modifies table, table.lru, table.lfu, table.wal
    ensures table.Valid() && exists evict :: e' == Next(c, e, Carry(s, now, later, evict))
    ensures e' == e.(shards := e.shards[s := table.model], held := e.held[s := R.None],
                     answers := e.answers[e.held[s].value.id := reply])
  {
    hide T.Table.Valid, Perform;
    var answer, victims := ProcessRequest(table, r, now, later);
    reply := answer;
    e' := Next(c, e, Carry(s, now, later, Members(victims)));
    assert Members(victims) * e.shards[s].Keys == Members(victims);
  }

  method ProcessRequest(table: T.Table, r: Request, now: nat, later: U64)
    returns (reply: Reply, ghost victims: seq<Bytes>)
    requires table.Valid()
    modifies table, table.lru, table.lfu, table.wal
    ensures table.Valid()
    ensures Outcome(table.model, reply) == Perform(old(table.model), r, now, later, Members(victims))
    ensures Members(victims) <= old(table.model).Keys
  {
    hide T.Table.Valid;
    victims := [];
    match r
    case Get(key) =>
      reply := table.Get(key, now, later);
    case Set(key, value) =>
      var _, evicted := table.Insert(key, value);
      victims := evicted;
      reply := R.None;
    case Remove(key) =>
      var _ := table.Remove(key);
      reply := R.None;
  }
}
