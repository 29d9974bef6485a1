/** The sharded engine as its clients see it: who called gets the answer to the very request it made,
    may call again, and is never left waiting for good. */
module ShardedClients {
  import opened ShardedEngine

  /** The step at this place of the run is one that can be made there. */
  ghost predicate Fires(c: Config, run: seq<Step>, p: nat)
    requires c.shards > 0
  {
    p < |run| && Enabled(c, Exec(c, run[..p]), run[p])
  }

  /** How many calls a run has made. */
  function Calls(c: Config, run: seq<Step>): nat
    requires c.shards > 0
  {
    if run == [] then 0
    else
      var before, step := run[..|run| - 1], run[|run| - 1];
      Calls(c, before) + if step.Call? && Enabled(c, Exec(c, before), step) then 1 else 0
  }

  lemma {:induction false} CallsCounted(c: Config, run: seq<Step>)
    requires c.shards > 0
    ensures Exec(c, run).calls == Calls(c, run)
    decreases |run|
  {
    hide Done, ShardOf;
    if run != [] {
      CallsCounted(c, run[..|run| - 1]);
    }
  }

  lemma OneStep(c: Config, run: seq<Step>, p: nat)
    requires c.shards > 0 && p < |run|
    ensures Exec(c, run[..p + 1]) == Next(c, Exec(c, run[..p]), run[p])
    ensures HistoryOf(c, run[..p + 1]) == Record(c, Exec(c, run[..p]), HistoryOf(c, run[..p]), run[p])
  {
    hide Next, Record;
    assert run[..p + 1][..p] == run[..p];
  }

  // ----- Everyone gets the answer to their own request

  /** The client waits for request number `id`, which asks for `r` and was made when the log had
      `start` acts. */
  ghost predicate Waits(e: Engine, h: History, client: nat, id: nat, r: Request, start: nat) {
    && client in e.waiting && e.waiting[client] == id
    && id in h.asked && h.asked[id] == r && id in h.calledAt && h.calledAt[id] == start
  }

  lemma CallWaits(c: Config, e: Engine, h: History, client: nat, r: Request)
    requires c.shards > 0 && Shaped(c, e) && Enabled(c, e, Call(client, r))
    ensures Waits(Next(c, e, Call(client, r)), Record(c, e, h, Call(client, r)), client, e.calls, r, |h.log|)
  {
    hide ShardOf;
  }

  lemma StillWaits(c: Config, e: Engine, h: History, step: Step, client: nat, id: nat, r: Request, start: nat)
    requires c.shards > 0 && Shaped(c, e) && Waits(e, h, client, id, r, start) && id < e.calls
    requires Enabled(c, e, step) ==> step != Return(client)
    ensures Waits(Next(c, e, step), Record(c, e, h, step), client, id, r, start) && id < Next(c, e, step).calls
  {
    hide ShardOf, Done;
  }

  lemma {:induction false} WaitsUntil(c: Config, run: seq<Step>, q: nat, p: nat, client: nat, r: Request)
    requires ValidConfig(c) && q < p <= |run| && Fires(c, run, q) && run[q] == Call(client, r)
    requires forall k :: q < k < p && Fires(c, run, k) ==> run[k] != Return(client)
    ensures var start := |HistoryOf(c, run[..q]).log|;
      Waits(Exec(c, run[..p]), HistoryOf(c, run[..p]), client, Calls(c, run[..q]), r, start)
    ensures Calls(c, run[..q]) < Exec(c, run[..p]).calls
    decreases p
  {
    hide Next, Record, HistoryOf, Exec, Enabled, Waits;
    OneStep(c, run, p - 1);
    CallsCounted(c, run[..q]);
    if p == q + 1 {
      CallWaits(c, Exec(c, run[..q]), HistoryOf(c, run[..q]), client, r);
      CallsGrow(c, Exec(c, run[..q]), run[q]);
    } else {
      WaitsUntil(c, run, q, p - 1, client, r);
      assert Fires(c, run, p - 1) ==> run[p - 1] != Return(client);
      StillWaits(c, Exec(c, run[..p - 1]), HistoryOf(c, run[..p - 1]), run[p - 1], client, Calls(c, run[..q]), r,
                 |HistoryOf(c, run[..q]).log|);
    }
  }

  lemma CallsGrow(c: Config, e: Engine, step: Step)
    requires c.shards > 0 && Shaped(c, e) && step.Call? && Enabled(c, e, step)
    ensures Next(c, e, step).calls == e.calls + 1
  {
    hide ShardOf;
  }

  /** What a client is handed when it returns. */
  function Handed(c: Config, e: Engine, client: nat): Reply
    requires c.shards > 0 && Shaped(c, e) && Enabled(c, e, Return(client))
  {
    e.answers[e.waiting[client]]
  }

  lemma AnswerOfRequest(c: Config, e: Engine, h: History, client: nat, id: nat, r: Request, start: nat) returns (i: nat)
    requires c.shards > 0 && Shaped(c, e) && Inv(c, e, h) && Waits(e, h, client, id, r, start)
    requires Enabled(c, e, Return(client))
    ensures start <= i < |h.log| && h.log[i].ticket == Ticket(id, r)
    ensures Handed(c, e, client) == h.log[i].reply == Effect(Sequential(h.log[..i]), h.log[i]).reply
    ensures forall k :: 0 <= k < |h.log| && h.log[k].ticket.id == id ==> k == i
  {
    hide Partitioned, QueuesOk, ReturnsOk, IdsOk, StagesOk, Sequential, Effect;
    assert AnsweredBy(h, id, e.answers[id]);
    i := h.stage[id].at;
    assert Closed(h, i);
    forall k | 0 <= k < |h.log| && h.log[k].ticket.id == id ensures k == i {
      assert Closed(h, k);
    }
  }

  /** A client calls at step `q` and returns at step `p`. What it is handed is the answer to that
      request: the log has exactly one act with the number of that call, it carries out the request
      as called, it was added after `q` and before `p`, and its answer is the one a single map gives
      there. After the return the client can call again. */
  lemma OwnAnswer(c: Config, run: seq<Step>, q: nat, p: nat, client: nat, r: Request) returns (i: nat)
    requires ValidConfig(c) && q < p < |run|
    requires Fires(c, run, q) && run[q] == Call(client, r) && Fires(c, run, p) && run[p] == Return(client)
    requires forall k :: q < k < p && Fires(c, run, k) ==> run[k] != Return(client)
    ensures var log := HistoryOf(c, run[..p]).log;
      && |HistoryOf(c, run[..q]).log| <= i < |log| && log[i].ticket == Ticket(Calls(c, run[..q]), r)
      && Handed(c, Exec(c, run[..p]), client) == log[i].reply == Effect(Sequential(log[..i]), log[i]).reply
      && (forall k :: 0 <= k < |log| && log[k].ticket.id == Calls(c, run[..q]) ==> k == i)
    ensures forall r' :: Enabled(c, Exec(c, run[..p + 1]), Call(client, r'))
  {
    hide HistoryOf, Exec, Waits, Inv, Sequential, Effect, Next;
    RunInv(c, run[..p]);
    WaitsUntil(c, run, q, p, client, r);
    i := AnswerOfRequest(c, Exec(c, run[..p]), HistoryOf(c, run[..p]), client, Calls(c, run[..q]), r,
                         |HistoryOf(c, run[..q]).log|);
    OneStep(c, run, p);
    ReturnFrees(c, Exec(c, run[..p]), client);
  }

  lemma ReturnFrees(c: Config, e: Engine, client: nat)
    requires c.shards > 0 && Shaped(c, e) && Enabled(c, e, Return(client))
    ensures client !in Next(c, e, Return(client)).waiting
  {
  }

  // ----- Nobody waits for good

  /** Who waits, waits for a request that was made, and what was carried out is answered. */
  ghost predicate Accounted(e: Engine, h: History) {
    && (forall client :: client in e.waiting ==> e.waiting[client] < e.calls)
    && (forall id :: id in h.stage && h.stage[id].Carried? ==> id in e.answers)
  }

  lemma {:induction false} RunServes(c: Config, run: seq<Step>)
    requires c.shards > 0
    ensures Accounted(Exec(c, run), HistoryOf(c, run))
    decreases |run|
  {
    if run != [] {
      RunServes(c, run[..|run| - 1]);
      StepServes(c, Exec(c, run[..|run| - 1]), HistoryOf(c, run[..|run| - 1]), run[|run| - 1]);
    }
  }

  lemma StepServes(c: Config, e: Engine, h: History, step: Step)
    requires c.shards > 0 && Shaped(c, e) && Accounted(e, h)
    ensures Accounted(Next(c, e, step), Record(c, e, h, step))
  {
    hide ShardOf, Done;
  }

  /** The worker carries out the request it holds, if any, with the clock at zero and nothing evicted. */
  function Finish(e: Engine, s: nat): seq<Step>
    requires s < |e.held|
  {
    if e.held[s].Some? then [Carry(s, 0, 0, {})] else []
  }

  lemma More(c: Config, run: seq<Step>, step: Step)
    requires c.shards > 0
    ensures Exec(c, run + [step]) == Next(c, Exec(c, run), step)
  {
    hide Next;
    assert (run + [step])[..|run|] == run;
  }

  /** After that its hands are free, the queues are as they were, and a request it held is answered. */
  lemma Finished(c: Config, run: seq<Step>, s: nat)
    requires c.shards > 0 && s < c.shards
    ensures var e := Exec(c, run);
      var e' := Exec(c, run + Finish(e, s));
      && e'.held[s].None? && e'.queues == e.queues && e'.waiting == e.waiting
      && (forall id :: id in e.answers ==> id in e'.answers)
      && (e.held[s].Some? ==> e.held[s].value.id in e'.answers)
  {
    hide Exec, Done;
    var e := Exec(c, run);
    if e.held[s].Some? {
      More(c, run, Carry(s, 0, 0, {}));
    } else {
      assert run + Finish(e, s) == run;
    }
  }

  /** A request in a queue is answered after the worker has served all in front of it. */
  lemma {:induction false} Serve(c: Config, run: seq<Step>, s: nat, i: nat) returns (more: seq<Step>)
    requires c.shards > 0 && s < c.shards && i < |Exec(c, run).queues[s]|
    ensures Exec(c, run).queues[s][i].id in Exec(c, run + more).answers
    ensures Exec(c, run + more).waiting == Exec(c, run).waiting
    decreases i
  {
    hide Exec, Done, Finish;
    var e := Exec(c, run);
    var run1 := run + Finish(e, s);
    Finished(c, run, s);
    var run2 := run1 + [Take(s)];
    More(c, run1, Take(s));
    var e2 := Exec(c, run2);
    if i == 0 {
      Finished(c, run2, s);
      more := Finish(e, s) + [Take(s)] + Finish(e2, s);
      assert run + more == run2 + Finish(e2, s);
    } else {
      var rest := Serve(c, run2, s, i - 1);
      more := Finish(e, s) + [Take(s)] + rest;
      assert run + more == run2 + rest;
    }
  }

  /** After every run, for every client that waits, the workers can go on so that it gets its answer. */
  lemma CanReturn(c: Config, run: seq<Step>, client: nat) returns (more: seq<Step>)
    requires ValidConfig(c) && client in Exec(c, run).waiting
    ensures Enabled(c, Exec(c, run + more), Return(client))
  {
    hide Exec, HistoryOf, Inv, Finish;
    var e, h := Exec(c, run), HistoryOf(c, run);
    var id := e.waiting[client];
    RunServes(c, run);
    NothingLost(c, run, id);
    match h.stage[id]
    case Queued(s) =>
      var i :| 0 <= i < |e.queues[s]| && e.queues[s][i].id == id;
      more := Serve(c, run, s, i);
    case Held(s) =>
      Finished(c, run, s);
      more := Finish(e, s);
    case Carried(_) =>
      more := [];
      assert run + more == run;
  }
}
