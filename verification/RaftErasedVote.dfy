/** The code as written erases a node's vote when an append of the same term arrives. In a cluster
    of four or more nodes this gives a run with two leaders in one term that commit different
    commands at the same index; in smaller clusters, or with the vote kept, no run does. */
module RaftErasedVote {
  import opened RaftNode
  import opened RaftCluster
  import opened RaftSafety

  ghost predicate RivalConfig(cfg: Config, a: Id, e: Id) {
    ValidConfig(cfg) && !cfg.keepVote && |cfg.servers| >= 4 && a in cfg.servers && e in cfg.servers && a != e
  }

  /** Everyone but the two rivals. */
  ghost function Voters(cfg: Config, a: Id, e: Id): set<Id> {
    cfg.servers - {a, e}
  }

  ghost function Fresh(cfg: Config, m: Id): Node {
    NewNode(m, cfg.servers - {m})
  }

  ghost function Voted(cfg: Config, m: Id, choice: Id): Node {
    Fresh(cfg, m).(currentTerm := 1, votedFor := choice)
  }

  ghost function Canvass(x: Id): Message {
    VoteRequest(VoteArgs(1, x, 0, 0))
  }

  ghost predicate LeadsEmpty(cfg: Config, n: Node, x: Id) {
    && n.id == x && n.peers == cfg.servers - {x} && n.role == Leader && n.currentTerm == 1
    && n.log == [] && n.commitIndex == n.lastApplied == 0
    && forall p :: p in n.peers ==> Lookup(n.nextIndex, p) == 1 && Lookup(n.matchIndex, p) == 0
  }

  /** A candidate of term 1 that has counted the votes `v`. */
  ghost predicate Counting(cfg: Config, n: Node, x: Id, v: set<Id>) {
    if Enough(|v|, cfg.servers - {x}) then LeadsEmpty(cfg, n, x)
    else n == StartElection(Fresh(cfg, x)).(votes := v)
  }

  lemma ExecOne(cfg: Config, run: seq<Step>, step: Step)
    ensures Exec(cfg, run + [step]) == Next(cfg, Exec(cfg, run), step)
  {
    assert (run + [step])[..|run|] == run;
  }

  /** What one exchange between two nodes leaves alone. */
  ghost predicate OnlyTouches(c: Cluster, c': Cluster, touched: set<Id>) {
    && c'.nodes.Keys == c.nodes.Keys && c.msgs <= c'.msgs
    && forall id :: id in c.nodes && id !in touched ==> c'.nodes[id] == c.nodes[id]
  }

  /** A voter free to vote grants the candidate's request and the candidate counts the vote. */
  lemma Grants(cfg: Config, run: seq<Step>, x: Id, m: Id, v: set<Id>) returns (run': seq<Step>)
    requires !cfg.keepVote && x != m && m !in v && m in cfg.servers && x in cfg.servers && NoVote !in cfg.servers
    requires var c := Exec(cfg, run);
             && {m, x} <= c.nodes.Keys && Canvass(x) in c.msgs
             && (c.nodes[m] == Fresh(cfg, m) || c.nodes[m] == Voted(cfg, m, NoVote))
             && Counting(cfg, c.nodes[x], x, v)
    ensures var c, c' := Exec(cfg, run), Exec(cfg, run');
            && OnlyTouches(c, c', {m, x}) && c'.nodes[m] == Voted(cfg, m, x)
            && Counting(cfg, c'.nodes[x], x, v + {m})
  {
    hide *;
    var c := Exec(cfg, run);
    var s1, s2 := Deliver(m, Canvass(x), {}), Deliver(x, Granted(x, m), {});
    ExecOne(cfg, run, s1);
    GrantOne(cfg, c, x, m);
    var c1 := Exec(cfg, run + [s1]);
    OthersAlone(c, c1, {m}, x);
    ExecOne(cfg, run + [s1], s2);
    CountOne(cfg, c1, x, m, v);
    run' := run + [s1] + [s2];
    TouchesBoth(c, c1, Exec(cfg, run'), m, x);
  }

  function Granted(x: Id, m: Id): Message {
    VoteReply(m, x, 1, VoteResult(1, true))
  }

  lemma GrantOne(cfg: Config, c: Cluster, x: Id, m: Id)
    requires !cfg.keepVote && m in c.nodes && Canvass(x) in c.msgs && x != NoVote && x != m && x in cfg.servers
    requires c.nodes[m] == Fresh(cfg, m) || c.nodes[m] == Voted(cfg, m, NoVote)
    ensures var c' := Next(cfg, c, Deliver(m, Canvass(x), {}));
            OnlyTouches(c, c', {m}) && c'.nodes[m] == Voted(cfg, m, x) && Granted(x, m) in c'.msgs
  {
    var (n, r) := HandleRequestVote(c.nodes[m], VoteArgs(1, x, 0, 0), false);
    assert n == Voted(cfg, m, x) && r == VoteResult(1, true);
  }

  lemma CountOne(cfg: Config, c: Cluster, x: Id, m: Id, v: set<Id>)
    requires !cfg.keepVote && x in c.nodes && Granted(x, m) in c.msgs && m !in v && Counting(cfg, c.nodes[x], x, v)
    ensures var c' := Next(cfg, c, Deliver(x, Granted(x, m), {}));
            OnlyTouches(c, c', {x}) && Counting(cfg, c'.nodes[x], x, v + {m})
  {
    assert |v + {m}| == |v| + 1;
  }

  lemma OthersAlone(c: Cluster, c': Cluster, touched: set<Id>, id: Id)
    requires OnlyTouches(c, c', touched) && id in c.nodes && id !in touched
    ensures id in c'.nodes && c'.nodes[id] == c.nodes[id]
  {
  }

  lemma TouchesBoth(c: Cluster, c1: Cluster, c2: Cluster, m: Id, x: Id)
    requires OnlyTouches(c, c1, {m}) && OnlyTouches(c1, c2, {x}) && m in c.nodes && m != x
    ensures OnlyTouches(c, c2, {m, x}) && m in c1.nodes && m in c2.nodes && c2.nodes[m] == c1.nodes[m]
  {
  }

  ghost function Before(cfg: Config, m: Id, earlier: Id): Node {
    if earlier == NoVote then Fresh(cfg, m) else Voted(cfg, m, earlier)
  }

  /** Both rivals have asked everyone for votes. The voters in `rest` have voted for `earlier`
      at most, the others for `x`, who has counted their votes. */
  ghost predicate Electing(cfg: Config, c: Cluster, x: Id, y: Id, rest: set<Id>, earlier: Id) {
    && c.nodes.Keys == cfg.servers && x in cfg.servers && Canvass(x) in c.msgs && Canvass(y) in c.msgs
    && rest <= Voters(cfg, x, y)
    && (forall m :: m in Voters(cfg, x, y) ==>
          c.nodes[m] == if m in rest then Before(cfg, m, earlier) else Voted(cfg, m, x))
    && Counting(cfg, c.nodes[x], x, {x} + (Voters(cfg, x, y) - rest))
  }

  lemma VotersSize(cfg: Config, a: Id, e: Id)
    requires RivalConfig(cfg, a, e)
    ensures Enough(|{a} + Voters(cfg, a, e)|, cfg.servers - {a})
    ensures Enough(1 + |Voters(cfg, a, e)|, cfg.servers - {a})
  {
    assert cfg.servers == Voters(cfg, a, e) + {a, e};
    assert |cfg.servers| == |Voters(cfg, a, e)| + 2;
    assert |cfg.servers - {a}| == |cfg.servers| - 1;
    assert |{a} + Voters(cfg, a, e)| == 1 + |Voters(cfg, a, e)|;
  }

  lemma OpeningRun(cfg: Config, a: Id, e: Id) returns (run: seq<Step>)
    requires RivalConfig(cfg, a, e)
    ensures Electing(cfg, Exec(cfg, run), a, e, Voters(cfg, a, e), NoVote)
    ensures Exec(cfg, run).nodes[e] == StartElection(Fresh(cfg, e))
  {
    ExecNone(cfg);
    hide Exec, Electing, Counting;
    ExecOne(cfg, [], Timeout(a));
    ExecOne(cfg, [Timeout(a)], Timeout(e));
    run := [Timeout(a)] + [Timeout(e)];
    assert [] + [Timeout(a)] == [Timeout(a)];
    FirstCount(cfg, a, e, StartElection(Fresh(cfg, a)));
    assert Exec(cfg, run).nodes[a] == StartElection(Fresh(cfg, a));
    OpeningElects(cfg, Exec(cfg, run), a, e);
  }

  lemma ExecNone(cfg: Config)
    ensures Exec(cfg, []) == Init(cfg)
  {
  }

  /** A candidate starts out with its own vote, which is not enough. */
  lemma FirstCount(cfg: Config, a: Id, e: Id, n: Node)
    requires RivalConfig(cfg, a, e) && n == StartElection(Fresh(cfg, a))
    ensures Counting(cfg, n, a, {a} + (Voters(cfg, a, e) - Voters(cfg, a, e)))
  {
    hide LeadsEmpty;
    assert |{a}| == 1 && {a} + (Voters(cfg, a, e) - Voters(cfg, a, e)) == {a};
    assert |cfg.servers - {a}| == |cfg.servers| - 1;
  }

  lemma OpeningElects(cfg: Config, c: Cluster, a: Id, e: Id)
    requires RivalConfig(cfg, a, e) && c.nodes.Keys == cfg.servers && Canvass(a) in c.msgs && Canvass(e) in c.msgs
    requires forall m :: m in Voters(cfg, a, e) ==> c.nodes[m] == Fresh(cfg, m)
    requires Counting(cfg, c.nodes[a], a, {a} + (Voters(cfg, a, e) - Voters(cfg, a, e)))
    ensures Electing(cfg, c, a, e, Voters(cfg, a, e), NoVote)
  {
    hide Counting, Fresh, Voted, Canvass;
  }

  lemma OneMoreVote(cfg: Config, c: Cluster, c': Cluster, x: Id, y: Id, rest: set<Id>, earlier: Id, m: Id)
    requires RivalConfig(cfg, x, y) && Electing(cfg, c, x, y, rest, earlier) && m in rest
    requires OnlyTouches(c, c', {m, x}) && c'.nodes[m] == Voted(cfg, m, x)
    requires Counting(cfg, c'.nodes[x], x, {x} + (Voters(cfg, x, y) - rest) + {m})
    ensures Electing(cfg, c', x, y, rest - {m}, earlier) && c'.nodes[y] == c.nodes[y]
  {
    hide Counting, Voted, Fresh, Before, Canvass;
    assert {x} + (Voters(cfg, x, y) - rest) + {m} == {x} + (Voters(cfg, x, y) - (rest - {m}));
  }

  lemma NextVoter(cfg: Config, c: Cluster, x: Id, y: Id, rest: set<Id>, earlier: Id, m: Id)
    requires RivalConfig(cfg, x, y) && Electing(cfg, c, x, y, rest, earlier) && m in rest
    ensures m != x && m != y && m in cfg.servers && {m, x, y} <= c.nodes.Keys
    ensures m !in {x} + (Voters(cfg, x, y) - rest)
    ensures Canvass(x) in c.msgs && c.nodes[m] == Before(cfg, m, earlier)
    ensures Counting(cfg, c.nodes[x], x, {x} + (Voters(cfg, x, y) - rest))
  {
  }

  /** The first rival collects every voter's vote. */
  lemma {:induction false} FirstElection(cfg: Config, run: seq<Step>, a: Id, e: Id, rest: set<Id>)
    returns (run': seq<Step>)
    requires RivalConfig(cfg, a, e) && Electing(cfg, Exec(cfg, run), a, e, rest, NoVote)
    ensures Electing(cfg, Exec(cfg, run'), a, e, {}, NoVote)
    ensures Exec(cfg, run').nodes[e] == Exec(cfg, run).nodes[e]
    decreases rest
  {
    hide Exec, Electing, Counting, Voted, OnlyTouches;
    if rest == {} {
      run' := run;
    } else {
      var m :| m in rest;
      NextVoter(cfg, Exec(cfg, run), a, e, rest, NoVote, m);
      var next := Grants(cfg, run, a, m, {a} + (Voters(cfg, a, e) - rest));
      OneMoreVote(cfg, Exec(cfg, run), Exec(cfg, next), a, e, rest, NoVote, m);
      run' := FirstElection(cfg, next, a, e, rest - {m});
    }
  }

  /** A heartbeat from the leader erases a voter's vote. */
  lemma Erases(cfg: Config, run: seq<Step>, a: Id, m: Id) returns (run': seq<Step>)
    requires !cfg.keepVote && a != m && {a, m} <= cfg.servers
    requires var c := Exec(cfg, run);
             {a, m} <= c.nodes.Keys && LeadsEmpty(cfg, c.nodes[a], a) && c.nodes[m] == Voted(cfg, m, a)
    ensures OnlyTouches(Exec(cfg, run), Exec(cfg, run'), {m})
    ensures Exec(cfg, run').nodes[m] == Voted(cfg, m, NoVote)
  {
    var c := Exec(cfg, run);
    var heartbeat := AppendRequest(m, AppendArgsFor(c.nodes[a], m));
    var s1, s2 := SendAppend(a, m), Deliver(m, heartbeat, {});
    ExecOne(cfg, run, s1);
    ExecOne(cfg, run + [s1], s2);
    run' := run + [s1] + [s2];
    assert heartbeat.append == AppendArgs(1, a, 0, 0, [], 0);
    assert heartbeat in Exec(cfg, run + [s1]).msgs;
  }

  lemma TouchesChains(c: Cluster, c': Cluster, c'': Cluster, m: Id, e: Id)
    requires OnlyTouches(c, c', {m}) && OnlyTouches(c', c'', {m, e})
    ensures OnlyTouches(c, c'', {m, e})
  {
  }

  /** The second rival then collects every voter's vote in the same term. */
  lemma {:induction false} SecondElection(cfg: Config, run: seq<Step>, a: Id, e: Id, rest: set<Id>)
    returns (run': seq<Step>)
    requires RivalConfig(cfg, a, e) && Electing(cfg, Exec(cfg, run), e, a, rest, a)
    requires LeadsEmpty(cfg, Exec(cfg, run).nodes[a], a)
    ensures Electing(cfg, Exec(cfg, run'), e, a, {}, a)
    ensures LeadsEmpty(cfg, Exec(cfg, run').nodes[a], a)
    decreases rest
  {
    hide Exec, Electing, Counting, LeadsEmpty, Voted;
    if rest == {} {
      run' := run;
    } else {
      var m :| m in rest;
      NextVoter(cfg, Exec(cfg, run), e, a, rest, a, m);
      var mid := Erases(cfg, run, a, m);
      var next := Grants(cfg, mid, e, m, {e} + (Voters(cfg, e, a) - rest));
      TouchesChains(Exec(cfg, run), Exec(cfg, mid), Exec(cfg, next), m, e);
      OneMoreVote(cfg, Exec(cfg, run), Exec(cfg, next), e, a, rest, a, m);
      run' := SecondElection(cfg, next, a, e, rest - {m});
    }
  }

  /** A run after which both rivals lead term 1 with empty logs. */
  lemma TwoLeaders(cfg: Config, a: Id, e: Id) returns (run: seq<Step>)
    requires RivalConfig(cfg, a, e)
    ensures var c := Exec(cfg, run);
            && c.nodes.Keys == cfg.servers
            && LeadsEmpty(cfg, c.nodes[a], a) && LeadsEmpty(cfg, c.nodes[e], e)
            && forall m :: m in Voters(cfg, a, e) ==> c.nodes[m] == Voted(cfg, m, e)
  {
    hide Exec, LeadsEmpty, Electing;
    var opening := OpeningRun(cfg, a, e);
    var first := FirstElection(cfg, opening, a, e, Voters(cfg, a, e));
    HalfWay(cfg, Exec(cfg, first), a, e);
    run := SecondElection(cfg, first, a, e, Voters(cfg, e, a));
    Elected(cfg, Exec(cfg, run), e, a, a);
  }

  lemma Elected(cfg: Config, c: Cluster, x: Id, y: Id, earlier: Id)
    requires RivalConfig(cfg, x, y) && Electing(cfg, c, x, y, {}, earlier)
    ensures c.nodes.Keys == cfg.servers && LeadsEmpty(cfg, c.nodes[x], x)
    ensures forall m :: m in Voters(cfg, y, x) ==> c.nodes[m] == Voted(cfg, m, x)
  {
    VotersSize(cfg, x, y);
    assert {x} + (Voters(cfg, x, y) - {}) == {x} + Voters(cfg, x, y);
    assert Voters(cfg, x, y) == Voters(cfg, y, x);
  }

  lemma HalfWay(cfg: Config, c: Cluster, a: Id, e: Id)
    requires RivalConfig(cfg, a, e) && Electing(cfg, c, a, e, {}, NoVote)
    requires c.nodes[e] == StartElection(Fresh(cfg, e))
    ensures Electing(cfg, c, e, a, Voters(cfg, e, a), a) && LeadsEmpty(cfg, c.nodes[a], a)
  {
    hide LeadsEmpty, Counting, StartElection, Fresh, Voted;
    Elected(cfg, c, a, e, NoVote);
    FirstCount(cfg, e, a, c.nodes[e]);
  }

  // ----- Both leaders commit

  /** A leader of term 1 with one entry that the nodes in `acked` have acknowledged. */
  ghost predicate Replicating(cfg: Config, n: Node, x: Id, command: string, acked: set<Id>) {
    && n.id == x && n.peers == cfg.servers - {x} && n.role == Leader && n.currentTerm == 1
    && n.log == [Entry(1, 1, command)] && acked <= n.peers
    && (forall p :: p in n.peers ==>
          if p in acked then Lookup(n.matchIndex, p) == 1
          else Lookup(n.nextIndex, p) == 1 && Lookup(n.matchIndex, p) == 0)
    && (if Enough(1 + |acked|, n.peers) then n.commitIndex == 1 && ApplyMsg(1, command) in n.applied
        else n.commitIndex == n.lastApplied == 0)
  }

  /** A follower of term 1 with at most one entry, made in that term. */
  ghost predicate Following(cfg: Config, n: Node, m: Id) {
    && n.id == m && n.peers == cfg.servers - {m} && n.currentTerm == 1
    && (n.log == [] || (|n.log| == 1 && n.log[0].term == 1)) && n.commitIndex <= |n.log|
  }

  /** The follower accepts the leader's entry, whatever it holds there already, and the leader
      counts it. */
  lemma Replicates(cfg: Config, run: seq<Step>, x: Id, command: string, m: Id, acked: set<Id>)
    returns (run': seq<Step>)
    requires !cfg.keepVote && m != x && m !in acked && {m, x} <= cfg.servers
    requires var c := Exec(cfg, run);
             {m, x} <= c.nodes.Keys && Following(cfg, c.nodes[m], m) && Replicating(cfg, c.nodes[x], x, command, acked)
    ensures var c, c' := Exec(cfg, run), Exec(cfg, run');
            && OnlyTouches(c, c', {m, x}) && Following(cfg, c'.nodes[m], m)
            && Replicating(cfg, c'.nodes[x], x, command, acked + {m})
  {
    hide Exec, HandleAppendEntries, HandleAppendReply;
    var c := Exec(cfg, run);
    var req := AppendArgsFor(c.nodes[x], m);
    var reply := AppendReply(m, x, 1, 1, AppendResult(1, true));
    var s1, s2, s3 := SendAppend(x, m), Deliver(m, AppendRequest(m, req), {}), Deliver(x, reply, {1});
    ExecOne(cfg, run, s1);
    ExecOne(cfg, run + [s1], s2);
    ExecOne(cfg, run + [s1] + [s2], s3);
    run' := run + [s1] + [s2] + [s3];
    FollowerAccepts(cfg, c.nodes[m], m, req);
    LeaderCounts(cfg, c.nodes[x], x, command, m, acked);
    var c1, c2 := Exec(cfg, run + [s1]), Exec(cfg, run + [s1] + [s2]);
    assert c1.nodes == c.nodes && AppendRequest(m, req) in c1.msgs;
    assert reply in c2.msgs;
  }

  lemma FollowerAccepts(cfg: Config, n: Node, m: Id, req: AppendArgs)
    requires Following(cfg, n, m)
    requires req.term == 1 && req.prevIndex == 0 && |req.entries| == 1 && req.entries[0].term == 1
    ensures var (n', r) := HandleAppendEntries(n, req, false, {});
            Following(cfg, n', m) && r == AppendResult(1, true)
  {
    assert req.entries[1..] == [];
    assert Merge(n.log, 0, req.entries) == MergeOne(n.log, 0, req.entries[0]);
  }

  lemma LeaderCounts(cfg: Config, n: Node, x: Id, command: string, m: Id, acked: set<Id>)
    requires Replicating(cfg, n, x, command, acked) && m in n.peers && m !in acked
    ensures Replicating(
              cfg, HandleAppendReply(n, m, 1, 1, AppendResult(1, true), false, {1}), x, command, acked + {m})
  {
    hide UpdateCommitIndex, Enough, Replicas;
    var g := n.(matchIndex := n.matchIndex[m := 1], nextIndex := n.nextIndex[m := 2]);
    AckedReplicas(g, acked + {m});
    OneMoreIsEnough(n.peers, acked, m);
    CommitOnly(g);
  }

  lemma AckedReplicas(g: Node, acked: set<Id>)
    requires acked <= g.peers
    requires forall p :: p in g.peers ==> Lookup(g.matchIndex, p) == if p in acked then 1 else 0
    ensures Replicas(g, 1) == acked
  {
  }

  lemma OneMoreIsEnough(peers: set<Id>, acked: set<Id>, m: Id)
    requires m !in acked
    ensures Enough(1 + |acked|, peers) ==> Enough(1 + |acked + {m}|, peers)
  {
    assert |acked + {m}| == |acked| + 1;
  }

  /** Updating the commit index of a log with a single entry. */
  lemma CommitOnly(g: Node)
    requires |g.log| == 1 && g.commitIndex <= 1 && (g.commitIndex == 0 ==> g.lastApplied == 0)
    ensures UpdateCommitIndex(g, {1}) ==
      if g.commitIndex == 0 && Committable(g, 1)
      then g.(commitIndex := 1, lastApplied := 1, applied := g.applied + [ApplyMsg(1, g.log[0].command)])
      else g
  {
    hide Replicas, Enough;
    if g.commitIndex == 0 {
      assert NewCommitIndex(g, 0) == 0;
      assert Emit(g.log, 0, 1, {1}) == Emit(g.log, 0, 0, {1}) + [ApplyMsg(1, g.log[0].command)];
    }
  }

  lemma {:induction false} CommitEverywhere(
    cfg: Config, run: seq<Step>, x: Id, y: Id, command: string, acked: set<Id>) returns (run': seq<Step>)
    requires RivalConfig(cfg, x, y) && acked <= Voters(cfg, x, y)
    requires var c := Exec(cfg, run);
             && c.nodes.Keys == cfg.servers && Replicating(cfg, c.nodes[x], x, command, acked)
             && forall m :: m in Voters(cfg, x, y) ==> Following(cfg, c.nodes[m], m)
    ensures var c, c' := Exec(cfg, run), Exec(cfg, run');
            && c'.nodes.Keys == cfg.servers && ApplyMsg(1, command) in c'.nodes[x].applied
            && c'.nodes[y] == c.nodes[y]
            && forall m :: m in Voters(cfg, x, y) ==> Following(cfg, c'.nodes[m], m)
    decreases Voters(cfg, x, y) - acked
  {
    if acked == Voters(cfg, x, y) {
      VotersSize(cfg, x, y);
      run' := run;
    } else {
      hide Exec, Replicating, Following;
      assert exists m :: m in Voters(cfg, x, y) && m !in acked by {
        assert acked != Voters(cfg, x, y);
      }
      var m :| m in Voters(cfg, x, y) && m !in acked;
      var next := Replicates(cfg, run, x, command, m, acked);
      run' := CommitEverywhere(cfg, next, x, y, command, acked + {m});
    }
  }

  lemma ProposeFirst(cfg: Config, n: Node, x: Id, command: string)
    requires x in cfg.servers && |cfg.servers| >= 4 && LeadsEmpty(cfg, n, x)
    ensures Replicating(cfg, Propose(n, command), x, command, {})
  {
    assert |cfg.servers - {x}| == |cfg.servers| - 1;
  }

  lemma VotedFollows(cfg: Config, m: Id, choice: Id)
    ensures Following(cfg, Voted(cfg, m, choice), m)
  {
  }

  /** A run after which the rivals have applied different commands at index 1. */
  lemma TwoCommands(cfg: Config, a: Id, e: Id) returns (run: seq<Step>)
    requires RivalConfig(cfg, a, e)
    ensures var c := Exec(cfg, run);
            && c.nodes.Keys == cfg.servers
            && ApplyMsg(1, "x") in c.nodes[a].applied && ApplyMsg(1, "y") in c.nodes[e].applied
  {
    hide Exec, LeadsEmpty, Replicating, Following, Propose, Voted;
    var elected := TwoLeaders(cfg, a, e);
    var start := Exec(cfg, elected);
    var s1, s2 := ClientPropose(a, "x"), ClientPropose(e, "y");
    ExecOne(cfg, elected, s1);
    ExecOne(cfg, elected + [s1], s2);
    var proposed := elected + [s1] + [s2];
    var c := Exec(cfg, proposed);
    ProposeFirst(cfg, start.nodes[a], a, "x");
    ProposeFirst(cfg, start.nodes[e], e, "y");
    forall m | m in Voters(cfg, a, e) ensures Following(cfg, c.nodes[m], m) {
      VotedFollows(cfg, m, e);
    }
    var first := CommitEverywhere(cfg, proposed, a, e, "x", {});
    assert Voters(cfg, a, e) == Voters(cfg, e, a);
    run := CommitEverywhere(cfg, first, e, a, "y", {});
  }

  // ----- Exactly when the cluster is safe

  lemma PickRivals(cfg: Config) returns (a: Id, e: Id)
    requires ValidConfig(cfg) && !cfg.keepVote && |cfg.servers| >= 4
    ensures RivalConfig(cfg, a, e)
  {
    a :| a in cfg.servers;
    assert |cfg.servers - {a}| == |cfg.servers| - 1;
    e :| e in cfg.servers - {a};
  }

  /** A cluster has at most one leader per term in every run if and only if it keeps votes or
      has at most three nodes. */
  lemma ElectionSafetyExactly(cfg: Config)
    requires ValidConfig(cfg)
    ensures (forall run :: ElectionSafe(cfg, run)) <==> cfg.keepVote || |cfg.servers| <= 3
  {
    if cfg.keepVote || |cfg.servers| <= 3 {
      forall run ensures ElectionSafe(cfg, run) {
        OneLeaderPerTerm(cfg, run);
      }
    } else {
      var a, e := PickRivals(cfg);
      var run := TwoLeaders(cfg, a, e);
      assert run[..|run|] == run;
      assert LeaderAt(cfg, run, |run|, a, 1) && LeaderAt(cfg, run, |run|, e, 1);
      assert !ElectionSafe(cfg, run);
    }
  }

  /** A cluster applies at most one command per index in every run if and only if it keeps votes
      or has at most three nodes. */
  lemma StateMachineSafetyExactly(cfg: Config)
    requires ValidConfig(cfg)
    ensures (forall run :: StateMachineSafe(cfg, run)) <==> cfg.keepVote || |cfg.servers| <= 3
  {
    if cfg.keepVote || |cfg.servers| <= 3 {
      forall run ensures StateMachineSafe(cfg, run) {
        OneCommandPerIndex(cfg, run);
      }
    } else {
      var a, e := PickRivals(cfg);
      var run := TwoCommands(cfg, a, e);
      assert run[..|run|] == run;
      assert AppliedAt(cfg, run, |run|, a, ApplyMsg(1, "x")) && AppliedAt(cfg, run, |run|, e, ApplyMsg(1, "y"));
      assert !StateMachineSafe(cfg, run);
    }
  }
}
