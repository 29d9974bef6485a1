/** The cluster never gets stuck: whatever has happened, it can go on to elect a leader, commit a new
    command and apply it everywhere, if it has at least two nodes. A single node never leads. */
module RaftProgress {
  import opened RaftNode
  import opened RaftCluster
  import opened RaftHistory
  import opened RaftLogs
  import opened RaftSteps
  import opened RaftHandlers
  import S = RaftSafety
  import A = RaftApplied

  lemma More(cfg: Config, run: seq<Step>, step: Step)
    ensures Exec(cfg, run + [step]) == Next(cfg, Exec(cfg, run), step)
  {
    hide Next;
    assert (run + [step])[..|run|] == run;
  }

  lemma Nodes(cfg: Config, run: seq<Step>)
    requires SafeConfig(cfg)
    ensures NodesInv(cfg, Exec(cfg, run))
  {
    hide HistoryInv, NodeInv, MessageInv, NodesInv;
    RunInv(cfg, run);
  }

  // ----- Electing the node with the best log

  /** Some node's log is at least as good as all the others. */
  lemma {:induction false} BestLog(nodes: map<Id, Node>, ids: set<Id>) returns (x: Id)
    requires ids != {} && ids <= nodes.Keys
    ensures x in ids && forall y :: y in ids ==> UpToDate(|nodes[x].log|, LastTerm(nodes[x].log), nodes[y].log)
    decreases ids
  {
    hide UpToDate;
    var z :| z in ids;
    var rest := ids - {z};
    assert ids == rest + {z};
    BetterLogs(nodes[z].log, [], []);
    x := z;
    if rest != {} {
      var y := BestLog(nodes, rest);
      BetterLogs(nodes[z].log, nodes[y].log, []);
      if UpToDate(|nodes[z].log|, LastTerm(nodes[z].log), nodes[y].log) {
        forall w | w in rest ensures UpToDate(|nodes[z].log|, LastTerm(nodes[z].log), nodes[w].log) {
          BetterLogs(nodes[z].log, nodes[y].log, nodes[w].log);
        }
      } else {
        x := y;
      }
    }
  }

  lemma {:induction false} HighestTerm(nodes: map<Id, Node>, ids: set<Id>) returns (t: nat)
    requires ids <= nodes.Keys
    ensures forall y :: y in ids ==> nodes[y].currentTerm <= t
    decreases ids
  {
    t := 0;
    if ids != {} {
      var z :| z in ids;
      t := HighestTerm(nodes, ids - {z});
      if nodes[z].currentTerm > t {
        t := nodes[z].currentTerm;
      }
    }
  }

  /** The node has asked for votes in a term above `t` and has only its own. */
  ghost predicate Campaigns(c: Cluster, c': Cluster, x: Id, t: nat) {
    && x in c.nodes && x in c'.nodes && c'.nodes == c.nodes[x := c'.nodes[x]]
    && var n, n' := c.nodes[x], c'.nodes[x];
       && n' == n.(role := Candidate, currentTerm := n'.currentTerm, votedFor := n.id, votes := {n.id})
       && n'.currentTerm > t && VoteRequest(VoteArgsOf(n')) in c'.msgs
  }

  lemma TimeoutCampaigns(cfg: Config, c: Cluster, x: Id, t: nat)
    requires x in c.nodes && c.nodes[x].currentTerm >= t
    ensures Campaigns(c, Next(cfg, c, Timeout(x)), x, t)
  {
  }

  lemma CampaignsChain(c: Cluster, c': Cluster, c'': Cluster, x: Id, s: nat, t: nat)
    requires Campaigns(c, c', x, s) && Campaigns(c', c'', x, t)
    ensures Campaigns(c, c'', x, t)
  {
  }

  /** Timing out often enough takes a node above any term. */
  lemma {:induction false} Raise(cfg: Config, run: seq<Step>, x: Id, t: nat) returns (run': seq<Step>)
    requires x in Exec(cfg, run).nodes
    ensures run <= run' && Campaigns(Exec(cfg, run), Exec(cfg, run'), x, t)
    decreases t - Exec(cfg, run).nodes[x].currentTerm
  {
    hide Exec, Next;
    var c := Exec(cfg, run);
    run' := run + [Timeout(x)];
    More(cfg, run, Timeout(x));
    var u := c.nodes[x].currentTerm;
    TimeoutCampaigns(cfg, c, x, if u >= t then t else u);
    if u < t {
      var run'' := Raise(cfg, run', x, t);
      CampaignsChain(c, Exec(cfg, run'), Exec(cfg, run''), x, u, t);
      run' := run'';
    }
  }

  /** Fresh leader: it knows nothing of its peers' logs. */
  ghost predicate Ready(n: Node) {
    && n.role == Leader && n.nextIndex == (map p | p in n.peers :: |n.log| + 1)
    && n.matchIndex == (map p | p in n.peers :: 0)
  }

  /** What voting does not touch. */
  ghost predicate SameLog(n: Node, n': Node) {
    && n'.id == n.id && n'.peers == n.peers && n'.log == n.log
    && n'.commitIndex == n.commitIndex && n'.lastApplied == n.lastApplied && n'.applied == n.applied
  }

  /** The node has counted these votes, or has enough already. */
  ghost predicate Standing(n: Node, t: nat, v: set<Id>) {
    n.currentTerm == t && ((n.role == Candidate && n.votes == v && !Enough(|v|, n.peers)) || Ready(n))
  }

  /** A node in the election of `x`, compared with how it was before. */
  ghost predicate Takes(n0: Node, n: Node, x: Id, t: nat, v: set<Id>) {
    && SameLog(n0, n)
    && (n0.id == x ==> Standing(n, t, v))
    && (n0.id != x && n0.id in v ==> n.currentTerm == t)
    && (n0.id !in v ==> n == n0)
  }

  /** Everyone in `v` has voted for `x` in term `t`; `c0` is how the election began. */
  ghost predicate Electing(cfg: Config, c0: Cluster, c: Cluster, x: Id, t: nat, v: set<Id>) {
    && NodesInv(cfg, c0) && c.nodes.Keys == cfg.servers && x in v && v <= cfg.servers
    && VoteRequest(VoteArgs(t, x, |c0.nodes[x].log|, LastTerm(c0.nodes[x].log))) in c.msgs
    && (forall k :: k in cfg.servers ==> Takes(c0.nodes[k], c.nodes[k], x, t, v))
  }

  /** A peer that can and will vote for `x` in term `t`. */
  ghost predicate WillVote(n: Node, x: Node, t: nat) {
    n.currentTerm < t && UpToDate(|x.log|, LastTerm(x.log), n.log)
  }

  /** One peer votes and its vote is counted. */
  lemma Vote(cfg: Config, run: seq<Step>, c0: Cluster, x: Id, t: nat, v: set<Id>, m: Id) returns (run': seq<Step>)
    requires SafeConfig(cfg) && Electing(cfg, c0, Exec(cfg, run), x, t, v) && m in cfg.servers && m !in v
    requires WillVote(c0.nodes[m], c0.nodes[x], t)
    ensures run <= run' && Electing(cfg, c0, Exec(cfg, run'), x, t, v + {m})
  {
    hide Exec, Next;
    var c := Exec(cfg, run);
    var ask := VoteRequest(VoteArgs(t, x, |c0.nodes[x].log|, LastTerm(c0.nodes[x].log)));
    var answer := VoteReply(m, x, t, VoteResult(t, true));
    var run1 := run + [Deliver(m, ask, {})];
    More(cfg, run, Deliver(m, ask, {}));
    run' := run1 + [Deliver(x, answer, {})];
    More(cfg, run1, Deliver(x, answer, {}));
    Votes(cfg, c0, c, x, t, v, m);
    Counts(cfg, c0, c, Exec(cfg, run1), x, t, v, m);
  }

  /** The peer's part: it votes and nothing else changes. */
  lemma Votes(cfg: Config, c0: Cluster, c: Cluster, x: Id, t: nat, v: set<Id>, m: Id)
    requires Electing(cfg, c0, c, x, t, v) && m in cfg.servers && m !in v && WillVote(c0.nodes[m], c0.nodes[x], t)
    ensures var ask := VoteRequest(VoteArgs(t, x, |c0.nodes[x].log|, LastTerm(c0.nodes[x].log)));
      Voted(c, Next(cfg, c, Deliver(m, ask, {})), x, t, m)
  {
    hide Enough, UpToDate, Standing;
    assert Takes(c0.nodes[m], c.nodes[m], x, t, v);
    VoteGoesTo(c.nodes[m], VoteArgs(t, x, |c0.nodes[x].log|, LastTerm(c0.nodes[x].log)), cfg.keepVote);
  }

  ghost predicate Voted(c: Cluster, c': Cluster, x: Id, t: nat, m: Id) {
    && m in c.nodes && m in c'.nodes && c'.nodes == c.nodes[m := c'.nodes[m]] && c.msgs <= c'.msgs
    && VoteReply(m, x, t, VoteResult(t, true)) in c'.msgs
    && c'.nodes[m].currentTerm == t && SameLog(c.nodes[m], c'.nodes[m])
  }

  lemma VoteGoesTo(n: Node, req: VoteArgs, keepVote: bool)
    requires n.currentTerm < req.term && UpToDate(req.lastIndex, req.lastTerm, n.log)
    ensures var (n', r) := HandleRequestVote(n, req, keepVote);
      r == VoteResult(req.term, true) && n'.currentTerm == req.term && SameLog(n, n')
  {
    hide UpToDate;
  }

  /** The candidate's part: it counts the vote, or no longer needs it. */
  lemma Counts(cfg: Config, c0: Cluster, c: Cluster, c1: Cluster, x: Id, t: nat, v: set<Id>, m: Id)
    requires Electing(cfg, c0, c, x, t, v) && m in cfg.servers && m !in v && Voted(c, c1, x, t, m)
    ensures Electing(cfg, c0, Next(cfg, c1, Deliver(x, VoteReply(m, x, t, VoteResult(t, true)), {})), x, t, v + {m})
  {
    hide HandleVoteReply, Takes, Next;
    var n' := HandleVoteReply(c1.nodes[x], m, t, VoteResult(t, true), cfg.keepVote);
    VoteHeard(cfg, c1, x, m, t) by {
      assert Takes(c0.nodes[x], c.nodes[x], x, t, v);
      TakesIs(c0.nodes[x], c.nodes[x], x, t, v);
    }
    forall k | k in cfg.servers ensures Takes(c0.nodes[k], c1.nodes[x := n'][k], x, t, v + {m}) {
      TakesMore(c0.nodes[k], c.nodes[k], c1.nodes[k], x, t, v, m, cfg.keepVote);
    }
  }

  lemma TakesIs(n0: Node, n: Node, x: Id, t: nat, v: set<Id>)
    requires Takes(n0, n, x, t, v)
    ensures n.id == n0.id
  {
  }

  lemma TakesMore(n0: Node, n: Node, n1: Node, x: Id, t: nat, v: set<Id>, m: Id, keepVote: bool)
    requires Takes(n0, n, x, t, v) && m !in v && x in v
    requires n0.id == m ==> SameLog(n, n1) && n1.currentTerm == t
    requires n0.id != m ==> n1 == n
    ensures var n' := if n0.id == x then HandleVoteReply(n1, m, t, VoteResult(t, true), keepVote) else n1;
      Takes(n0, n', x, t, v + {m})
  {
    hide HandleVoteReply, Standing;
    if n0.id == x {
      CountsVote(n1, m, t, v, keepVote);
    }
  }

  lemma VoteHeard(cfg: Config, c: Cluster, x: Id, m: Id, t: nat)
    requires x in c.nodes && c.nodes[x].id == x && VoteReply(m, x, t, VoteResult(t, true)) in c.msgs
    ensures Next(cfg, c, Deliver(x, VoteReply(m, x, t, VoteResult(t, true)), {}))
         == Cluster(c.nodes[x := HandleVoteReply(c.nodes[x], m, t, VoteResult(t, true), cfg.keepVote)], c.msgs)
  {
    hide HandleVoteReply;
  }

  lemma CountsVote(n: Node, m: Id, t: nat, v: set<Id>, keepVote: bool)
    requires Standing(n, t, v)
    ensures var n' := HandleVoteReply(n, m, t, VoteResult(t, true), keepVote);
      Standing(n', t, v + {m}) && SameLog(n, n')
  {
    hide Enough;
  }

  lemma {:induction false} Elect(cfg: Config, run: seq<Step>, c0: Cluster, x: Id, t: nat, v: set<Id>)
    returns (run': seq<Step>)
    requires SafeConfig(cfg) && Electing(cfg, c0, Exec(cfg, run), x, t, v)
    requires forall m :: m in cfg.servers && m !in v ==> WillVote(c0.nodes[m], c0.nodes[x], t)
    ensures run <= run' && Electing(cfg, c0, Exec(cfg, run'), x, t, cfg.servers)
    decreases cfg.servers - v
  {
    hide Exec, Electing, WillVote;
    ElectingIs(cfg, c0, Exec(cfg, run), x, t, v);
    if cfg.servers <= v {
      run' := run;
      assert v == cfg.servers;
    } else {
      var m :| m in cfg.servers && m !in v;
      var run1 := Vote(cfg, run, c0, x, t, v, m);
      run' := Elect(cfg, run1, c0, x, t, v + {m});
    }
  }

  lemma ElectingIs(cfg: Config, c0: Cluster, c: Cluster, x: Id, t: nat, v: set<Id>)
    requires Electing(cfg, c0, c, x, t, v)
    ensures v <= cfg.servers && x in v && cfg.servers == c0.nodes.Keys
  {
  }

  /** After a run that elects `x`: what its election has left. */
  ghost predicate Elected(cfg: Config, c: Cluster, c': Cluster, x: Id, t: nat) {
    && NodesInv(cfg, c) && c'.nodes.Keys == cfg.servers && x in cfg.servers && Ready(c'.nodes[x])
    && (forall k :: k in cfg.servers ==>
          && c.nodes[k].currentTerm < t && c'.nodes[k].currentTerm == t && SameLog(c.nodes[k], c'.nodes[k]))
  }

  lemma Wins(cfg: Config, run: seq<Step>) returns (run': seq<Step>, x: Id, t: nat)
    requires SafeConfig(cfg) && |cfg.servers| >= 2
    ensures run <= run' && Elected(cfg, Exec(cfg, run), Exec(cfg, run'), x, t)
  {
    hide Exec, UpToDate, Electing, Campaigns;
    var c := Exec(cfg, run);
    Nodes(cfg, run);
    x := BestLog(c.nodes, cfg.servers);
    var top := HighestTerm(c.nodes, cfg.servers);
    var run1 := Raise(cfg, run, x, top);
    var c1 := Exec(cfg, run1);
    Nodes(cfg, run1);
    CampaignIs(c, c1, x, top);
    t := c1.nodes[x].currentTerm;
    Begins(cfg, c1, x, t);
    run' := Elect(cfg, run1, c1, x, t, {x});
    Ends(cfg, c, c1, Exec(cfg, run'), x, t);
  }

  lemma CampaignIs(c: Cluster, c': Cluster, x: Id, t: nat)
    requires Campaigns(c, c', x, t)
    ensures x in c.nodes && x in c'.nodes && c'.nodes.Keys == c.nodes.Keys
    ensures var n, n' := c.nodes[x], c'.nodes[x];
      && n'.currentTerm > t && n'.role == Candidate && n'.votes == {n.id} && SameLog(n, n')
      && VoteRequest(VoteArgsOf(n')) in c'.msgs
    ensures forall k :: k in c.nodes && k != x ==> c'.nodes[k] == c.nodes[k]
  {
  }

  lemma Begins(cfg: Config, c: Cluster, x: Id, t: nat)
    requires NodesInv(cfg, c) && x in cfg.servers && c.nodes[x].role == Candidate && c.nodes[x].currentTerm == t
    requires c.nodes[x].votes == {x} && VoteRequest(VoteArgsOf(c.nodes[x])) in c.msgs
    ensures Electing(cfg, c, c, x, t, {x})
  {
    assert !Enough(|{x}|, c.nodes[x].peers);
    hide Enough;
  }

  lemma Ends(cfg: Config, c: Cluster, c0: Cluster, c': Cluster, x: Id, t: nat)
    requires NodesInv(cfg, c) && |cfg.servers| >= 2 && Electing(cfg, c0, c', x, t, cfg.servers)
    requires forall k :: k in cfg.servers ==> SameLog(c.nodes[k], c0.nodes[k]) && c.nodes[k].currentTerm < t
    ensures Elected(cfg, c, c', x, t)
  {
    assert Takes(c0.nodes[x], c'.nodes[x], x, t, cfg.servers);
    assert c'.nodes[x].peers == cfg.servers - {x} && |c'.nodes[x].peers| == |cfg.servers| - 1;
    assert Enough(|cfg.servers|, c'.nodes[x].peers);
    hide Enough;
    forall k | k in cfg.servers ensures c'.nodes[k].currentTerm == t && SameLog(c.nodes[k], c'.nodes[k]) {
      assert Takes(c0.nodes[k], c'.nodes[k], x, t, cfg.servers);
    }
  }

  // ----- Replicating its log

  /** Everything the node has passed since its applied index was `from` was sent. */
  ghost predicate Told(n: Node, full: Log, from: nat) {
    forall k :: from < k <= n.lastApplied && k <= |full| ==> Message(full, k) in n.applied
  }

  function Message(log: Log, k: nat): ApplyMsg
    requires 1 <= k <= |log|
  {
    ApplyMsg(k, log[k - 1].command)
  }

  function UpTo(n: nat): (room: set<nat>)
    ensures forall i :: i in room <==> 1 <= i <= n
  {
    if n == 0 then {} else UpTo(n - 1) + {n}
  }

  lemma SendsOne(out: seq<ApplyMsg>, log: Log, from: nat, upto: nat, room: set<nat>, k: nat)
    requires upto <= |log| && Sends(out, log, from, upto, room) && from < k <= upto && k in room
    ensures Message(log, k) in out
  {
  }

  lemma StillTold(n: Node, n': Node, full: Log, from: nat)
    requires A.Passes(n, n', UpTo(|full|)) && Told(n, full, from)
    requires n'.lastApplied == n.lastApplied || n'.log == full
    ensures Told(n', full, from)
  {
    hide Sends, Message, UpTo;
    if n'.lastApplied > n.lastApplied {
      var out := n'.applied[|n.applied|..];
      assert n'.applied == n.applied + out;
      forall k | from < k <= n'.lastApplied && k <= |full| ensures Message(full, k) in n'.applied {
        if k <= n.lastApplied {
          assert Message(full, k) in n.applied;
        } else {
          SendsOne(out, full, n.lastApplied, n'.lastApplied, UpTo(|full|), k);
        }
      }
    }
  }

  ghost predicate Leads(n: Node, t: nat, full: Log, from: nat) {
    && n.role == Leader && n.currentTerm == t && n.log == full
    && full != [] && full[|full| - 1].term == t && n.commitIndex <= |full| && Told(n, full, from)
  }

  /** A peer, as it is and as the leader `x` knows it: done, or still with a log of earlier terms. */
  ghost predicate Follows(n: Node, x: Node, t: nat, full: Log, from: nat, done: bool) {
    && n.currentTerm == t && Told(n, full, from)
    && (if done
        then n.log == full && Lookup(x.matchIndex, n.id) == |full| && Lookup(x.nextIndex, n.id) == |full| + 1
        else Below(n.log, t) && 1 <= Lookup(x.nextIndex, n.id) <= |full|)
  }

  ghost predicate Replicating(
    cfg: Config, c: Cluster, x: Id, t: nat, full: Log, base: map<Id, nat>, done: set<Id>)
  {
    && NodesInv(cfg, c) && x in cfg.servers && done <= cfg.servers - {x} && base.Keys == cfg.servers
    && Leads(c.nodes[x], t, full, base[x])
    && (forall k :: k in cfg.servers && k != x ==> Follows(c.nodes[k], c.nodes[x], t, full, base[k], k in done))
    && (done == cfg.servers - {x} ==> c.nodes[x].commitIndex == |full|)
  }

  ghost function Covered(req: AppendArgs): nat {
    req.prevIndex + |req.entries|
  }

  /** One request and its answer. */
  lemma Exchange(cfg: Config, run: seq<Step>, x: Id, m: Id, room: set<nat>) returns (run': seq<Step>)
    requires NodesInv(cfg, Exec(cfg, run)) && x in cfg.servers && m in cfg.servers && m != x
    requires Exec(cfg, run).nodes[x].role == Leader
    ensures run <= run'
    ensures var c := Exec(cfg, run);
      var req := AppendArgsFor(c.nodes[x], m);
      var (n, r) := HandleAppendEntries(c.nodes[m], req, cfg.keepVote, room);
      Exec(cfg, run').nodes == c.nodes[m := n][
        x := HandleAppendReply(c.nodes[x], m, req.term, Covered(req), r, cfg.keepVote, room)]
  {
    hide Exec, Next;
    var c := Exec(cfg, run);
    var req := AppendArgsFor(c.nodes[x], m);
    var ask := AppendRequest(m, req);
    var r := HandleAppendEntries(c.nodes[m], req, cfg.keepVote, room).1;
    var answer := AppendReply(m, x, req.term, Covered(req), r);
    var run1 := run + [SendAppend(x, m)];
    var run2 := run1 + [Deliver(m, ask, room)];
    run' := run2 + [Deliver(x, answer, room)];
    More(cfg, run, SendAppend(x, m));
    More(cfg, run1, Deliver(m, ask, room));
    More(cfg, run2, Deliver(x, answer, room));
    Asked(cfg, c, x, m);
    Answered(cfg, Exec(cfg, run1), m, req, room);
    Heard(cfg, Exec(cfg, run2), x, answer, room);
  }

  lemma Asked(cfg: Config, c: Cluster, x: Id, m: Id)
    requires NodesInv(cfg, c) && x in cfg.servers && m in cfg.servers && m != x && c.nodes[x].role == Leader
    ensures Next(cfg, c, SendAppend(x, m))
         == Cluster(c.nodes, c.msgs + {AppendRequest(m, AppendArgsFor(c.nodes[x], m))})
    ensures AppendArgsFor(c.nodes[x], m).leader == x
  {
  }

  lemma Answered(cfg: Config, c: Cluster, m: Id, req: AppendArgs, room: set<nat>)
    requires m in c.nodes && c.nodes[m].id == m && AppendRequest(m, req) in c.msgs
    ensures var (n, r) := HandleAppendEntries(c.nodes[m], req, cfg.keepVote, room);
      Next(cfg, c, Deliver(m, AppendRequest(m, req), room))
      == Cluster(c.nodes[m := n], c.msgs + {AppendReply(m, req.leader, req.term, Covered(req), r)})
  {
    hide HandleAppendEntries;
  }

  lemma Heard(cfg: Config, c: Cluster, x: Id, answer: Message, room: set<nat>)
    requires x in c.nodes && c.nodes[x].id == x && answer.AppendReply? && answer.dest == x && answer in c.msgs
    ensures Next(cfg, c, Deliver(x, answer, room)).nodes == c.nodes[x :=
      HandleAppendReply(c.nodes[x], answer.from, answer.reqTerm, answer.covered, answer.appended, cfg.keepVote, room)]
  {
    hide HandleAppendReply;
  }

  /** The request for a peer whose next index is `next`. */
  ghost predicate Asks(req: AppendArgs, t: nat, full: Log, next: nat) {
    && 1 <= next <= |full| + 1 && req.term == t && req.prevIndex == next - 1
    && (next > 1 ==> req.prevTerm == full[next - 2].term) && req.entries == full[next - 1..]
  }

  lemma LeaderAsks(n: Node, m: Id, t: nat, full: Log, from: nat)
    requires Leads(n, t, full, from) && 1 <= Lookup(n.nextIndex, m) <= |full| + 1
    ensures Asks(AppendArgsFor(n, m), t, full, Lookup(n.nextIndex, m))
    ensures AppendArgsFor(n, m).leaderCommit == n.commitIndex && Covered(AppendArgsFor(n, m)) == |full|
  {
    assert full[|full|..] == [];
  }

  /** The peer takes over the whole log, or has nothing to hold against the entry before. At the
      beginning of the log it always takes it over. */
  lemma PeerTakes(n: Node, req: AppendArgs, t: nat, full: Log, next: nat, from: nat, keepVote: bool)
    requires Asks(req, t, full, next) && next <= |full| && n.currentTerm == t && Below(n.log, t)
    requires full != [] && full[|full| - 1].term == t && Matching(n.log, full) && Told(n, full, from)
    ensures var (n', r) := HandleAppendEntries(n, req, keepVote, UpTo(|full|));
      && r.term == t && n'.currentTerm == t && n'.id == n.id && n'.peers == n.peers && Told(n', full, from)
      && (if r.success then n'.log == full else n'.log == n.log && next > 1)
  {
    hide HandleAppendEntries, Merge, Told;
    var room := UpTo(|full|);
    var (n', r) := HandleAppendEntries(n, req, keepVote, room);
    AppendExactly(n, req, keepVote, room);
    A.AppendPasses(n, req, keepVote, room);
    if r.success {
      TakesAll(n.log, full, next - 1);
    } else {
      RejectPasses(n, req, keepVote, room);
    }
    StillTold(n, n', full, from);
  }

  lemma RejectPasses(n: Node, req: AppendArgs, keepVote: bool, room: set<nat>)
    requires !HandleAppendEntries(n, req, keepVote, room).1.success
    ensures HandleAppendEntries(n, req, keepVote, room).0.lastApplied == n.lastApplied
  {
    hide Merge;
  }

  lemma TakesAll(log: Log, full: Log, p: nat)
    requires p < |full| && p <= |log| && Matching(log, full)
    requires p > 0 ==> log[p - 1].term == full[p - 1].term
    requires forall i :: 0 <= i < |log| ==> log[i].term < full[|full| - 1].term
    ensures Merge(log, p, full[p..]) == full
  {
    hide Merge;
    assert log[..p] == full[..p];
    MergeFollows(log, p, |full|, full, []);
    var r := Merge(log, p, full[p..|full|]);
    assert r[..|full|][|full| - 1] == full[|full| - 1];
    assert full[p..|full|] == full[p..] && full[..|full|] == full;
  }

  /** The leader notes what the peer holds, and commits what everyone holds. */
  lemma HearsYes(n: Node, m: Id, t: nat, full: Log, from: nat, keepVote: bool)
    requires Leads(n, t, full, from) && m in n.peers
    ensures var n' := HandleAppendReply(n, m, t, |full|, AppendResult(t, true), keepVote, UpTo(|full|));
      && Leads(n', t, full, from) && n'.id == n.id && n'.peers == n.peers
      && n'.nextIndex == n.nextIndex[m := |full| + 1] && n'.matchIndex == n.matchIndex[m := |full|]
      && ((forall p :: p in n.peers && p != m ==> Lookup(n.matchIndex, p) == |full|) ==> n'.commitIndex == |full|)
  {
    hide Told, A.Passes, ApplyCommitted, Committable, UpTo, Lookup;
    var room := UpTo(|full|);
    var n' := HandleAppendReply(n, m, t, |full|, AppendResult(t, true), keepVote, room);
    A.ReplyPasses(n, m, t, |full|, AppendResult(t, true), keepVote, room);
    var g := n.(matchIndex := n.matchIndex[m := |full|], nextIndex := n.nextIndex[m := |full| + 1]);
    Commits(g, room);
    if forall p :: p in n.peers && p != m ==> Lookup(n.matchIndex, p) == |full| {
      forall p | p in n.peers ensures Lookup(g.matchIndex, p) == |full| {
        LookupAfter(n.matchIndex, m, |full|, p);
      }
      Everyone(g, full);
    }
    StillTold(n, n', full, from);
  }

  lemma LookupUpdated(m: map<Id, nat>, key: Id, v: nat)
    ensures forall p :: Lookup(m[key := v], p) == if p == key then v else Lookup(m, p)
  {
    forall p ensures Lookup(m[key := v], p) == if p == key then v else Lookup(m, p) {
      LookupAfter(m, key, v, p);
    }
  }

  lemma LookupAfter(m: map<Id, nat>, key: Id, v: nat, p: Id)
    ensures Lookup(m[key := v], p) == if p == key then v else Lookup(m, p)
  {
  }

  lemma Commits(n: Node, room: set<nat>)
    requires n.commitIndex <= |n.log|
    ensures var n' := UpdateCommitIndex(n, room);
      && n' == n.(commitIndex := n'.commitIndex, lastApplied := n'.lastApplied, applied := n'.applied)
      && n'.commitIndex == NewCommitIndex(n, |n.log|)
  {
    hide Committable, Emit;
  }

  /** The peer refused: the leader goes one entry back. */
  lemma HearsNo(n: Node, m: Id, t: nat, full: Log, from: nat, keepVote: bool)
    requires Leads(n, t, full, from) && Lookup(n.nextIndex, m) > 1
    ensures var n' := HandleAppendReply(n, m, t, |full|, AppendResult(t, false), keepVote, UpTo(|full|));
      n' == n.(nextIndex := n.nextIndex[m := Lookup(n.nextIndex, m) - 1]) && Leads(n', t, full, from)
  {
  }

  /** What every peer holds can be committed. */
  lemma Everyone(n: Node, full: Log)
    requires n.log == full && full != [] && full[|full| - 1].term == n.currentTerm && n.peers != {}
    requires forall p :: p in n.peers ==> Lookup(n.matchIndex, p) == |full|
    ensures Committable(n, |full|)
  {
    assert Replicas(n, |full|) == n.peers;
  }

  lemma LogsMatchNow(cfg: Config, run: seq<Step>, a: Id, b: Id)
    requires SafeConfig(cfg) && a in cfg.servers && b in cfg.servers
    ensures NodesInv(cfg, Exec(cfg, run))
    ensures Matching(Exec(cfg, run).nodes[a].log, Exec(cfg, run).nodes[b].log)
  {
    hide HistoryInv, Matching;
    var c, h := Exec(cfg, run), HistoryOf(cfg, run);
    RunInv(cfg, run);
    assert NodeInv(cfg, h, c.nodes[a]) && NodeInv(cfg, h, c.nodes[b]);
    GroundedLogsMatch(h, c.nodes[a].log, c.nodes[b].log);
  }

  lemma FollowsStays(n: Node, x: Node, x': Node, t: nat, full: Log, from: nat, done: bool)
    requires Follows(n, x, t, full, from, done)
    requires Lookup(x'.matchIndex, n.id) == Lookup(x.matchIndex, n.id)
    requires Lookup(x'.nextIndex, n.id) == Lookup(x.nextIndex, n.id)
    ensures Follows(n, x', t, full, from, done)
  {
  }

  /** The exchange changed the leader and one peer, and told the leader about that peer alone. */
  lemma Assemble(cfg: Config, c: Cluster, c': Cluster, x: Id, t: nat, full: Log, base: map<Id, nat>, done: set<Id>,
                 m: Id, done': set<Id>)
    requires Replicating(cfg, c, x, t, full, base, done) && m in cfg.servers && m != x
    requires x in c'.nodes && m in c'.nodes && c'.nodes == c.nodes[m := c'.nodes[m]][x := c'.nodes[x]]
    requires c'.nodes[m].id == m && c'.nodes[m].peers == c.nodes[m].peers
    requires c'.nodes[x].id == x && c'.nodes[x].peers == c.nodes[x].peers && Leads(c'.nodes[x], t, full, base[x])
    requires forall k :: k != m ==> Lookup(c'.nodes[x].nextIndex, k) == Lookup(c.nodes[x].nextIndex, k)
    requires forall k :: k != m ==> Lookup(c'.nodes[x].matchIndex, k) == Lookup(c.nodes[x].matchIndex, k)
    requires done' == done || done' == done + {m}
    requires Follows(c'.nodes[m], c'.nodes[x], t, full, base[m], m in done')
    requires done' == cfg.servers - {x} ==> c'.nodes[x].commitIndex == |full|
    ensures Replicating(cfg, c', x, t, full, base, done')
  {
    hide Follows, Leads, Lookup;
    forall k | k in cfg.servers && k != x ensures Follows(c'.nodes[k], c'.nodes[x], t, full, base[k], k in done') {
      if k != m {
        FollowsStays(c.nodes[k], c.nodes[x], c'.nodes[x], t, full, base[k], k in done);
      }
    }
  }

  /** What is known of the leader and of one of its peers. */
  lemma ReplicatingIs(cfg: Config, c: Cluster, x: Id, t: nat, full: Log, base: map<Id, nat>, done: set<Id>, m: Id)
    requires Replicating(cfg, c, x, t, full, base, done) && m in cfg.servers && m != x
    ensures NodesInv(cfg, c) && c.nodes.Keys == base.Keys == cfg.servers && x in cfg.servers
    ensures c.nodes[x].id == x && c.nodes[m].id == m && m in c.nodes[x].peers
    ensures Leads(c.nodes[x], t, full, base[x]) && c.nodes[x].role == Leader && c.nodes[x].log == full
    ensures Follows(c.nodes[m], c.nodes[x], t, full, base[m], m in done)
    ensures done == cfg.servers - {x} ==> c.nodes[x].commitIndex == |full|
  {
    hide Follows;
  }

  lemma FollowsIs(n: Node, x: Node, t: nat, full: Log, from: nat, done: bool)
    requires Follows(n, x, t, full, from, done)
    ensures n.currentTerm == t && Told(n, full, from)
    ensures done ==> n.log == full && Lookup(x.matchIndex, n.id) == |full| && Lookup(x.nextIndex, n.id) == |full| + 1
    ensures !done ==> Below(n.log, t) && 1 <= Lookup(x.nextIndex, n.id) <= |full|
  {
  }

  lemma LeadsIs(n: Node, t: nat, full: Log, from: nat)
    requires Leads(n, t, full, from)
    ensures n.role == Leader && n.currentTerm == t && n.log == full && full != [] && full[|full| - 1].term == t
    ensures n.commitIndex <= |full|
  {
  }

  /** The peer took over the log. */
  lemma Taken(cfg: Config, c: Cluster, c': Cluster, x: Id, t: nat, full: Log, base: map<Id, nat>, done: set<Id>, m: Id)
    requires Replicating(cfg, c, x, t, full, base, done) && m in cfg.servers && m != x && m in base
    requires Tried(cfg, c, c', x, t, full, base[m], m, true)
    ensures Replicating(cfg, c', x, t, full, base, done + {m})
  {
    hide *;
    TriedIs(cfg, c, c', x, t, full, base[m], m, true);
    ReplicatingIs(cfg, c, x, t, full, base, done, m);
    HearsYes(c.nodes[x], m, t, full, base[x], cfg.keepVote);
    LookupUpdated(c.nodes[x].nextIndex, m, |full| + 1);
    LookupUpdated(c.nodes[x].matchIndex, m, |full|);
    FollowsFrom(c'.nodes[m], c'.nodes[x], t, full, base[m], true);
    OthersHold(cfg, c, x, t, full, base, done, m);
    Assemble(cfg, c, c', x, t, full, base, done, m, done + {m});
  }

  /** The peer refused. */
  lemma Refused(
    cfg: Config, c: Cluster, c': Cluster, x: Id, t: nat, full: Log, base: map<Id, nat>, done: set<Id>, m: Id)
    requires Replicating(cfg, c, x, t, full, base, done) && m in cfg.servers && m != x && m !in done && m in base
    requires Tried(cfg, c, c', x, t, full, base[m], m, false)
    ensures Replicating(cfg, c', x, t, full, base, done)
    ensures x in c.nodes && x in c'.nodes
    ensures Lookup(c'.nodes[x].nextIndex, m) == Lookup(c.nodes[x].nextIndex, m) - 1
  {
    hide *;
    TriedIs(cfg, c, c', x, t, full, base[m], m, false);
    ReplicatingIs(cfg, c, x, t, full, base, done, m);
    FollowsIs(c.nodes[m], c.nodes[x], t, full, base[m], false);
    HearsNo(c.nodes[x], m, t, full, base[x], cfg.keepVote);
    LookupUpdated(c.nodes[x].nextIndex, m, Lookup(c.nodes[x].nextIndex, m) - 1);
    FollowsFrom(c'.nodes[m], c'.nodes[x], t, full, base[m], false);
    OneMissing(cfg.servers, x, done, m);
    Assemble(cfg, c, c', x, t, full, base, done, m, done);
  }

  lemma OneMissing(servers: set<Id>, x: Id, done: set<Id>, m: Id)
    requires m in servers && m != x && m !in done
    ensures done != servers - {x}
  {
    assert m in servers - {x};
  }

  /** Asking again and again, one entry further back each time, until the peer takes over the log. */
  lemma {:induction false} Round(
    cfg: Config, run: seq<Step>, x: Id, t: nat, full: Log, base: map<Id, nat>, done: set<Id>, m: Id)
    returns (run': seq<Step>)
    requires SafeConfig(cfg) && Replicating(cfg, Exec(cfg, run), x, t, full, base, done)
    requires m in cfg.servers && m != x && m !in done
    ensures run <= run' && Replicating(cfg, Exec(cfg, run'), x, t, full, base, done + {m})
    decreases Lookup(Exec(cfg, run).nodes[x].nextIndex, m)
  {
    hide *;
    var c := Exec(cfg, run);
    ReplicatingIs(cfg, c, x, t, full, base, done, m);
    var taken;
    run', taken := Try(cfg, run, x, t, full, base, done, m);
    if taken {
      Taken(cfg, c, Exec(cfg, run'), x, t, full, base, done, m);
    } else {
      Refused(cfg, c, Exec(cfg, run'), x, t, full, base, done, m);
      var more := Round(cfg, run', x, t, full, base, done, m);
      run' := more;
    }
  }

  /** What one request and its answer have changed. */
  ghost predicate Tried(cfg: Config, c: Cluster, c': Cluster, x: Id, t: nat, full: Log, from: nat, m: Id, taken: bool) {
    && x in c.nodes && m in c.nodes && m in c'.nodes
    && c'.nodes == c.nodes[m := c'.nodes[m]][
         x := HandleAppendReply(c.nodes[x], m, t, |full|, AppendResult(t, taken), cfg.keepVote, UpTo(|full|))]
    && c'.nodes[m].id == m && c'.nodes[m].peers == c.nodes[m].peers && c'.nodes[m].currentTerm == t
    && Told(c'.nodes[m], full, from) && c'.nodes[m].log == (if taken then full else c.nodes[m].log)
    && (!taken ==> Lookup(c.nodes[x].nextIndex, m) > 1)
  }

  lemma TriedIs(cfg: Config, c: Cluster, c': Cluster, x: Id, t: nat, full: Log, from: nat, m: Id, taken: bool)
    requires Tried(cfg, c, c', x, t, full, from, m, taken)
    ensures x in c.nodes && m in c.nodes && m in c'.nodes && x in c'.nodes
    ensures c'.nodes == c.nodes[m := c'.nodes[m]][x := c'.nodes[x]]
    ensures c'.nodes[x] ==
      HandleAppendReply(c.nodes[x], m, t, |full|, AppendResult(t, taken), cfg.keepVote, UpTo(|full|))
    ensures m != x ==>
      && c'.nodes[m].id == m && c'.nodes[m].peers == c.nodes[m].peers && c'.nodes[m].currentTerm == t
      && Told(c'.nodes[m], full, from) && c'.nodes[m].log == (if taken then full else c.nodes[m].log)
    ensures !taken ==> Lookup(c.nodes[x].nextIndex, m) > 1
  {
    hide HandleAppendReply, Told, Lookup, UpTo;
  }

  lemma TriedFrom(cfg: Config, c: Cluster, c': Cluster, x: Id, t: nat, full: Log, from: nat, m: Id, n: Node,
                  r: AppendResult)
    requires x in c.nodes && m in c.nodes && m != x && r.term == t && n.id == m && n.peers == c.nodes[m].peers
    requires c'.nodes == c.nodes[m := n][
      x := HandleAppendReply(c.nodes[x], m, t, |full|, r, cfg.keepVote, UpTo(|full|))]
    requires n.currentTerm == t && Told(n, full, from) && n.log == (if r.success then full else c.nodes[m].log)
    requires !r.success ==> Lookup(c.nodes[x].nextIndex, m) > 1
    ensures Tried(cfg, c, c', x, t, full, from, m, r.success)
  {
    hide HandleAppendReply, Told, Lookup, UpTo;
    assert r == AppendResult(t, r.success);
  }

  /** Asking once. */
  lemma Try(cfg: Config, run: seq<Step>, x: Id, t: nat, full: Log, base: map<Id, nat>, done: set<Id>, m: Id)
    returns (run': seq<Step>, taken: bool)
    requires SafeConfig(cfg) && Replicating(cfg, Exec(cfg, run), x, t, full, base, done)
    requires m in cfg.servers && m != x && m !in done
    ensures run <= run' && m in base && Tried(cfg, Exec(cfg, run), Exec(cfg, run'), x, t, full, base[m], m, taken)
  {
    hide *;
    var c := Exec(cfg, run);
    ReplicatingIs(cfg, c, x, t, full, base, done, m);
    var req := AppendArgsFor(c.nodes[x], m);
    run' := Exchange(cfg, run, x, m, UpTo(|full|));
    var r := HandleAppendEntries(c.nodes[m], req, cfg.keepVote, UpTo(|full|)).1;
    PeerAnswers(cfg, run, x, t, full, base, done, m);
    TriedFrom(cfg, c, Exec(cfg, run'), x, t, full, base[m], m,
              HandleAppendEntries(c.nodes[m], req, cfg.keepVote, UpTo(|full|)).0, r);
    taken := r.success;
  }

  /** What the peer makes of the request. */
  lemma PeerAnswers(cfg: Config, run: seq<Step>, x: Id, t: nat, full: Log, base: map<Id, nat>, done: set<Id>, m: Id)
    requires SafeConfig(cfg) && Replicating(cfg, Exec(cfg, run), x, t, full, base, done)
    requires m in cfg.servers && m != x && m !in done
    ensures var c := Exec(cfg, run);
      && x in c.nodes && m in c.nodes && m in base
      && var req := AppendArgsFor(c.nodes[x], m);
         var (n, r) := HandleAppendEntries(c.nodes[m], req, cfg.keepVote, UpTo(|full|));
         && req.term == r.term == n.currentTerm == t && Covered(req) == |full|
         && n.id == m && n.peers == c.nodes[m].peers && Told(n, full, base[m])
         && n.log == (if r.success then full else c.nodes[m].log)
         && (!r.success ==> Lookup(c.nodes[x].nextIndex, m) > 1)
  {
    hide *;
    var c := Exec(cfg, run);
    ReplicatingIs(cfg, c, x, t, full, base, done, m);
    FollowsIs(c.nodes[m], c.nodes[x], t, full, base[m], false);
    LeadsIs(c.nodes[x], t, full, base[x]);
    LogsMatchNow(cfg, run, m, x);
    var req, next := AppendArgsFor(c.nodes[x], m), Lookup(c.nodes[x].nextIndex, m);
    LeaderAsks(c.nodes[x], m, t, full, base[x]);
    AsksIs(req, t, full, next);
    PeerTakes(c.nodes[m], req, t, full, next, base[m], cfg.keepVote);
  }

  lemma AsksIs(req: AppendArgs, t: nat, full: Log, next: nat)
    requires Asks(req, t, full, next)
    ensures req.term == t
  {
  }

  lemma FollowsFrom(n: Node, x: Node, t: nat, full: Log, from: nat, done: bool)
    requires n.currentTerm == t && Told(n, full, from)
    requires done ==> n.log == full && Lookup(x.matchIndex, n.id) == |full| && Lookup(x.nextIndex, n.id) == |full| + 1
    requires !done ==> Below(n.log, t) && 1 <= Lookup(x.nextIndex, n.id) <= |full|
    ensures Follows(n, x, t, full, from, done)
  {
  }

  /** If only one peer is missing, all others hold the whole log. */
  lemma OthersHold(cfg: Config, c: Cluster, x: Id, t: nat, full: Log, base: map<Id, nat>, done: set<Id>, m: Id)
    requires Replicating(cfg, c, x, t, full, base, done) && m in cfg.servers && m != x
    ensures done + {m} == cfg.servers - {x} ==>
      forall p :: p in c.nodes[x].peers && p != m ==> Lookup(c.nodes[x].matchIndex, p) == |full|
  {
    hide Leads, Lookup;
    if done + {m} == cfg.servers - {x} {
      forall p | p in c.nodes[x].peers && p != m ensures Lookup(c.nodes[x].matchIndex, p) == |full| {
        assert p in done + {m};
        assert Follows(c.nodes[p], c.nodes[x], t, full, base[p], p in done);
      }
    }
  }

  lemma {:induction false} ReplicateAll(
    cfg: Config, run: seq<Step>, x: Id, t: nat, full: Log, base: map<Id, nat>, done: set<Id>)
    returns (run': seq<Step>)
    requires SafeConfig(cfg) && Replicating(cfg, Exec(cfg, run), x, t, full, base, done)
    ensures run <= run' && Replicating(cfg, Exec(cfg, run'), x, t, full, base, cfg.servers - {x})
    decreases cfg.servers - done
  {
    hide *;
    WhoIsDone(cfg, Exec(cfg, run), x, t, full, base, done);
    if cfg.servers - {x} <= done {
      run' := run;
      assert done == cfg.servers - {x};
    } else {
      var m :| m in cfg.servers - {x} && m !in done;
      var run1 := Round(cfg, run, x, t, full, base, done, m);
      run' := ReplicateAll(cfg, run1, x, t, full, base, done + {m});
    }
  }

  lemma WhoIsDone(cfg: Config, c: Cluster, x: Id, t: nat, full: Log, base: map<Id, nat>, done: set<Id>)
    requires Replicating(cfg, c, x, t, full, base, done)
    ensures done <= cfg.servers - {x} && x in cfg.servers && base.Keys == cfg.servers && NodesInv(cfg, c)
    ensures Leads(c.nodes[x], t, full, base[x])
    ensures done == cfg.servers - {x} ==> c.nodes[x].commitIndex == |full|
  {
  }

  // ----- Telling everyone

  /** Everyone holds the log, and those in `told` have committed it. */
  ghost predicate Spreading(cfg: Config, c: Cluster, x: Id, t: nat, full: Log, base: map<Id, nat>, told: set<Id>) {
    && Replicating(cfg, c, x, t, full, base, cfg.servers - {x}) && told <= cfg.servers - {x}
    && forall k :: k in told ==> c.nodes[k].commitIndex == |full|
  }

  /** A peer that holds the log commits all of it when told so. */
  lemma PeerCommits(n: Node, req: AppendArgs, t: nat, full: Log, from: nat, keepVote: bool)
    requires Asks(req, t, full, |full| + 1) && req.leaderCommit == |full|
    requires n.currentTerm == t && n.log == full && n.commitIndex <= |full| && Told(n, full, from)
    ensures var (n', r) := HandleAppendEntries(n, req, keepVote, UpTo(|full|));
      && r == AppendResult(t, true) && n'.currentTerm == t && n'.id == n.id && n'.peers == n.peers
      && n'.log == full && n'.commitIndex == |full| && Told(n', full, from)
  {
    hide HandleAppendEntries, Told;
    var room := UpTo(|full|);
    AppendExactly(n, req, keepVote, room);
    A.AppendPasses(n, req, keepVote, room);
    assert full[|full|..] == [];
    StillTold(n, HandleAppendEntries(n, req, keepVote, room).0, full, from);
  }

  lemma CommitBound(cfg: Config, run: seq<Step>, id: Id)
    requires SafeConfig(cfg) && id in cfg.servers
    ensures NodesInv(cfg, Exec(cfg, run))
    ensures var n := Exec(cfg, run).nodes[id];
      n.lastApplied == n.commitIndex <= |n.log| && Below(n.log, n.currentTerm + 1)
  {
    var c, h := Exec(cfg, run), HistoryOf(cfg, run);
    RunInv(cfg, run);
    assert NodeInv(cfg, h, c.nodes[id]);
    NodeFacts(cfg, h, c.nodes[id]);
    hide Inv, NodeInv;
    assert run[..|run|] == run;
    A.AppliedKeepsUp(cfg, run, |run|, id);
  }

  lemma Tell(cfg: Config, run: seq<Step>, x: Id, t: nat, full: Log, base: map<Id, nat>, told: set<Id>, m: Id)
    returns (run': seq<Step>)
    requires SafeConfig(cfg) && Spreading(cfg, Exec(cfg, run), x, t, full, base, told)
    requires m in cfg.servers && m != x
    ensures run <= run' && Spreading(cfg, Exec(cfg, run'), x, t, full, base, told + {m})
  {
    hide *;
    var c, all := Exec(cfg, run), cfg.servers - {x};
    SpreadingIs(cfg, c, x, t, full, base, told);
    ReplicatingIs(cfg, c, x, t, full, base, all, m);
    FollowsIs(c.nodes[m], c.nodes[x], t, full, base[m], true);
    LeadsIs(c.nodes[x], t, full, base[x]);
    CommitBound(cfg, run, m);
    var req := AppendArgsFor(c.nodes[x], m);
    LeaderAsks(c.nodes[x], m, t, full, base[x]);
    AsksIs(req, t, full, |full| + 1);
    run' := Exchange(cfg, run, x, m, UpTo(|full|));
    var c' := Exec(cfg, run');
    PeerCommits(c.nodes[m], req, t, full, base[m], cfg.keepVote);
    assert all + {m} == all;
    var (n, r) := HandleAppendEntries(c.nodes[m], req, cfg.keepVote, UpTo(|full|));
    TriedFrom(cfg, c, c', x, t, full, base[m], m, n, r);
    Taken(cfg, c, c', x, t, full, base, all, m);
    SpreadingMore(cfg, c, c', x, t, full, base, told, m);
  }

  lemma SpreadingIs(cfg: Config, c: Cluster, x: Id, t: nat, full: Log, base: map<Id, nat>, told: set<Id>)
    requires Spreading(cfg, c, x, t, full, base, told)
    ensures Replicating(cfg, c, x, t, full, base, cfg.servers - {x}) && told <= cfg.servers - {x}
    ensures NodesInv(cfg, c) && forall k :: k in told ==> c.nodes[k].commitIndex == |full|
  {
    hide Leads, Follows;
  }

  lemma SpreadingMore(
    cfg: Config, c: Cluster, c': Cluster, x: Id, t: nat, full: Log, base: map<Id, nat>, told: set<Id>, m: Id)
    requires Spreading(cfg, c, x, t, full, base, told) && m in cfg.servers && m != x
    requires Replicating(cfg, c', x, t, full, base, cfg.servers - {x})
    requires x in c'.nodes && m in c'.nodes && c'.nodes == c.nodes[m := c'.nodes[m]][x := c'.nodes[x]]
    requires c'.nodes[m].commitIndex == |full|
    ensures Spreading(cfg, c', x, t, full, base, told + {m})
  {
    hide Leads, Follows;
  }

  lemma {:induction false} TellAll(
    cfg: Config, run: seq<Step>, x: Id, t: nat, full: Log, base: map<Id, nat>, told: set<Id>)
    returns (run': seq<Step>)
    requires SafeConfig(cfg) && Spreading(cfg, Exec(cfg, run), x, t, full, base, told)
    ensures run <= run' && Spreading(cfg, Exec(cfg, run'), x, t, full, base, cfg.servers - {x})
    decreases cfg.servers - told
  {
    hide *;
    SpreadingIs(cfg, Exec(cfg, run), x, t, full, base, told);
    if cfg.servers - {x} <= told {
      run' := run;
      assert told == cfg.servers - {x};
    } else {
      var m :| m in cfg.servers - {x} && m !in told;
      var run1 := Tell(cfg, run, x, t, full, base, told, m);
      run' := TellAll(cfg, run1, x, t, full, base, told + {m});
    }
  }

  // ----- The whole way

  /** Before the election no node has applied as much as the leader's log is long. */
  lemma NothingBeyond(cfg: Config, run: seq<Step>, run': seq<Step>, x: Id, t: nat, m: Id)
    requires SafeConfig(cfg) && run <= run' && Elected(cfg, Exec(cfg, run), Exec(cfg, run'), x, t) && m in cfg.servers
    ensures NodesInv(cfg, Exec(cfg, run)) && x in Exec(cfg, run').nodes
    ensures Exec(cfg, run).nodes[m].lastApplied <= |Exec(cfg, run').nodes[x].log|
  {
    hide Exec, NodesInv, Below;
    CommitBound(cfg, run, m);
    Nodes(cfg, run);
    var k := |run|;
    assert run'[..k] == run && run'[..|run'|] == run';
    ElectedIs(cfg, Exec(cfg, run), Exec(cfg, run'), x, t, m);
    assert S.Alive(cfg, run', k, m) && S.LeaderAt(cfg, run', |run'|, x, t);
    S.LaterLeadersHoldCommitted(cfg, run', k, |run'|, m, x, t);
  }

  lemma ElectedIs(cfg: Config, c: Cluster, c': Cluster, x: Id, t: nat, m: Id)
    requires Elected(cfg, c, c', x, t) && m in cfg.servers
    ensures NodesInv(cfg, c) && c.nodes.Keys == c'.nodes.Keys == cfg.servers && x in cfg.servers
    ensures c'.nodes[x].role == Leader && c'.nodes[x].currentTerm == t && Ready(c'.nodes[x])
    ensures c.nodes[m].currentTerm < t == c'.nodes[m].currentTerm && SameLog(c.nodes[m], c'.nodes[m])
    ensures c'.nodes[m].id == c.nodes[m].id == m && c'.nodes[m].peers == c.nodes[m].peers == cfg.servers - {m}
  {
  }

  /** The new leader takes a command and begins to replicate its log. */
  lemma Proposes(cfg: Config, run: seq<Step>, c: Cluster, x: Id, t: nat, command: string, base: map<Id, nat>)
    returns (run': seq<Step>, full: Log)
    requires SafeConfig(cfg) && |cfg.servers| >= 2 && Elected(cfg, c, Exec(cfg, run), x, t)
    requires forall k :: k in cfg.servers ==> Below(c.nodes[k].log, t) && c.nodes[k].commitIndex <= |c.nodes[k].log|
    requires base.Keys == cfg.servers && forall k :: k in cfg.servers ==> base[k] == c.nodes[k].lastApplied
    ensures run <= run' && Replicating(cfg, Exec(cfg, run'), x, t, full, base, {})
    ensures full == c.nodes[x].log + [Entry(t, |c.nodes[x].log| + 1, command)]
  {
    hide Exec, Next, Replicating, Elected, Below;
    ElectedLog(cfg, c, Exec(cfg, run), x, t);
    full := c.nodes[x].log + [Entry(t, |c.nodes[x].log| + 1, command)];
    run' := run + [ClientPropose(x, command)];
    More(cfg, run, ClientPropose(x, command));
    Proposed(cfg, c, Exec(cfg, run), x, t, command, full, base);
  }

  lemma Proposed(cfg: Config, c: Cluster, c': Cluster, x: Id, t: nat, command: string, full: Log, base: map<Id, nat>)
    requires |cfg.servers| >= 2 && Elected(cfg, c, c', x, t)
    requires forall k :: k in cfg.servers ==> Below(c.nodes[k].log, t) && c.nodes[k].commitIndex <= |c.nodes[k].log|
    requires base.Keys == cfg.servers && forall k :: k in cfg.servers ==> base[k] == c.nodes[k].lastApplied
    requires full == c.nodes[x].log + [Entry(t, |c.nodes[x].log| + 1, command)]
    ensures Replicating(cfg, Next(cfg, c', ClientPropose(x, command)), x, t, full, base, {})
  {
    hide *;
    ElectedLog(cfg, c, c', x, t);
    var n, c'' := Propose(c'.nodes[x], command), Next(cfg, c', ClientPropose(x, command));
    ElectedIs(cfg, c, c', x, t, x);
    ProposeIs(cfg, c', x, command);
    LeaderProposes(c.nodes[x], c'.nodes[x], t, command, full);
    forall k | k in cfg.servers && k != x
      ensures c''.nodes[k] == c'.nodes[k] && c'.nodes[k].id == k && c'.nodes[k].peers == cfg.servers - {k}
      ensures Follows(c'.nodes[k], n, t, full, base[k], false)
    {
      ElectedIs(cfg, c, c', x, t, k);
      PeerBehind(c.nodes[k], c'.nodes[k], c'.nodes[x], t, command, full);
    }
    ReplicatingFrom(cfg, c'', x, t, full, base);
  }

  lemma ReplicatingFrom(cfg: Config, c: Cluster, x: Id, t: nat, full: Log, base: map<Id, nat>)
    requires |cfg.servers| >= 2 && c.nodes.Keys == base.Keys == cfg.servers && x in cfg.servers
    requires forall k :: k in cfg.servers ==> c.nodes[k].id == k && c.nodes[k].peers == cfg.servers - {k}
    requires Leads(c.nodes[x], t, full, base[x])
    requires forall k :: k in cfg.servers && k != x ==> Follows(c.nodes[k], c.nodes[x], t, full, base[k], false)
    ensures Replicating(cfg, c, x, t, full, base, {})
  {
    hide Leads, Follows;
    assert cfg.servers - {x} != {} by {
      assert |cfg.servers - {x}| == |cfg.servers| - 1;
    }
  }

  lemma ProposeIs(cfg: Config, c: Cluster, x: Id, command: string)
    requires x in c.nodes
    ensures Next(cfg, c, ClientPropose(x, command)) == Cluster(c.nodes[x := Propose(c.nodes[x], command)], c.msgs)
  {
    hide Propose;
  }

  lemma LeaderProposes(n0: Node, n: Node, t: nat, command: string, full: Log)
    requires Ready(n) && SameLog(n0, n) && n.currentTerm == t && n0.commitIndex <= |n0.log|
    requires full == n0.log + [Entry(t, |n0.log| + 1, command)]
    ensures Leads(Propose(n, command), t, full, n0.lastApplied)
    ensures Propose(n, command).id == n.id && Propose(n, command).peers == n.peers
  {
  }

  lemma PeerBehind(n0: Node, n: Node, x: Node, t: nat, command: string, full: Log)
    requires SameLog(n0, n) && n.currentTerm == t && Below(n0.log, t) && Ready(x) && n.id in x.peers
    requires |full| == |x.log| + 1
    ensures Follows(n, Propose(x, command), t, full, n0.lastApplied, false)
  {
  }

  /** The node has this log, has committed and applied all of it, and has sent everything it had not
      applied before. */
  ghost predicate Complete(n: Node, n': Node, full: Log) {
    && n'.log == full && n'.commitIndex == n'.lastApplied == |full| && n.lastApplied < |full|
    && forall i :: n.lastApplied < i <= |full| ==> Message(full, i) in n'.applied
  }

  /** Every node has the same log, ending with the command, committed and applied. */
  ghost predicate Done(cfg: Config, c: Cluster, c': Cluster, full: Log, command: string) {
    && cfg.servers == c.nodes.Keys == c'.nodes.Keys && full != [] && full[|full| - 1].command == command
    && forall k :: k in cfg.servers ==> Complete(c.nodes[k], c'.nodes[k], full)
  }

  ghost function AppliedBy(c: Cluster): map<Id, nat> {
    map k | k in c.nodes :: c.nodes[k].lastApplied
  }

  lemma AppliedByIs(cfg: Config, c: Cluster)
    requires NodesInv(cfg, c)
    ensures AppliedBy(c).Keys == c.nodes.Keys == cfg.servers
    ensures forall k :: k in cfg.servers ==> AppliedBy(c)[k] == c.nodes[k].lastApplied
  {
  }

  lemma BelowMore(log: Log, s: nat, t: nat)
    requires Below(log, s) && s <= t
    ensures Below(log, t)
  {
  }

  lemma SpreadingStarts(cfg: Config, c: Cluster, x: Id, t: nat, full: Log, base: map<Id, nat>)
    requires Replicating(cfg, c, x, t, full, base, cfg.servers - {x})
    ensures Spreading(cfg, c, x, t, full, base, {})
  {
    hide Replicating;
  }

  lemma Finishes(cfg: Config, run: seq<Step>, n: Node, x: Id, t: nat, full: Log, base: map<Id, nat>, k: Id)
    requires SafeConfig(cfg) && Spreading(cfg, Exec(cfg, run), x, t, full, base, cfg.servers - {x})
    requires k in cfg.servers && base.Keys == cfg.servers && base[k] == n.lastApplied < |full|
    ensures NodesInv(cfg, Exec(cfg, run)) && Complete(n, Exec(cfg, run).nodes[k], full)
  {
    hide *;
    var c := Exec(cfg, run);
    CommitBound(cfg, run, k);
    SpreadingIs(cfg, c, x, t, full, base, cfg.servers - {x});
    WhoIsDone(cfg, c, x, t, full, base, cfg.servers - {x});
    if k == x {
      LeadsIs(c.nodes[x], t, full, base[x]);
      LeadsTold(c.nodes[x], t, full, base[x]);
    } else {
      ReplicatingIs(cfg, c, x, t, full, base, cfg.servers - {x}, k);
      FollowsIs(c.nodes[k], c.nodes[x], t, full, base[k], true);
    }
    CompleteFrom(n, c.nodes[k], full);
  }

  lemma LeadsTold(n: Node, t: nat, full: Log, from: nat)
    requires Leads(n, t, full, from)
    ensures Told(n, full, from)
  {
  }

  lemma CompleteFrom(n: Node, n': Node, full: Log)
    requires n'.log == full && n'.commitIndex == n'.lastApplied == |full| && n.lastApplied < |full|
    requires Told(n', full, n.lastApplied)
    ensures Complete(n, n', full)
  {
  }

  /** After every run of a safe cluster of at least two nodes, for every command, there is a way on after
      which every node has committed and applied it. */
  lemma CanAlwaysCommit(cfg: Config, run: seq<Step>, command: string) returns (run': seq<Step>, full: Log)
    requires SafeConfig(cfg) && |cfg.servers| >= 2
    ensures run <= run' && Done(cfg, Exec(cfg, run), Exec(cfg, run'), full, command)
  {
    hide *;
    var c := Exec(cfg, run);
    var run1, x, t := Wins(cfg, run);
    Nodes(cfg, run);
    AppliedByIs(cfg, c);
    forall k | k in cfg.servers ensures Below(c.nodes[k].log, t) && c.nodes[k].commitIndex <= |c.nodes[k].log| {
      CommitBound(cfg, run, k);
      ElectedIs(cfg, c, Exec(cfg, run1), x, t, k);
      BelowMore(c.nodes[k].log, c.nodes[k].currentTerm + 1, t);
    }
    var run2;
    run2, full := Proposes(cfg, run1, c, x, t, command, AppliedBy(c));
    var run3 := ReplicateAll(cfg, run2, x, t, full, AppliedBy(c), {});
    SpreadingStarts(cfg, Exec(cfg, run3), x, t, full, AppliedBy(c));
    run' := TellAll(cfg, run3, x, t, full, AppliedBy(c), {});
    ElectedLog(cfg, c, Exec(cfg, run1), x, t);
    Nodes(cfg, run');
    forall k | k in cfg.servers
      ensures k in Exec(cfg, run').nodes && Complete(c.nodes[k], Exec(cfg, run').nodes[k], full)
    {
      NothingBeyond(cfg, run, run1, x, t, k);
      Finishes(cfg, run', c.nodes[k], x, t, full, AppliedBy(c), k);
      AppliedByIs(cfg, Exec(cfg, run'));
    }
    AppliedByIs(cfg, Exec(cfg, run'));
    AllDone(cfg, c, Exec(cfg, run'), full, command);
  }

  lemma ElectedLog(cfg: Config, c: Cluster, c': Cluster, x: Id, t: nat)
    requires Elected(cfg, c, c', x, t)
    ensures x in cfg.servers && x in c.nodes && x in c'.nodes && c'.nodes[x].log == c.nodes[x].log
  {
  }

  lemma AllDone(cfg: Config, c: Cluster, c': Cluster, full: Log, command: string)
    requires cfg.servers == c.nodes.Keys == c'.nodes.Keys && full != [] && full[|full| - 1].command == command
    requires forall k :: k in cfg.servers ==> Complete(c.nodes[k], c'.nodes[k], full)
    ensures Done(cfg, c, c', full, command)
  {
    hide Complete;
  }

  // ----- A single node

  /** Alone a node never gets beyond asking for votes. */
  ghost predicate Alone(c: Cluster) {
    && (forall id :: id in c.nodes ==>
          c.nodes[id].peers == {} && c.nodes[id].role != Leader && c.nodes[id].log == [])
    && forall msg :: msg in c.msgs ==> msg.VoteRequest?
  }

  lemma {:induction false} AloneNeverLeads(cfg: Config, run: seq<Step>)
    requires |cfg.servers| <= 1
    ensures Alone(Exec(cfg, run))
    decreases |run|
  {
    if run == [] {
      forall id | id in cfg.servers ensures cfg.servers - {id} == {} {
        assert |cfg.servers - {id}| == |cfg.servers| - 1;
      }
    } else {
      AloneNeverLeads(cfg, run[..|run| - 1]);
      hide Receive;
    }
  }

  ghost predicate CanCommit(cfg: Config, run: seq<Step>, command: string) {
    exists run', full :: run <= run' && Done(cfg, Exec(cfg, run), Exec(cfg, run'), full, command)
  }

  /** A safe cluster can go on to commit and apply a new command after every run if and only if it has
      more than one node. */
  lemma ProgressExactly(cfg: Config)
    requires SafeConfig(cfg) && cfg.servers != {}
    ensures (forall run, command :: CanCommit(cfg, run, command)) <==> |cfg.servers| >= 2
  {
    hide Exec, Done;
    if |cfg.servers| >= 2 {
      forall run, command ensures CanCommit(cfg, run, command) {
        var run', full := CanAlwaysCommit(cfg, run, command);
      }
    } else {
      if CanCommit(cfg, [], "") {
        var run', full :| [] <= run' && Done(cfg, Exec(cfg, []), Exec(cfg, run'), full, "");
        AloneNeverLeads(cfg, run');
        var id :| id in cfg.servers;
        DoneHasLog(cfg, Exec(cfg, []), Exec(cfg, run'), full, "", id);
      }
    }
  }

  lemma DoneHasLog(cfg: Config, c: Cluster, c': Cluster, full: Log, command: string, id: Id)
    requires Done(cfg, c, c', full, command) && id in cfg.servers
    ensures id in c'.nodes && c'.nodes[id].log != []
  {
  }
}
