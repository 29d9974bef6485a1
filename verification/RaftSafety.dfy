/** What every run of the cluster guarantees. The statements speak of runs and nodes only; the
    history appears in their proofs. */
module RaftSafety {
  import opened RaftNode
  import opened RaftCluster
  import opened RaftHistory
  import opened RaftLogs
  import opened RaftSteps

  /** Node `id` after the first `i` steps of a run. */
  ghost predicate Alive(cfg: Config, run: seq<Step>, i: nat, id: Id) {
    i <= |run| && id in Exec(cfg, run[..i]).nodes
  }

  ghost function At(cfg: Config, run: seq<Step>, i: nat, id: Id): Node
    requires Alive(cfg, run, i, id)
  {
    Exec(cfg, run[..i]).nodes[id]
  }

  ghost predicate LeaderAt(cfg: Config, run: seq<Step>, i: nat, id: Id, t: nat) {
    Alive(cfg, run, i, id) && At(cfg, run, i, id).role == Leader && At(cfg, run, i, id).currentTerm == t
  }

  /** Throughout the run a term has at most one leader. */
  ghost predicate ElectionSafe(cfg: Config, run: seq<Step>) {
    forall i, j, a, b, t :: LeaderAt(cfg, run, i, a, t) && LeaderAt(cfg, run, j, b, t) ==> a == b
  }

  ghost predicate AppliedAt(cfg: Config, run: seq<Step>, i: nat, id: Id, msg: ApplyMsg) {
    Alive(cfg, run, i, id) && msg in At(cfg, run, i, id).applied
  }

  /** Throughout the run no two nodes apply different commands at the same index. */
  ghost predicate StateMachineSafe(cfg: Config, run: seq<Step>) {
    forall i, j, a, b, m, m' ::
      AppliedAt(cfg, run, i, a, m) && AppliedAt(cfg, run, j, b, m') && m.index == m'.index ==> m.command == m'.command
  }

  lemma {:induction false} HistoryOnlyGrows(cfg: Config, run: seq<Step>, i: nat)
    requires SafeConfig(cfg) && i <= |run|
    ensures Extends(HistoryOf(cfg, run[..i]), HistoryOf(cfg, run))
    decreases |run|
  {
    RunInv(cfg, run);
    InvExtends(cfg, Exec(cfg, run), HistoryOf(cfg, run));
    hide Inv;
    if i == |run| {
      assert run[..i] == run;
    } else {
      var before := run[..|run| - 1];
      assert before[..i] == run[..i];
      HistoryOnlyGrows(cfg, before, i);
      RunInv(cfg, before);
      StepKeepsInv(cfg, Exec(cfg, before), HistoryOf(cfg, before), run[|run| - 1]);
      ExtendsChains(HistoryOf(cfg, run[..i]), HistoryOf(cfg, before), HistoryOf(cfg, run));
    }
  }

  lemma ExtendsChains(h: History, h': History, h'': History)
    requires Extends(h, h') && Extends(h', h'')
    ensures Extends(h, h'')
  {
    forall t | t in h.termLog ensures t in h''.termLog && h.termLog[t] <= h''.termLog[t] {
      assert h.termLog[t] <= h'.termLog[t] <= h''.termLog[t];
    }
  }

  /** A node at any point of a run, seen with the history of that point and of the whole run. */
  lemma NodeAlong(cfg: Config, run: seq<Step>, i: nat, id: Id)
    requires SafeConfig(cfg) && Alive(cfg, run, i, id)
    ensures NodeInv(cfg, HistoryOf(cfg, run[..i]), At(cfg, run, i, id))
    ensures At(cfg, run, i, id).id == id
    ensures HistoryInv(cfg, HistoryOf(cfg, run[..i])) && HistoryInv(cfg, HistoryOf(cfg, run))
    ensures Extends(HistoryOf(cfg, run[..i]), HistoryOf(cfg, run))
  {
    hide HistoryInv;
    RunInv(cfg, run[..i]);
    RunInv(cfg, run);
    HistoryOnlyGrows(cfg, run, i);
    assert NodeInv(cfg, HistoryOf(cfg, run[..i]), Exec(cfg, run[..i]).nodes[id]);
  }

  lemma LeaderAlong(cfg: Config, run: seq<Step>, i: nat, id: Id, t: nat)
    requires SafeConfig(cfg) && LeaderAt(cfg, run, i, id, t)
    ensures var h := HistoryOf(cfg, run);
            && HistoryInv(cfg, h) && t in h.leader && h.leader[t] == id
            && t in h.termLog && InitLog(h, t) <= At(cfg, run, i, id).log <= h.termLog[t]
  {
    hide HistoryInv;
    var h, h' := HistoryOf(cfg, run[..i]), HistoryOf(cfg, run);
    NodeAlong(cfg, run, i, id);
    assert LeaderInv(h, At(cfg, run, i, id));
    LeaderFacts(cfg, h, t);
    assert InitLog(h', t) == InitLog(h, t);
  }

  /** Election safety. */
  lemma OneLeaderPerTerm(cfg: Config, run: seq<Step>)
    requires SafeConfig(cfg)
    ensures ElectionSafe(cfg, run)
  {
    forall i, j, a, b, t | LeaderAt(cfg, run, i, a, t) && LeaderAt(cfg, run, j, b, t) ensures a == b {
      LeaderAlong(cfg, run, i, a, t);
      LeaderAlong(cfg, run, j, b, t);
    }
  }

  /** Leader append-only: while a node leads a term it never drops or changes an entry. */
  lemma LeaderOnlyAppends(cfg: Config, run: seq<Step>, i: nat, j: nat, id: Id, t: nat)
    requires SafeConfig(cfg) && i <= j
    requires LeaderAt(cfg, run, i, id, t) && LeaderAt(cfg, run, j, id, t)
    ensures At(cfg, run, i, id).log <= At(cfg, run, j, id).log
  {
    var upto := run[..j];
    assert upto[..i] == run[..i] && upto[..j] == upto;
    LeaderAlong(cfg, upto, i, id, t);
    NodeAlong(cfg, upto, j, id);
    assert LeaderInv(HistoryOf(cfg, upto), At(cfg, upto, j, id));
  }

  /** Log matching, across nodes and across time: logs that agree on the term at an index agree
      on every entry up to it, terms never fall along a log and entries carry their position. */
  lemma LogsMatch(cfg: Config, run: seq<Step>, i: nat, j: nat, a: Id, b: Id)
    requires SafeConfig(cfg) && Alive(cfg, run, i, a) && Alive(cfg, run, j, b)
    ensures Matching(At(cfg, run, i, a).log, At(cfg, run, j, b).log)
    ensures Sorted(At(cfg, run, i, a).log)
    ensures forall k :: 0 <= k < |At(cfg, run, i, a).log| ==> At(cfg, run, i, a).log[k].index == k + 1
  {
    var h := HistoryOf(cfg, run);
    NodeAlong(cfg, run, i, a);
    NodeAlong(cfg, run, j, b);
    LogOkStays(HistoryOf(cfg, run[..i]), h, At(cfg, run, i, a).log);
    LogOkStays(HistoryOf(cfg, run[..j]), h, At(cfg, run, j, b).log);
    GroundedLogsMatch(h, At(cfg, run, i, a).log, At(cfg, run, j, b).log);
    IndicesArePositions(cfg, h, At(cfg, run, i, a).log);
  }

  /** What a node at some point of the run holds as committed, seen with the whole run's history. */
  lemma CommittedAlong(cfg: Config, run: seq<Step>, i: nat, id: Id)
    requires SafeConfig(cfg) && Alive(cfg, run, i, id)
    ensures var n := At(cfg, run, i, id);
            && AppliedInv(n) && HistoryInv(cfg, HistoryOf(cfg, run))
            && Covered(HistoryOf(cfg, run), n.log[..n.commitIndex], n.currentTerm)
  {
    hide HistoryInv;
    var n := At(cfg, run, i, id);
    NodeAlong(cfg, run, i, id);
    CoveredStays(
      HistoryOf(cfg, run[..i]), HistoryOf(cfg, run), n.log[..n.commitIndex], n.currentTerm, n.currentTerm);
  }

  /** Leader completeness: whatever any node has committed is in the log of every leader of a
      later term, no matter which of the two happens first. */
  lemma LaterLeadersHoldCommitted(cfg: Config, run: seq<Step>, i: nat, j: nat, a: Id, b: Id, t: nat)
    requires SafeConfig(cfg) && Alive(cfg, run, i, a) && LeaderAt(cfg, run, j, b, t)
    requires At(cfg, run, i, a).currentTerm < t
    ensures At(cfg, run, i, a).commitIndex <= |At(cfg, run, i, a).log|
    ensures At(cfg, run, i, a).log[..At(cfg, run, i, a).commitIndex] <= At(cfg, run, j, b).log
  {
    hide HistoryInv;
    var n, h := At(cfg, run, i, a), HistoryOf(cfg, run);
    CommittedAlong(cfg, run, i, a);
    LeaderAlong(cfg, run, j, b, t);
    var prefix := n.log[..n.commitIndex];
    if prefix != [] {
      var k :| Covers(h, k, prefix, n.currentTerm);
      CommitsReachLaterLeaders(cfg, h, k, t);
    }
  }

  lemma CoveredAgree(cfg: Config, h: History, p: Log, q: Log, s: nat, t: nat)
    requires HistoryInv(cfg, h) && Covered(h, p, s) && Covered(h, q, t)
    ensures p <= q || q <= p
  {
    if p != [] && q != [] {
      var k :| Covers(h, k, p, s);
      var l :| Covers(h, l, q, t);
      var m := if k.term <= l.term then l.term else k.term;
      assert Covers(h, k, p, m) && Covers(h, l, q, m);
      CommittedInTermLog(cfg, h, p, m, m);
      CommittedInTermLog(cfg, h, q, m, m);
    }
  }

  /** Committed logs agree: of what any two nodes ever held as committed, one extends the other. */
  lemma CommittedLogsAgree(cfg: Config, run: seq<Step>, i: nat, j: nat, a: Id, b: Id)
    requires SafeConfig(cfg) && Alive(cfg, run, i, a) && Alive(cfg, run, j, b)
    ensures var n, m := At(cfg, run, i, a), At(cfg, run, j, b);
            && n.commitIndex <= |n.log| && m.commitIndex <= |m.log|
            && (n.log[..n.commitIndex] <= m.log[..m.commitIndex] || m.log[..m.commitIndex] <= n.log[..n.commitIndex])
  {
    hide HistoryInv;
    var n, m := At(cfg, run, i, a), At(cfg, run, j, b);
    CommittedAlong(cfg, run, i, a);
    CommittedAlong(cfg, run, j, b);
    CoveredAgree(
      cfg, HistoryOf(cfg, run), n.log[..n.commitIndex], m.log[..m.commitIndex], n.currentTerm, m.currentTerm);
  }

  /** State machine safety. */
  lemma OneCommandPerIndex(cfg: Config, run: seq<Step>)
    requires SafeConfig(cfg)
    ensures StateMachineSafe(cfg, run)
  {
    forall i, j, a, b, x, y | AppliedAt(cfg, run, i, a, x) && AppliedAt(cfg, run, j, b, y) && x.index == y.index
      ensures x.command == y.command
    {
      var n, m := At(cfg, run, i, a), At(cfg, run, j, b);
      CommittedAlong(cfg, run, i, a);
      CommittedAlong(cfg, run, j, b);
      CommittedLogsAgree(cfg, run, i, j, a, b);
      assert x.command == n.log[..n.commitIndex][x.index - 1].command;
      assert y.command == m.log[..m.commitIndex][y.index - 1].command;
    }
  }

  /** Apply messages leave a node with strictly increasing indices, never beyond its commit index. */
  lemma AppliedInOrder(cfg: Config, run: seq<Step>, i: nat, id: Id)
    requires SafeConfig(cfg) && Alive(cfg, run, i, id)
    ensures var n := At(cfg, run, i, id);
            && n.lastApplied <= n.commitIndex <= |n.log|
            && (forall x, y :: 0 <= x < y < |n.applied| ==> n.applied[x].index < n.applied[y].index)
            && (forall x :: 0 <= x < |n.applied| ==> 1 <= n.applied[x].index <= n.lastApplied)
  {
    CommittedAlong(cfg, run, i, id);
  }

  /** A leader's indices for its peers stay between 1 and one past its log, so building a request
      never underflows, and every request carries the leader's whole suffix. */
  lemma PeerIndicesInRange(cfg: Config, run: seq<Step>, i: nat, id: Id, peer: Id, t: nat)
    requires SafeConfig(cfg) && LeaderAt(cfg, run, i, id, t) && peer in At(cfg, run, i, id).peers
    ensures var n := At(cfg, run, i, id);
            var req := AppendArgsFor(n, peer);
            && 1 <= Lookup(n.nextIndex, peer) <= |n.log| + 1 && Lookup(n.matchIndex, peer) <= |n.log|
            && req.prevIndex == Lookup(n.nextIndex, peer) - 1
            && req.prevIndex + |req.entries| == |n.log| && req.leaderCommit <= |n.log|
  {
    NodeAlong(cfg, run, i, id);
    assert LeaderInv(HistoryOf(cfg, run[..i]), At(cfg, run, i, id));
  }

  /** Committing up to the end of the log is the same as committing up to the last new entry:
      for every request in flight and every node, whatever its log is after accepting it. */
  lemma FollowerCommitBound(cfg: Config, run: seq<Step>, i: nat, dest: Id, req: AppendArgs, log: Log)
    requires SafeConfig(cfg) && i <= |run| && AppendRequest(dest, req) in Exec(cfg, run[..i]).msgs
    requires req.prevIndex <= |log|
    ensures var merged := Merge(log, req.prevIndex, req.entries);
            Min(req.leaderCommit, |merged|) == Min(req.leaderCommit, req.prevIndex + |req.entries|) == req.leaderCommit
  {
    RunInv(cfg, run[..i]);
    assert MessageInv(HistoryOf(cfg, run[..i]), AppendRequest(dest, req));
  }

  // ----- Committed prefixes are stable

  /** What a node must not lose from one state to the next. */
  ghost predicate Keeps(n: Node, n': Node) {
    && n.commitIndex <= |n.log| && n.log[..n.commitIndex] <= n'.log
    && n.commitIndex <= n'.commitIndex && n.currentTerm <= n'.currentTerm
    && n.lastApplied <= n'.lastApplied && n.applied <= n'.applied
  }

  lemma KeepsChains(n: Node, n': Node, n'': Node)
    requires Keeps(n, n') && Keeps(n', n'')
    ensures Keeps(n, n'')
  {
    assert n.log[..n.commitIndex] == n'.log[..n'.commitIndex][..n.commitIndex] == n''.log[..n.commitIndex];
  }

  lemma ReplyKeeps(n: Node, from: Id, reqTerm: nat, covered: nat, r: AppendResult, keepVote: bool, room: set<nat>)
    requires n.lastApplied <= n.commitIndex <= |n.log|
    ensures Keeps(n, HandleAppendReply(n, from, reqTerm, covered, r, keepVote, room))
  {
  }

  lemma AppendKeeps(cfg: Config, h: History, n: Node, req: AppendArgs, room: set<nat>)
    requires HistoryInv(cfg, h) && NodeInv(cfg, h, n) && RequestInv(h, n.id, req)
    ensures Keeps(n, HandleAppendEntries(n, req, cfg.keepVote, room).0)
  {
    hide HistoryInv, NodeInv, HandleAppendEntries, Merge, Covered, LogOk;
    NodeFacts(cfg, h, n);
    if req.term >= n.currentTerm && PrevMatches(n.log, req) {
      AcceptCommits(cfg, h, n, req, room);
    } else {
      RejectChangesLittle(n, req, cfg.keepVote, room);
    }
  }

  lemma VoteKeeps(n: Node, msg: Message, keepVote: bool, room: set<nat>)
    requires n.commitIndex <= |n.log| && (msg.VoteRequest? || msg.VoteReply?)
    ensures Keeps(n, Receive(n, msg, keepVote, room).0)
  {
  }

  lemma DeliverKeeps(cfg: Config, c: Cluster, h: History, id: Id, msg: Message, room: set<nat>)
    requires Inv(cfg, c, h) && id in c.nodes && msg in c.msgs && Addressed(msg, c.nodes[id])
    ensures Keeps(c.nodes[id], Receive(c.nodes[id], msg, cfg.keepVote, room).0)
  {
    hide HistoryInv, NodeInv, HandleAppendEntries, HandleAppendReply, Keeps;
    var n := c.nodes[id];
    assert NodeInv(cfg, h, n) && MessageInv(h, msg);
    NodeFacts(cfg, h, n);
    match msg
    case AppendReply(from, _, reqTerm, covered, r) =>
      ReplyKeeps(n, from, reqTerm, covered, r, cfg.keepVote, room);
    case AppendRequest(_, req) => AppendKeeps(cfg, h, n, req, room);
    case _ => VoteKeeps(n, msg, cfg.keepVote, room);
  }

  lemma RejectChangesLittle(n: Node, req: AppendArgs, keepVote: bool, room: set<nat>)
    requires n.commitIndex <= |n.log| && (req.term < n.currentTerm || !PrevMatches(n.log, req))
    ensures Keeps(n, HandleAppendEntries(n, req, keepVote, room).0)
  {
  }

  lemma StepKeepsCommitted(cfg: Config, c: Cluster, h: History, step: Step, id: Id)
    requires Inv(cfg, c, h) && id in c.nodes
    ensures id in Next(cfg, c, step).nodes && Keeps(c.nodes[id], Next(cfg, c, step).nodes[id])
  {
    hide HistoryInv, NodeInv;
    assert NodeInv(cfg, h, c.nodes[id]);
    NodeFacts(cfg, h, c.nodes[id]);
    if Enabled(c, step) && step.Deliver? && step.id == id {
      DeliverKeeps(cfg, c, h, id, step.msg, step.room);
      hide Receive;
    }
  }

  /** Conflict truncation never cuts below a node's commit index; commit index, term and applied
      messages never go back. */
  lemma {:induction false} CommittedIsStable(cfg: Config, run: seq<Step>, i: nat, j: nat, id: Id)
    requires SafeConfig(cfg) && i <= j && Alive(cfg, run, i, id) && Alive(cfg, run, j, id)
    ensures Keeps(At(cfg, run, i, id), At(cfg, run, j, id))
    decreases j
  {
    hide Inv;
    RunInv(cfg, run[..i]);
    if i < j {
      var before := run[..j - 1];
      assert run[..j][..j - 1] == before && run[..j][j - 1] == run[j - 1];
      RunInv(cfg, before);
      AliveAlways(cfg, run, j - 1, id);
      CommittedIsStable(cfg, run, i, j - 1, id);
      StepKeepsCommitted(cfg, Exec(cfg, before), HistoryOf(cfg, before), run[j - 1], id);
      KeepsChains(At(cfg, run, i, id), At(cfg, run, j - 1, id), At(cfg, run, j, id));
    } else {
      NodeAlong(cfg, run, i, id);
      NodeFacts(cfg, HistoryOf(cfg, run[..i]), At(cfg, run, i, id));
    }
  }

  lemma AliveAlways(cfg: Config, run: seq<Step>, i: nat, id: Id)
    requires SafeConfig(cfg) && i <= |run|
    ensures Alive(cfg, run, i, id) <==> id in cfg.servers
  {
    RunInv(cfg, run[..i]);
  }
}
