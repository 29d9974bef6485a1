/** Every step keeps the cluster invariant. */
module RaftSteps {
  import opened RaftNode
  import opened RaftCluster
  import opened RaftHistory
  import opened RaftLogs

  /** Leader completeness, on the recorded history: a leader of a later term starts out with
      everything that was ever committed in an earlier one. */
  lemma {:induction false} CommitsReachLaterLeaders(cfg: Config, h: History, k: Commit, t: nat)
    requires HistoryInv(cfg, h)
    requires k in h.commits && t in h.leader && k.term < t
    ensures OwnEntry(h, k.term, k.index) && h.termLog[k.term][..k.index] <= InitLog(h, t)
    decreases t
  {
    assert CommitOk(cfg, h, k) && LeaderOk(cfg, h, t);
    var v := QuorumsMeet(cfg, k.quorum, h.electors[t]);
    var a, g := Ack(v, k.term, k.index), Grant(v, h.leader[t], t);
    assert a in h.acks && g in h.grants && Respects(h, a, g);
    if Blocked(h, k.term, k.index, t) {
      var later :| k.term < later < t && Misses(h, k.term, k.index, later);
      CommitsReachLaterLeaders(cfg, h, k, later);
      assert false;
    }
  }

  /** ... and so has all of it in its log for the whole term. */
  lemma CommittedInTermLog(cfg: Config, h: History, prefix: Log, s: nat, t: nat)
    requires HistoryInv(cfg, h) && t in h.leader && s <= t && Covered(h, prefix, s)
    ensures prefix <= h.termLog[t]
  {
    assert LeaderOk(cfg, h, t);
    if prefix != [] {
      var k :| Covers(h, k, prefix, s);
      if k.term < t {
        CommitsReachLaterLeaders(cfg, h, k, t);
      }
    }
  }

  /** Election safety, on the recorded history: whoever a quorum votes for is the term's leader. */
  lemma OneWinner(cfg: Config, h: History, c: Id, q: set<Id>, t: nat)
    requires SafeConfig(cfg) && HistoryInv(cfg, h) && t in h.leader
    requires Quorum(cfg, q) && forall v :: v in q ==> Grant(v, c, t) in h.grants
    ensures h.leader[t] == c
  {
    assert LeaderOk(cfg, h, t);
    if cfg.keepVote {
      var v := QuorumsMeet(cfg, q, h.electors[t]);
      assert Grant(v, c, t) in h.grants && Grant(v, h.leader[t], t) in h.grants;
    } else {
      SmallQuorumIsEveryone(cfg, q);
      assert CandOk(cfg, h, h.leader[t], t);
      assert Grant(h.leader[t], c, t) in h.grants;
    }
  }

  lemma OthersKeepInv(cfg: Config, c: Cluster, h: History, h': History, id: Id)
    requires HistoryInv(cfg, h) && ExtendedBy(h, h', id)
    requires forall other :: other in c.nodes ==> c.nodes[other].id == other
    requires forall other {:trigger NodeInv(cfg, h, c.nodes[other])} ::
               other in c.nodes ==> NodeInv(cfg, h, c.nodes[other])
    ensures forall other {:trigger NodeInv(cfg, h', c.nodes[other])} ::
              other in c.nodes && other != id ==> NodeInv(cfg, h', c.nodes[other])
  {
    forall other | other in c.nodes && other != id ensures NodeInv(cfg, h', c.nodes[other]) {
      assert NodeInv(cfg, h, c.nodes[other]);
      BystanderStays(cfg, h, h', c.nodes[other], id);
    }
  }

  lemma MessagesKeepInv(h: History, h': History, msgs: set<Message>, sent: set<Message>)
    requires Extends(h, h')
    requires forall msg {:trigger MessageInv(h, msg)} :: msg in msgs ==> MessageInv(h, msg)
    requires forall msg {:trigger MessageInv(h', msg)} :: msg in sent ==> MessageInv(h', msg)
    ensures forall msg {:trigger MessageInv(h', msg)} :: msg in msgs + sent ==> MessageInv(h', msg)
  {
    forall msg | msg in msgs + sent ensures MessageInv(h', msg) {
      if msg in msgs {
        assert MessageInv(h, msg);
        MessageStays(h, h', msg);
      }
    }
  }

  /** What one node does keeps the invariant if it keeps it at that node, in the history and in
      the messages it sends. */
  lemma NodeStepKeepsInv(
    cfg: Config, c: Cluster, h: History, c': Cluster, h': History, id: Id, n': Node, sent: set<Message>)
    requires Inv(cfg, c, h) && id in c.nodes
    requires ExtendedBy(h, h', id) && HistoryInv(cfg, h') && NodeInv(cfg, h', n')
    requires n'.id == id && n'.peers == c.nodes[id].peers
    requires forall msg {:trigger MessageInv(h', msg)} :: msg in sent ==> MessageInv(h', msg)
    requires c' == Cluster(c.nodes[id := n'], c.msgs + sent)
    ensures Inv(cfg, c', h') && Extends(h, h')
  {
    hide HistoryInv, NodeInv, MessageInv;
    OthersKeepInv(cfg, c, h, h', id);
    MessagesKeepInv(h, h', c.msgs, sent);
    forall other | other in c'.nodes ensures NodeInv(cfg, h', c'.nodes[other]) {
      if other != id {
        assert NodeInv(cfg, h', c.nodes[other]);
      }
    }
  }

  /** A node that keeps its log and only moves to a later term. */
  lemma LaterTermKeeps(cfg: Config, h: History, n: Node, n': Node)
    requires HistoryInv(cfg, h) && NodeInv(cfg, h, n)
    requires n'.id == n.id && n'.log == n.log && n'.currentTerm >= n.currentTerm
    requires n'.commitIndex == n.commitIndex && n'.lastApplied == n.lastApplied && n'.applied == n.applied
    ensures LogOk(h, n'.log) && Below(n'.log, n'.currentTerm + 1) && AppliedInv(n')
    ensures Covered(h, n'.log[..n'.commitIndex], n'.currentTerm)
    ensures AckInv(h, n')
  {
    CoveredStays(h, h, n.log[..n.commitIndex], n.currentTerm, n'.currentTerm);
    forall s | s in h.leader ensures (h.leader[s], s) in h.candLog {
      assert LeaderOk(cfg, h, s);
    }
    forall a | a in h.acks ensures AckKept(h, n', a) {
      assert AckOk(cfg, h, a) && AckKept(h, n, a);
      if Blocked(h, a.term, a.index, n.currentTerm + 1) {
        BlockedStays(cfg, h, h, a.term, a.index, n.currentTerm + 1, n'.currentTerm + 1);
      }
    }
  }

  // ----- Starting an election

  lemma TimeoutHistory(cfg: Config, h: History, n: Node)
    requires HistoryInv(cfg, h) && NodeInv(cfg, h, n) && n.id in cfg.servers
    ensures ExtendedBy(h, OnTimeout(n, h), n.id) && HistoryInv(cfg, OnTimeout(n, h))
  {
    var h' := OnTimeout(n, h);
    var t := n.currentTerm + 1;
    SameHistory(cfg, h, n.id);
    assert VotesUnique(cfg, h');
    hide HistoryInv, VotesUnique;
    assert (n.id, t) !in h.candLog;
    assert ExtendedBy(h, h', n.id);
    LogOkStays(h, h', n.log);
    assert CandOk(cfg, h', n.id, t);
    forall a, g | a in h'.acks && g in h'.grants && (a !in h.acks || g !in h.grants)
      ensures Respects(h', a, g)
    {
      assert g == Grant(n.id, n.id, t) && AckKept(h, n, a);
      AckFacts(cfg, h, a);
      if a.node == n.id {
        OwnEntryStays(h, h', a.term, a.index);
        if Blocked(h, a.term, a.index, t) {
          BlockedIsStable(cfg, h, h', a.term, a.index, t);
        }
      }
    }
    HistoryGrows(cfg, h, h');
  }

  lemma BlockedIsStable(cfg: Config, h: History, h': History, t: nat, i: nat, upper: nat)
    requires HistoryInv(cfg, h) && Extends(h, h') && t in h.termLog && i <= |h.termLog[t]|
    requires Blocked(h, t, i, upper)
    ensures Blocked(h', t, i, upper)
  {
    forall s | s in h.leader ensures (h.leader[s], s) in h.candLog {
      assert LeaderOk(cfg, h, s);
    }
    BlockedStays(cfg, h, h', t, i, upper, upper);
  }

  lemma NodePartsStay(cfg: Config, h: History, h': History, n: Node)
    requires HistoryInv(cfg, h) && Extends(h, h')
    requires LogOk(h, n.log) && Covered(h, n.log[..Min(n.commitIndex, |n.log|)], n.currentTerm)
    ensures LogOk(h', n.log) && Covered(h', n.log[..Min(n.commitIndex, |n.log|)], n.currentTerm)
  {
    LogOkStays(h, h', n.log);
    CoveredStays(h, h', n.log[..Min(n.commitIndex, |n.log|)], n.currentTerm, n.currentTerm);
  }

  lemma AckInvCarries(cfg: Config, h: History, h': History, n: Node)
    requires HistoryInv(cfg, h) && Extends(h, h') && AckInv(h, n) && h'.acks == h.acks
    ensures AckInv(h', n)
  {
    forall s | s in h.leader ensures (h.leader[s], s) in h.candLog {
      assert LeaderOk(cfg, h, s);
    }
    AckInvStays(cfg, h, h', n);
  }

  lemma TimeoutNode(cfg: Config, h: History, n: Node)
    requires HistoryInv(cfg, h) && NodeInv(cfg, h, n) && Extends(h, OnTimeout(n, h))
    ensures NodeInv(cfg, OnTimeout(n, h), StartElection(n))
  {
    hide HistoryInv;
    var n', h' := StartElection(n), OnTimeout(n, h);
    LaterTermKeeps(cfg, h, n, n');
    NodePartsStay(cfg, h, h', n');
    AckInvCarries(cfg, h, h', n');
    if n'.currentTerm in h.leader {
      LeaderFacts(cfg, h, n'.currentTerm);
    }
    hide AckInv, LogOk, Covered;
    assert VoteInv(cfg, h', n');
    assert CandidateInv(h', n');
  }

  lemma TimeoutStep(cfg: Config, c: Cluster, h: History, id: Id)
    requires Inv(cfg, c, h) && id in c.nodes
    ensures Inv(cfg, Next(cfg, c, Timeout(id)), Record(cfg, c, h, Timeout(id)))
    ensures Extends(h, Record(cfg, c, h, Timeout(id)))
  {
    hide HistoryInv, NodeInv;
    var n := c.nodes[id];
    assert NodeInv(cfg, h, n);
    TimeoutHistory(cfg, h, n);
    TimeoutNode(cfg, h, n);
    var n' := StartElection(n);
    var sent := {VoteRequest(VoteArgsOf(n'))};
    NodeStepKeepsInv(cfg, c, h, Next(cfg, c, Timeout(id)), OnTimeout(n, h), id, n', sent);
  }

  // ----- Stepping down

  lemma StepDownKeeps(cfg: Config, h: History, n: Node, term: nat)
    requires HistoryInv(cfg, h) && NodeInv(cfg, h, n)
    requires term > n.currentTerm || (term == n.currentTerm && term in h.leader && h.leader[term] != n.id)
    ensures NodeInv(cfg, h, BecomeFollower(n, term, cfg.keepVote))
  {
    LaterTermKeeps(cfg, h, n, BecomeFollower(n, term, cfg.keepVote));
  }

  // ----- Answering a vote request

  /** A node that grants a vote has no running candidacy of its own in that term. */
  lemma GranterIsNoRival(cfg: Config, h: History, n: Node, candidate: Id)
    requires SafeConfig(cfg) && HistoryInv(cfg, h) && NodeInv(cfg, h, n) && n.id in cfg.servers
    requires n.votedFor == NoVote || n.votedFor == candidate
    requires !cfg.keepVote && candidate != n.id
    ensures (n.id, n.currentTerm) !in h.candLog
  {
    var t := n.currentTerm;
    if t in h.leader {
      assert LeaderOk(cfg, h, t);
      SmallQuorumIsEveryone(cfg, h.electors[t]);
      assert Grant(n.id, h.leader[t], t) in h.grants;
    }
  }

  lemma VoteHistory(cfg: Config, h: History, f: Node, req: VoteArgs)
    requires SafeConfig(cfg) && HistoryInv(cfg, h) && NodeInv(cfg, h, f) && f.id in cfg.servers
    requires MessageInv(h, VoteRequest(req)) && req.term == f.currentTerm && req.candidate != f.id
    requires (f.votedFor == NoVote || f.votedFor == req.candidate) && UpToDate(req.lastIndex, req.lastTerm, f.log)
    ensures ExtendedBy(h, OnVote(f, req, VoteResult(f.currentTerm, true), h), f.id)
    ensures HistoryInv(cfg, OnVote(f, req, VoteResult(f.currentTerm, true), h))
  {
    hide HistoryInv, NodeInv, VotesUnique;
    var h' := OnVote(f, req, VoteResult(f.currentTerm, true), h);
    var t := req.term;
    SameHistory(cfg, h, f.id);
    assert Extends(h, h');
    CandidateFacts(cfg, h, req.candidate, t);
    assert GrantOk(cfg, h', Grant(f.id, req.candidate, t));
    forall a, g | a in h'.acks && g in h'.grants && (a !in h.acks || g !in h.grants)
      ensures Respects(h', a, g)
    {
      NewVoteRespects(cfg, h, f, req, a);
      if Blocked(h, a.term, a.index, t) {
        BlockedIsStable(cfg, h, h', a.term, a.index, t);
      }
    }
    VoteStaysUnique(cfg, h, h', f, req);
    HistoryGrows(cfg, h, h');
  }

  lemma VoteStaysUnique(cfg: Config, h: History, h': History, f: Node, req: VoteArgs)
    requires SafeConfig(cfg) && HistoryInv(cfg, h) && NodeInv(cfg, h, f) && f.id in cfg.servers
    requires MessageInv(h, VoteRequest(req)) && req.term == f.currentTerm && req.candidate != f.id
    requires f.votedFor == NoVote || f.votedFor == req.candidate
    requires h' == h.(grants := h.grants + {Grant(f.id, req.candidate, req.term)})
    ensures VotesUnique(cfg, h')
    ensures cfg.keepVote ==>
      forall g :: g in h'.grants && g.voter == f.id && g.term == req.term ==> g.candidate == req.candidate
    ensures !cfg.keepVote ==> (f.id, req.term) !in h.candLog
  {
    if cfg.keepVote {
      forall g | g in h.grants && g.voter == f.id && g.term == req.term ensures g.candidate == req.candidate {
        assert GrantOk(cfg, h, g);
        assert CandOk(cfg, h, g.candidate, g.term);
      }
    } else {
      GranterIsNoRival(cfg, h, f, req.candidate);
    }
  }

  lemma NewVoteRespects(cfg: Config, h: History, f: Node, req: VoteArgs, a: Ack)
    requires HistoryInv(cfg, h) && NodeInv(cfg, h, f)
    requires MessageInv(h, VoteRequest(req)) && req.term == f.currentTerm
    requires UpToDate(req.lastIndex, req.lastTerm, f.log)
    requires a in h.acks && Grant(f.id, req.candidate, req.term) !in h.grants
    ensures AckOk(cfg, h, a)
    ensures Respects(h, a, Grant(f.id, req.candidate, req.term))
  {
    var t := req.term;
    var g := Grant(f.id, req.candidate, t);
    assert AckOk(cfg, h, a) && AckKept(h, f, a) && CandOk(cfg, h, req.candidate, t);
    if t in h.leader {
      assert LeaderOk(cfg, h, t);
      assert !Matters(h, g);
    } else if a.node == f.id && a.term < t && OwnEntry(h, a.term, a.index) {
      if Blocked(h, a.term, a.index, t + 1) {
        var later :| a.term < later < t + 1 && Misses(h, a.term, a.index, later);
        assert later != t;
      } else {
        assert LeaderOk(cfg, h, a.term) && CandOk(cfg, h, h.leader[a.term], a.term);
        UpToDateHolds(cfg, h, a.term, a.index, f.log, h.candLog[(req.candidate, t)], t);
      }
    }
  }

  lemma VoteNode(cfg: Config, h: History, f: Node, req: VoteArgs)
    requires SafeConfig(cfg) && HistoryInv(cfg, h) && NodeInv(cfg, h, f) && f.id in cfg.servers
    requires MessageInv(h, VoteRequest(req)) && req.term == f.currentTerm && req.candidate != f.id
    requires (f.votedFor == NoVote || f.votedFor == req.candidate)
    requires Extends(h, OnVote(f, req, VoteResult(f.currentTerm, true), h))
    ensures NodeInv(cfg, OnVote(f, req, VoteResult(f.currentTerm, true), h), f.(votedFor := req.candidate))
  {
    var n', h' := f.(votedFor := req.candidate), OnVote(f, req, VoteResult(f.currentTerm, true), h);
    VoteStaysUnique(cfg, h, h', f, req);
    hide HistoryInv;
    NodePartsStay(cfg, h, h', n');
    LaterTermKeeps(cfg, h, f, n');
    AckInvCarries(cfg, h, h', n');
    hide AckInv, LogOk, Covered;
    assert VoteInv(cfg, h', n');
    assert n'.role == Leader ==> LeaderInv(h', n');
    assert n'.role == Candidate ==> CandidateInv(h', n');
  }

  lemma VoteRequestStep(cfg: Config, c: Cluster, h: History, id: Id, req: VoteArgs, room: set<nat>)
    requires Inv(cfg, c, h) && Enabled(c, Deliver(id, VoteRequest(req), room))
    ensures var step := Deliver(id, VoteRequest(req), room);
            Inv(cfg, Next(cfg, c, step), Record(cfg, c, h, step)) && Extends(h, Record(cfg, c, h, step))
  {
    hide HistoryInv, NodeInv;
    var n := c.nodes[id];
    var (n', r) := HandleRequestVote(n, req, cfg.keepVote);
    var h' := OnVote(n, req, r, h);
    assert NodeInv(cfg, h, n) && MessageInv(h, VoteRequest(req));
    var f := if req.term > n.currentTerm then BecomeFollower(n, req.term, cfg.keepVote) else n;
    if req.term > n.currentTerm {
      StepDownKeeps(cfg, h, n, req.term);
    }
    if r.granted {
      VoteHistory(cfg, h, f, req);
      VoteNode(cfg, h, f, req);
    } else {
      SameHistory(cfg, h, id);
    }
    var sent := {VoteReply(id, req.candidate, req.term, r)};
    NodeStepKeepsInv(cfg, c, h, Next(cfg, c, Deliver(id, VoteRequest(req), room)), h', id, n', sent);
  }

  // ----- Counting votes

  ghost function Won(h: History, n: Node, votes: set<Id>): History {
    h.(leader := h.leader[n.currentTerm := n.id],
       electors := h.electors[n.currentTerm := votes],
       termLog := h.termLog[n.currentTerm := n.log])
  }

  lemma WinHistory(cfg: Config, h: History, n: Node, votes: set<Id>)
    requires HistoryInv(cfg, h) && NodeInv(cfg, h, n) && n.role == Candidate
    requires n.currentTerm !in h.leader && Quorum(cfg, votes)
    requires forall v :: v in votes ==> Grant(v, n.id, n.currentTerm) in h.grants
    ensures ExtendedBy(h, Won(h, n, votes), n.id) && HistoryInv(cfg, Won(h, n, votes))
  {
    hide HistoryInv, VotesUnique, AckInv, Covered, LogOk, VoteInv, AppliedInv, Quorum;
    var t, h' := n.currentTerm, Won(h, n, votes);
    SameHistory(cfg, h, n.id);
    SameVotes(cfg, h, h');
    assert ExtendedBy(h, h', n.id);
    LogOkStays(h, h', n.log);
    IndicesArePositions(cfg, h, n.log);
    assert InitLog(h', t) == n.log;
    assert LeaderOk(cfg, h', t);
    HistoryGrows(cfg, h, h');
  }

  /** An entry carries the index it stands at. */
  lemma IndicesArePositions(cfg: Config, h: History, log: Log)
    requires HistoryInv(cfg, h) && LogOk(h, log)
    ensures forall i :: 0 <= i < |log| ==> log[i].index == i + 1
  {
    forall i | 0 <= i < |log| ensures log[i].index == i + 1 {
      assert GroundedAt(h, log, i) && LeaderOk(cfg, h, log[i].term);
      assert log[i] == log[..i + 1][i] == h.termLog[log[i].term][i];
    }
  }

  lemma WinNode(cfg: Config, h: History, n: Node, counted: Node)
    requires HistoryInv(cfg, h) && Extends(h, Won(h, n, counted.votes))
    requires NodeInv(cfg, h, n) && n.role == Candidate
    requires counted == n.(votes := counted.votes) && n.currentTerm !in h.leader
    ensures NodeInv(cfg, Won(h, n, counted.votes), BecomeLeader(counted))
  {
    hide HistoryInv;
    var n', h' := BecomeLeader(counted), Won(h, n, counted.votes);
    NodePartsStay(cfg, h, h', n');
    LaterTermKeeps(cfg, h, n, n');
    AckInvCarries(cfg, h, h', n');
    CandidateFacts(cfg, h, n.id, n.currentTerm);
    hide AckInv, LogOk, Covered;
    assert VoteInv(cfg, h', n');
    assert LeaderInv(h', n');
  }

  lemma VotesAreQuorum(cfg: Config, h: History, n: Node, votes: set<Id>)
    requires HistoryInv(cfg, h) && n.peers == cfg.servers - {n.id} && n.id in cfg.servers
    requires Enough(|votes|, n.peers)
    requires forall v :: v in votes ==> Grant(v, n.id, n.currentTerm) in h.grants
    ensures Quorum(cfg, votes)
  {
    forall v | v in votes ensures v in cfg.servers {
      assert GrantOk(cfg, h, Grant(v, n.id, n.currentTerm));
    }
    assert |n.peers| == |cfg.servers| - 1;
  }

  lemma CountedNode(cfg: Config, h: History, n: Node, from: Id)
    requires HistoryInv(cfg, h) && NodeInv(cfg, h, n) && n.role == Candidate
    requires Grant(from, n.id, n.currentTerm) in h.grants
    ensures NodeInv(cfg, h, n.(votes := n.votes + {from}))
    ensures CandidateInv(h, n.(votes := n.votes + {from}))
  {
    var n' := n.(votes := n.votes + {from});
    LaterTermKeeps(cfg, h, n, n');
    hide HistoryInv, AckInv, LogOk, Covered;
    assert CandidateInv(h, n');
  }

  lemma VoteReplyKeeps(cfg: Config, h: History, n: Node, from: Id, reqTerm: nat, r: VoteResult)
    requires SafeConfig(cfg) && HistoryInv(cfg, h) && NodeInv(cfg, h, n)
    requires n.id in cfg.servers && n.peers == cfg.servers - {n.id}
    requires MessageInv(h, VoteReply(from, n.id, reqTerm, r))
    ensures var n' := HandleVoteReply(n, from, reqTerm, r, cfg.keepVote);
            var h' := OnVoteReply(n, n', h);
            ExtendedBy(h, h', n.id) && HistoryInv(cfg, h') && NodeInv(cfg, h', n')
  {
    hide HistoryInv, NodeInv;
    SameHistory(cfg, h, n.id);
    if n.role == Candidate && n.currentTerm == reqTerm {
      if r.term > n.currentTerm {
        StepDownKeeps(cfg, h, n, r.term);
      } else if r.granted {
        var counted := n.(votes := n.votes + {from});
        CountedNode(cfg, h, n, from);
        if Enough(|counted.votes|, n.peers) {
          VotesAreQuorum(cfg, h, n, counted.votes);
          if n.currentTerm in h.leader {
            OneWinner(cfg, h, n.id, counted.votes, n.currentTerm);
          }
          WinHistory(cfg, h, n, counted.votes);
          WinNode(cfg, h, n, counted);
        }
      }
    }
  }

  lemma VoteReplyStep(cfg: Config, c: Cluster, h: History, id: Id, msg: Message, room: set<nat>)
    requires Inv(cfg, c, h) && Enabled(c, Deliver(id, msg, room)) && msg.VoteReply?
    ensures Inv(cfg, Next(cfg, c, Deliver(id, msg, room)), Record(cfg, c, h, Deliver(id, msg, room)))
    ensures Extends(h, Record(cfg, c, h, Deliver(id, msg, room)))
  {
    hide HistoryInv, NodeInv, ExtendedBy;
    var n := c.nodes[id];
    assert NodeInv(cfg, h, n) && MessageInv(h, msg);
    VoteReplyKeeps(cfg, h, n, msg.from, msg.reqTerm, msg.voted);
    var n' := HandleVoteReply(n, msg.from, msg.reqTerm, msg.voted, cfg.keepVote);
    NodeStepKeepsInv(cfg, c, h, Next(cfg, c, Deliver(id, msg, room)), OnVoteReply(n, n', h), id, n', {});
  }

  // ----- Proposing and sending

  lemma ProposeLeader(cfg: Config, h: History, h': History, n: Node, command: string)
    requires LogOk(h, n.log) && Below(n.log, n.currentTerm + 1) && LeaderInv(h, n) && n.role == Leader
    requires LeaderOk(cfg, h, n.currentTerm) && Extends(h, h') && h' == OnPropose(n, Propose(n, command), h)
    ensures LeaderOk(cfg, h', n.currentTerm)
  {
    hide LogOk, Below, Quorum, Extends;
    var t, log' := n.currentTerm, Propose(n, command).log;
    assert InitLog(h', t) == InitLog(h, t);
    LogOkStays(h, h', n.log);
    ExtendedLogOk(h', n.log, log', t);
  }

  lemma ProposeHistory(cfg: Config, h: History, n: Node, command: string)
    requires HistoryInv(cfg, h) && NodeInv(cfg, h, n) && n.role == Leader && n.id in cfg.servers
    ensures var h' := OnPropose(n, Propose(n, command), h);
            ExtendedBy(h, h', n.id) && HistoryInv(cfg, h')
  {
    hide HistoryInv, VotesUnique, AckInv, Covered, LogOk, VoteInv, AppliedInv, LeaderOk, Below;
    var t, log' := n.currentTerm, Propose(n, command).log;
    var h' := OnPropose(n, Propose(n, command), h);
    SameHistory(cfg, h, n.id);
    SameVotes(cfg, h, h');
    assert ExtendedBy(h, h', n.id);
    LeaderFacts(cfg, h, t);
    ProposeLeader(cfg, h, h', n, command);
    forall a, g | a in h'.acks && g in h'.grants && (a !in h.acks || g !in h.grants)
      ensures Respects(h', a, g)
    {
      assert a == Ack(n.id, t, |log'|);
      OnlyEarlierVotes(cfg, h, n, g);
    }
    assert AckOk(cfg, h', Ack(n.id, t, |log'|));
    HistoryGrows(cfg, h, h');
  }

  lemma OnlyEarlierVotes(cfg: Config, h: History, n: Node, g: Grant)
    requires VoteInv(cfg, h, n) && g in h.grants
    ensures g.voter == n.id ==> g.term <= n.currentTerm
  {
  }

  lemma ExtendedLogOk(h: History, log: Log, log': Log, t: nat)
    requires LogOk(h, log) && Below(log, t + 1)
    requires |log'| == |log| + 1 && log <= log' && log'[|log|].term == t
    requires t in h.termLog && h.termLog[t] == log'
    ensures LogOk(h, log')
  {
    forall i | 0 <= i < |log'| ensures GroundedAt(h, log', i) {
      if i < |log| {
        assert GroundedAt(h, log, i) && log[i] == log'[i] && log[..i + 1] == log'[..i + 1];
      }
    }
  }

  lemma ProposeNode(cfg: Config, h: History, n: Node, command: string)
    requires HistoryInv(cfg, h) && NodeInv(cfg, h, n) && n.role == Leader
    requires Extends(h, OnPropose(n, Propose(n, command), h))
    ensures NodeInv(cfg, OnPropose(n, Propose(n, command), h), Propose(n, command))
  {
    hide HistoryInv, AckInv, LogOk, Covered, VoteInv, LeaderInv;
    var t, n' := n.currentTerm, Propose(n, command);
    var h' := OnPropose(n, n', h);
    LogOkStays(h, h', n.log);
    ExtendedLogOk(h', n.log, n'.log, t);
    assert n'.log[..n.commitIndex] == n.log[..n.commitIndex];
    CoveredStays(h, h', n.log[..n.commitIndex], t, t);
    ProposeKeepsAcks(cfg, h, n, command);
    ProposeKeepsVote(cfg, h, n, command);
    ProposeKeepsLeader(h, n, command);
  }

  lemma ProposeKeepsVote(cfg: Config, h: History, n: Node, command: string)
    requires VoteInv(cfg, h, n) && n.role == Leader
    ensures VoteInv(cfg, OnPropose(n, Propose(n, command), h), Propose(n, command))
  {
  }

  lemma ProposeKeepsLeader(h: History, n: Node, command: string)
    requires LeaderInv(h, n) && n.role == Leader
    ensures LeaderInv(OnPropose(n, Propose(n, command), h), Propose(n, command))
  {
  }

  lemma ProposeKeepsAcks(cfg: Config, h: History, n: Node, command: string)
    requires HistoryInv(cfg, h) && AckInv(h, n) && n.role == Leader
    requires Extends(h, OnPropose(n, Propose(n, command), h))
    ensures AckInv(OnPropose(n, Propose(n, command), h), Propose(n, command))
  {
    hide HistoryInv, LogOk, Covered;
    var t, n' := n.currentTerm, Propose(n, command);
    var h' := OnPropose(n, n', h);
    forall a | a in h'.acks ensures AckKept(h', n', a) {
      if a in h.acks {
        AckFacts(cfg, h, a);
        assert AckKept(h, n, a);
        OwnEntryStays(h, h', a.term, a.index);
        if Blocked(h, a.term, a.index, t + 1) {
          BlockedIsStable(cfg, h, h', a.term, a.index, t + 1);
        }
      } else {
        assert a == Ack(n.id, t, |n'.log|) && h'.termLog[t][..a.index] == n'.log;
      }
    }
  }

  lemma ProposeStep(cfg: Config, c: Cluster, h: History, id: Id, command: string)
    requires Inv(cfg, c, h) && id in c.nodes
    ensures Inv(cfg, Next(cfg, c, ClientPropose(id, command)), Record(cfg, c, h, ClientPropose(id, command)))
    ensures Extends(h, Record(cfg, c, h, ClientPropose(id, command)))
  {
    hide HistoryInv, NodeInv;
    var n := c.nodes[id];
    assert NodeInv(cfg, h, n);
    if n.role == Leader {
      ProposeHistory(cfg, h, n, command);
      ProposeNode(cfg, h, n, command);
    } else {
      SameHistory(cfg, h, id);
    }
    var n' := Propose(n, command);
    NodeStepKeepsInv(cfg, c, h, Next(cfg, c, ClientPropose(id, command)), OnPropose(n, n', h), id, n', {});
  }

  /** A request carries the leader's whole suffix, so it always reaches beyond the leader's commit index. */
  lemma SentRequestOk(cfg: Config, h: History, n: Node, peer: Id)
    requires NodeInv(cfg, h, n) && n.role == Leader && peer in n.peers && peer != n.id
    ensures RequestInv(h, peer, AppendArgsFor(n, peer))
    ensures AppendArgsFor(n, peer).prevIndex + |AppendArgsFor(n, peer).entries| == |n.log|
  {
  }

  lemma SendStep(cfg: Config, c: Cluster, h: History, id: Id, peer: Id)
    requires Inv(cfg, c, h) && Enabled(c, SendAppend(id, peer))
    ensures Inv(cfg, Next(cfg, c, SendAppend(id, peer)), Record(cfg, c, h, SendAppend(id, peer)))
    ensures Extends(h, Record(cfg, c, h, SendAppend(id, peer)))
  {
    hide HistoryInv, NodeInv;
    var n := c.nodes[id];
    assert NodeInv(cfg, h, n);
    SentRequestOk(cfg, h, n, peer);
    SameHistory(cfg, h, id);
    var sent := {AppendRequest(peer, AppendArgsFor(n, peer))};
    assert c.nodes[id := n] == c.nodes;
    NodeStepKeepsInv(cfg, c, h, Next(cfg, c, SendAppend(id, peer)), h, id, n, sent);
  }

  // ----- Answering an append request

  ghost predicate InOrder(out: seq<ApplyMsg>, log: Log, from: nat, upto: nat)
    requires upto <= |log|
  {
    && (forall i :: 0 <= i < |out| ==>
          from < out[i].index <= upto && out[i].command == log[out[i].index - 1].command)
    && (forall i, j :: 0 <= i < j < |out| ==> out[i].index < out[j].index)
  }

  lemma {:induction false} EmitInOrder(log: Log, from: nat, upto: nat, room: set<nat>)
    requires upto <= |log|
    ensures InOrder(Emit(log, from, upto, room), log, from, upto)
    decreases upto
  {
    if from < upto {
      EmitInOrder(log, from, upto - 1, room);
      var tail := if upto in room then [ApplyMsg(upto, log[upto - 1].command)] else [];
      InOrderJoins(Emit(log, from, upto - 1, room), tail, log, from, upto - 1, upto);
    }
  }

  lemma InOrderJoins(a: seq<ApplyMsg>, b: seq<ApplyMsg>, log: Log, from: nat, mid: nat, upto: nat)
    requires from <= mid <= upto <= |log|
    requires InOrder(a, log, from, mid) && InOrder(b, log, mid, upto)
    ensures InOrder(a + b, log, from, upto)
  {
  }

  /** Applying up to a new commit index extends the applied messages in order. */
  lemma ApplyKeeps(n: Node, commit: nat, room: set<nat>)
    requires AppliedInv(n) && n.commitIndex <= commit <= |n.log|
    ensures AppliedInv(ApplyCommitted(n.(commitIndex := commit), room))
  {
    EmitInOrder(n.log, n.lastApplied, commit, room);
    assert InOrder(n.applied, n.log, 0, n.lastApplied);
    InOrderJoins(n.applied, Emit(n.log, n.lastApplied, commit, room), n.log, 0, n.lastApplied, commit);
  }

  /** The log of a follower after a request whose previous entry matched. */
  lemma AppendLog(cfg: Config, h: History, n: Node, req: AppendArgs, common: Log)
    requires HistoryInv(cfg, h) && LogOk(h, n.log) && RequestInv(h, n.id, req) && PrevMatches(n.log, req)
    requires common <= n.log && common <= h.termLog[req.term]
    ensures var m := req.prevIndex + |req.entries|;
            var log := Merge(n.log, req.prevIndex, req.entries);
            && m <= |log| && log[..m] == h.termLog[req.term][..m]
            && (log == n.log || log == h.termLog[req.term][..m])
            && common <= log
  {
    var full := h.termLog[req.term];
    LeaderFacts(cfg, h, req.term);
    GroundedLogsMatch(h, n.log, full);
    assert n.log[..req.prevIndex] == full[..req.prevIndex] by {
      if req.prevIndex > 0 {
        assert n.log[req.prevIndex - 1].term == full[req.prevIndex - 1].term;
      }
    }
    MergeFollows(n.log, req.prevIndex, req.prevIndex + |req.entries|, full, common);
  }

  lemma AppendLogOk(cfg: Config, h: History, n: Node, req: AppendArgs)
    requires HistoryInv(cfg, h) && NodeInv(cfg, h, n) && RequestInv(h, n.id, req) && PrevMatches(n.log, req)
    requires req.term >= n.currentTerm
    ensures var log := Merge(n.log, req.prevIndex, req.entries);
            && LogOk(h, log) && Below(log, req.term + 1)
            && n.log[..n.commitIndex] <= log
  {
    hide HistoryInv;
    var full := h.termLog[req.term];
    CommittedInTermLog(cfg, h, n.log[..n.commitIndex], n.currentTerm, req.term);
    AppendLog(cfg, h, n, req, n.log[..n.commitIndex]);
    LeaderFacts(cfg, h, req.term);
    PrefixGrounded(h, full, full[..req.prevIndex + |req.entries|]);
  }

  lemma AppendHistory(cfg: Config, h: History, f: Node, req: AppendArgs)
    requires HistoryInv(cfg, h) && VoteInv(cfg, h, f) && f.id in cfg.servers
    requires RequestInv(h, f.id, req) && req.term == f.currentTerm
    ensures var h' := OnAppend(f, req, AppendResult(req.term, true), h);
            ExtendedBy(h, h', f.id) && HistoryInv(cfg, h')
  {
    var h' := OnAppend(f, req, AppendResult(req.term, true), h);
    SameHistory(cfg, h, f.id);
    assert VotesUnique(cfg, h');
    hide HistoryInv, VotesUnique;
    assert ExtendedBy(h, h', f.id);
    forall a, g | a in h'.acks && g in h'.grants && (a !in h.acks || g !in h.grants)
      ensures Respects(h', a, g)
    {
      assert a.node == f.id && a.term == req.term;
    }
    HistoryGrows(cfg, h, h');
  }

  lemma AppendKeepsAcks(cfg: Config, h: History, n: Node, n': Node, req: AppendArgs)
    requires HistoryInv(cfg, h) && NodeInv(cfg, h, n) && RequestInv(h, n.id, req) && PrevMatches(n.log, req)
    requires req.term >= n.currentTerm
    requires n'.id == n.id && n'.currentTerm == req.term
    requires n'.log == Merge(n.log, req.prevIndex, req.entries)
    ensures AckInv(OnAppend(n, req, AppendResult(req.term, true), h), n')
  {
    hide HistoryInv, Merge, LogOk, Covered, VoteInv, AppliedInv, LeaderInv, CandidateInv, Below, Blocked;
    var h' := OnAppend(n, req, AppendResult(req.term, true), h);
    var m := req.prevIndex + |req.entries|;
    SameHistory(cfg, h, n.id);
    assert Extends(h, h');
    forall a | a in h'.acks ensures AckKept(h', n', a) {
      if a.node == n.id && OwnEntry(h', a.term, a.index) {
        if a in h.acks {
          AppendKeepsAck(cfg, h, n, n', req, a);
          AckFacts(cfg, h, a);
          OwnEntryStays(h, h', a.term, a.index);
          if Blocked(h, a.term, a.index, req.term + 1) {
            BlockedIsStable(cfg, h, h', a.term, a.index, req.term + 1);
          }
        } else {
          assert a.term == req.term && a.index <= m;
          AppendLog(cfg, h, n, req, []);
          assert h.termLog[a.term][..a.index] == n'.log[..m][..a.index];
        }
      }
    }
  }

  lemma AppendKeepsAck(cfg: Config, h: History, n: Node, n': Node, req: AppendArgs, a: Ack)
    requires HistoryInv(cfg, h) && NodeInv(cfg, h, n) && RequestInv(h, n.id, req) && PrevMatches(n.log, req)
    requires req.term >= n.currentTerm
    requires n'.id == n.id && n'.currentTerm == req.term
    requires n'.log == Merge(n.log, req.prevIndex, req.entries)
    requires a in h.acks && a.node == n.id && OwnEntry(h, a.term, a.index)
    ensures AckKept(h, n', a)
  {
    hide HistoryInv, Merge, LogOk, Covered, AppliedInv, LeaderInv, CandidateInv, Below;
    assert AckKept(h, n, a);
    LeaderFacts(cfg, h, req.term);
    var held := h.termLog[a.term][..a.index];
    if Blocked(h, a.term, a.index, n.currentTerm + 1) {
      var later :| a.term < later < n.currentTerm + 1 && Misses(h, a.term, a.index, later);
    } else if held <= h.termLog[req.term] {
      AppendLog(cfg, h, n, req, held);
    } else {
      assert Misses(h, a.term, a.index, req.term);
    }
  }

  lemma AcceptedState(n: Node, req: AppendArgs, keepVote: bool, room: set<nat>)
    requires PrevMatches(n.log, req) && req.term >= n.currentTerm && AppliedInv(n)
    requires req.leaderCommit <= req.prevIndex + |req.entries|
    requires n.log[..n.commitIndex] <= Merge(n.log, req.prevIndex, req.entries)
    ensures var (n', r) := HandleAppendEntries(n, req, keepVote, room);
            && r == AppendResult(req.term, true)
            && n'.id == n.id && n'.peers == n.peers && n'.role == Follower && n'.currentTerm == req.term
            && n'.votedFor == BecomeFollower(n, req.term, keepVote).votedFor
            && n'.log == Merge(n.log, req.prevIndex, req.entries)
            && n'.commitIndex == (if req.leaderCommit > n.commitIndex then req.leaderCommit else n.commitIndex)
            && AppliedInv(n') && n.lastApplied <= n'.lastApplied && n.applied <= n'.applied
  {
    var g := BecomeFollower(n, req.term, keepVote).(log := Merge(n.log, req.prevIndex, req.entries));
    assert AppliedInv(g) by {
      forall i | 0 <= i < |g.applied| ensures g.applied[i].command == g.log[g.applied[i].index - 1].command {
        assert n.applied[i].command == n.log[..n.commitIndex][n.applied[i].index - 1].command;
      }
    }
    if req.leaderCommit > n.commitIndex {
      ApplyKeeps(g, req.leaderCommit, room);
    }
  }

  /** A follower that accepts a request: what it had committed stays, and it commits exactly up
      to the leader's commit index, which never lies beyond the last entry of the request. */
  lemma AcceptCommits(cfg: Config, h: History, n: Node, req: AppendArgs, room: set<nat>)
    requires HistoryInv(cfg, h) && NodeInv(cfg, h, n) && RequestInv(h, n.id, req) && PrevMatches(n.log, req)
    requires req.term >= n.currentTerm
    ensures var (n', r) := HandleAppendEntries(n, req, cfg.keepVote, room);
            && r == AppendResult(req.term, true)
            && n'.id == n.id && n'.peers == n.peers && n'.role == Follower && n'.currentTerm == req.term
            && n'.votedFor == BecomeFollower(n, req.term, cfg.keepVote).votedFor
            && n'.log == Merge(n.log, req.prevIndex, req.entries)
            && n.log[..n.commitIndex] <= n'.log
            && n'.commitIndex == (if req.leaderCommit > n.commitIndex then req.leaderCommit else n.commitIndex)
            && AppliedInv(n') && n.lastApplied <= n'.lastApplied && n.applied <= n'.applied
            && Covered(h, n'.log[..n'.commitIndex], req.term)
  {
    hide HistoryInv, NodeInv, LogOk, Covered, AppliedInv, HandleAppendEntries, Merge;
    NodeFacts(cfg, h, n);
    AppendLogOk(cfg, h, n, req);
    AppendLog(cfg, h, n, req, []);
    AcceptedState(n, req, cfg.keepVote, room);
    SameHistory(cfg, h, n.id);
    CoveredStays(h, h, n.log[..n.commitIndex], n.currentTerm, req.term);
    var log := Merge(n.log, req.prevIndex, req.entries);
    assert log[..n.commitIndex] == n.log[..n.commitIndex];
    assert log[..req.leaderCommit] == h.termLog[req.term][..req.leaderCommit];
  }

  lemma AcceptKeeps(cfg: Config, h: History, n: Node, req: AppendArgs, room: set<nat>)
    requires HistoryInv(cfg, h) && NodeInv(cfg, h, n) && RequestInv(h, n.id, req) && PrevMatches(n.log, req)
    requires req.term >= n.currentTerm && n.id in cfg.servers
    ensures var (n', r) := HandleAppendEntries(n, req, cfg.keepVote, room);
            var h' := OnAppend(n, req, r, h);
            ExtendedBy(h, h', n.id) && HistoryInv(cfg, h') && NodeInv(cfg, h', n')
  {
    var f := BecomeFollower(n, req.term, cfg.keepVote);
    StepDownKeeps(cfg, h, n, req.term);
    AppendHistory(cfg, h, f, req);
    AcceptCommits(cfg, h, n, req, room);
    hide HistoryInv, HandleAppendEntries;
    var (n', r) := HandleAppendEntries(n, req, cfg.keepVote, room);
    AcceptNode(cfg, h, n, f, n', req);
  }

  lemma AcceptNode(cfg: Config, h: History, n: Node, f: Node, n': Node, req: AppendArgs)
    requires HistoryInv(cfg, h) && NodeInv(cfg, h, n) && RequestInv(h, n.id, req) && PrevMatches(n.log, req)
    requires f == BecomeFollower(n, req.term, cfg.keepVote) && VoteInv(cfg, h, f)
    requires n'.id == n.id && n'.currentTerm == req.term >= n.currentTerm && n'.role == Follower
    requires n'.votedFor == f.votedFor
    requires n'.log == Merge(n.log, req.prevIndex, req.entries)
    requires AppliedInv(n') && Covered(h, n'.log[..n'.commitIndex], req.term)
    ensures NodeInv(cfg, OnAppend(n, req, AppendResult(req.term, true), h), n')
  {
    hide HistoryInv, AckInv, Merge, LogOk, Covered, LeaderInv, CandidateInv;
    var h' := OnAppend(n, req, AppendResult(req.term, true), h);
    AppendLogOk(cfg, h, n, req);
    AppendKeepsAcks(cfg, h, n, n', req);
    SameHistory(cfg, h, n.id);
    assert Extends(h, h');
    LogOkStays(h, h', n'.log);
    CoveredStays(h, h', n'.log[..n'.commitIndex], req.term, req.term);
    assert VoteInv(cfg, h', n');
  }

  lemma RejectKeeps(cfg: Config, h: History, n: Node, req: AppendArgs, room: set<nat>)
    requires HistoryInv(cfg, h) && NodeInv(cfg, h, n) && RequestInv(h, n.id, req)
    requires req.term < n.currentTerm || !PrevMatches(n.log, req)
    ensures var (n', r) := HandleAppendEntries(n, req, cfg.keepVote, room);
            !r.success && n'.id == n.id && n'.peers == n.peers && NodeInv(cfg, h, n')
  {
    hide HistoryInv, NodeInv;
    if req.term >= n.currentTerm {
      StepDownKeeps(cfg, h, n, req.term);
    }
  }

  lemma AppendRequestStep(cfg: Config, c: Cluster, h: History, id: Id, msg: Message, room: set<nat>)
    requires Inv(cfg, c, h) && Enabled(c, Deliver(id, msg, room)) && msg.AppendRequest?
    ensures Inv(cfg, Next(cfg, c, Deliver(id, msg, room)), Record(cfg, c, h, Deliver(id, msg, room)))
    ensures Extends(h, Record(cfg, c, h, Deliver(id, msg, room)))
  {
    hide HistoryInv, NodeInv, Merge, ApplyCommitted, HandleAppendEntries, ExtendedBy;
    var n, req := c.nodes[id], msg.append;
    assert NodeInv(cfg, h, n) && MessageInv(h, msg);
    var (n', r) := HandleAppendEntries(n, req, cfg.keepVote, room);
    var h' := OnAppend(n, req, r, h);
    SameHistory(cfg, h, id);
    if req.term >= n.currentTerm && PrevMatches(n.log, req) {
      AcceptKeeps(cfg, h, n, req, room);
      AcceptCommits(cfg, h, n, req, room);
    } else {
      RejectKeeps(cfg, h, n, req, room);
    }
    var sent := {AppendReply(id, req.leader, req.term, req.prevIndex + |req.entries|, r)};
    assert forall out {:trigger MessageInv(h', out)} :: out in sent ==> MessageInv(h', out);
    NodeStepKeepsInv(cfg, c, h, Next(cfg, c, Deliver(id, msg, room)), h', id, n', sent);
  }

  // ----- Counting acknowledgements

  lemma AckedNode(cfg: Config, h: History, n: Node, from: Id, next: nat, match_: nat)
    requires HistoryInv(cfg, h) && NodeInv(cfg, h, n) && n.role == Leader
    requires 1 <= next <= |n.log| + 1 && match_ <= |n.log|
    requires forall j :: 1 <= j <= match_ ==> Ack(from, n.currentTerm, j) in h.acks
    ensures NodeInv(cfg, h, n.(matchIndex := n.matchIndex[from := match_], nextIndex := n.nextIndex[from := next]))
  {
    var n' := n.(matchIndex := n.matchIndex[from := match_], nextIndex := n.nextIndex[from := next]);
    LaterTermKeeps(cfg, h, n, n');
    hide HistoryInv, AckInv, LogOk, Covered, AppliedInv;
    assert LeaderInv(h, n');
  }

  lemma ReplicasAreQuorum(cfg: Config, h: History, n: Node, i: nat)
    requires NodeInv(cfg, h, n) && n.role == Leader && Committable(n, i)
    requires n.id in cfg.servers && n.peers == cfg.servers - {n.id}
    ensures CommitOk(cfg, h, Commit(n.currentTerm, i, {n.id} + Replicas(n, i)))
  {
    hide AckInv, Covered, VoteInv, AppliedInv, LogOk;
    var q := {n.id} + Replicas(n, i);
    assert |q| == 1 + |Replicas(n, i)|;
    assert |n.peers| == |cfg.servers| - 1;
    forall v | v in q ensures Ack(v, n.currentTerm, i) in h.acks {
    }
  }

  lemma CommitHistory(cfg: Config, h: History, n: Node, k: Commit)
    requires HistoryInv(cfg, h) && CommitOk(cfg, h, k)
    ensures var h' := h.(commits := h.commits + {k});
            ExtendedBy(h, h', n.id) && HistoryInv(cfg, h')
  {
    var h' := h.(commits := h.commits + {k});
    SameHistory(cfg, h, n.id);
    assert VotesUnique(cfg, h');
    hide HistoryInv, VotesUnique;
    assert CommitOk(cfg, h', k);
    HistoryGrows(cfg, h, h');
  }

  lemma CommitNode(cfg: Config, h: History, n: Node, i: nat, room: set<nat>)
    requires HistoryInv(cfg, h) && NodeInv(cfg, h, n) && n.role == Leader && Committable(n, i) && i > n.commitIndex
    requires n.id in cfg.servers && n.peers == cfg.servers - {n.id}
    ensures var k := Commit(n.currentTerm, i, {n.id} + Replicas(n, i));
            var h' := h.(commits := h.commits + {k});
            && ExtendedBy(h, h', n.id) && HistoryInv(cfg, h')
            && NodeInv(cfg, h', ApplyCommitted(n.(commitIndex := i), room))
  {
    var k := Commit(n.currentTerm, i, {n.id} + Replicas(n, i));
    var n', h' := ApplyCommitted(n.(commitIndex := i), room), h.(commits := h.commits + {k});
    ReplicasAreQuorum(cfg, h, n, i);
    CommitHistory(cfg, h, n, k);
    ApplyKeeps(n, i, room);
    hide HistoryInv, AppliedInv, CommitOk, Committable, ExtendedBy;
    CommitNodeParts(cfg, h, h', n, n', k);
  }

  lemma CommitNodeParts(cfg: Config, h: History, h': History, n: Node, n': Node, k: Commit)
    requires HistoryInv(cfg, h) && NodeInv(cfg, h, n) && n.role == Leader
    requires h' == h.(commits := h.commits + {k})
    requires k.term == n.currentTerm && 1 <= k.index <= |n.log| && n.log[k.index - 1].term == n.currentTerm
    requires n' == n.(commitIndex := k.index, lastApplied := n'.lastApplied, applied := n'.applied)
    requires AppliedInv(n')
    ensures NodeInv(cfg, h', n')
  {
    SameHistory(cfg, h, n.id);
    hide HistoryInv;
    assert Extends(h, h');
    LogOkStays(h, h', n.log);
    assert AckInv(h, n') by {
      forall a | a in h.acks ensures AckKept(h, n', a) {
        assert AckKept(h, n, a);
      }
    }
    AckInvCarries(cfg, h, h', n');
    hide AppliedInv, LogOk, AckInv;
    assert Covers(h', k, n'.log[..k.index], n.currentTerm);
    hide Covered;
    assert VoteInv(cfg, h', n');
    assert LeaderInv(h', n');
  }

  lemma AcceptReplyKeeps(
    cfg: Config, h: History, n: Node, from: Id, covered: nat, r: AppendResult, room: set<nat>)
    requires HistoryInv(cfg, h) && NodeInv(cfg, h, n) && n.role == Leader
    requires n.id in cfg.servers && n.peers == cfg.servers - {n.id}
    requires MessageInv(h, AppendReply(from, n.id, n.currentTerm, covered, r)) && r.success && r.term <= n.currentTerm
    ensures var n' := HandleAppendReply(n, from, n.currentTerm, covered, r, cfg.keepVote, room);
            var h' := OnAppendReply(n, n', h);
            ExtendedBy(h, h', n.id) && HistoryInv(cfg, h') && NodeInv(cfg, h', n')
  {
    hide HistoryInv, NodeInv, ExtendedBy, ApplyCommitted, Committable, Replicas;
    SameHistory(cfg, h, n.id);
    LeaderNodeFacts(cfg, h, n);
    var g := n.(matchIndex := n.matchIndex[from := covered], nextIndex := n.nextIndex[from := covered + 1]);
    AckedNode(cfg, h, n, from, covered + 1, covered);
    var i := NewCommitIndex(g, |g.log|);
    if i > g.commitIndex {
      CommitNode(cfg, h, g, i, room);
      AppliedNodeFacts(g, i, room);
    }
  }

  lemma AppliedNodeFacts(g: Node, i: nat, room: set<nat>)
    requires i <= |g.log|
    ensures var n' := ApplyCommitted(g.(commitIndex := i), room);
            n'.commitIndex == i && n'.currentTerm == g.currentTerm && Replicas(n', i) == Replicas(g, i)
  {
  }

  lemma AppendReplyKeeps(
    cfg: Config, h: History, n: Node, from: Id, reqTerm: nat, covered: nat, r: AppendResult, room: set<nat>)
    requires HistoryInv(cfg, h) && NodeInv(cfg, h, n)
    requires n.id in cfg.servers && n.peers == cfg.servers - {n.id}
    requires MessageInv(h, AppendReply(from, n.id, reqTerm, covered, r))
    ensures var n' := HandleAppendReply(n, from, reqTerm, covered, r, cfg.keepVote, room);
            var h' := OnAppendReply(n, n', h);
            ExtendedBy(h, h', n.id) && HistoryInv(cfg, h') && NodeInv(cfg, h', n')
  {
    SameHistory(cfg, h, n.id);
    hide HistoryInv, NodeInv, ExtendedBy, UpdateCommitIndex;
    if n.role == Leader && n.currentTerm == reqTerm {
      if r.term > n.currentTerm {
        StepDownKeeps(cfg, h, n, r.term);
      } else if r.success {
        AcceptReplyKeeps(cfg, h, n, from, covered, r, room);
      } else {
        RetriedNode(cfg, h, n, from);
      }
    }
  }

  lemma NodeFacts(cfg: Config, h: History, n: Node)
    requires NodeInv(cfg, h, n)
    ensures LogOk(h, n.log) && AppliedInv(n) && n.commitIndex <= |n.log|
    ensures Covered(h, n.log[..n.commitIndex], n.currentTerm)
  {
  }

  lemma LeaderNodeFacts(cfg: Config, h: History, n: Node)
    requires NodeInv(cfg, h, n)
    ensures n.commitIndex <= |n.log|
    ensures n.role == Leader ==> n.currentTerm in h.termLog && h.termLog[n.currentTerm] == n.log
  {
  }

  lemma RetriedNode(cfg: Config, h: History, n: Node, from: Id)
    requires HistoryInv(cfg, h) && NodeInv(cfg, h, n) && n.role == Leader
    ensures Lookup(n.nextIndex, from) > 1 ==>
      NodeInv(cfg, h, n.(nextIndex := n.nextIndex[from := Lookup(n.nextIndex, from) - 1]))
  {
    if Lookup(n.nextIndex, from) > 1 {
      var n' := n.(nextIndex := n.nextIndex[from := Lookup(n.nextIndex, from) - 1]);
      LaterTermKeeps(cfg, h, n, n');
      hide HistoryInv, AckInv, LogOk, Covered, AppliedInv;
      assert LeaderInv(h, n');
    }
  }

  lemma AppendReplyStep(cfg: Config, c: Cluster, h: History, id: Id, msg: Message, room: set<nat>)
    requires Inv(cfg, c, h) && Enabled(c, Deliver(id, msg, room)) && msg.AppendReply?
    ensures Inv(cfg, Next(cfg, c, Deliver(id, msg, room)), Record(cfg, c, h, Deliver(id, msg, room)))
    ensures Extends(h, Record(cfg, c, h, Deliver(id, msg, room)))
  {
    hide HistoryInv, NodeInv, ExtendedBy, UpdateCommitIndex;
    var n := c.nodes[id];
    assert NodeInv(cfg, h, n) && MessageInv(h, msg);
    AppendReplyKeeps(cfg, h, n, msg.from, msg.reqTerm, msg.covered, msg.appended, room);
    var n' := HandleAppendReply(n, msg.from, msg.reqTerm, msg.covered, msg.appended, cfg.keepVote, room);
    AppendReplyKeepsIdentity(n, msg.from, msg.reqTerm, msg.covered, msg.appended, cfg.keepVote, room);
    NodeStepKeepsInv(cfg, c, h, Next(cfg, c, Deliver(id, msg, room)), OnAppendReply(n, n', h), id, n', {});
  }

  lemma AppendReplyKeepsIdentity(
    n: Node, from: Id, reqTerm: nat, covered: nat, r: AppendResult, keepVote: bool, room: set<nat>)
    ensures var n' := HandleAppendReply(n, from, reqTerm, covered, r, keepVote, room);
            n'.id == n.id && n'.peers == n.peers
  {
  }

  // ----- Every step, every run

  lemma InvExtends(cfg: Config, c: Cluster, h: History)
    requires Inv(cfg, c, h)
    ensures Extends(h, h)
  {
  }

  lemma StepKeepsInv(cfg: Config, c: Cluster, h: History, step: Step)
    requires Inv(cfg, c, h)
    ensures Inv(cfg, Next(cfg, c, step), Record(cfg, c, h, step))
    ensures Extends(h, Record(cfg, c, h, step))
  {
    InvExtends(cfg, c, h);
    hide Inv, Extends;
    if Enabled(c, step) {
      match step
      case Timeout(id) => TimeoutStep(cfg, c, h, id);
      case ClientPropose(id, command) => ProposeStep(cfg, c, h, id, command);
      case SendAppend(id, peer) => SendStep(cfg, c, h, id, peer);
      case Deliver(id, msg, room) =>
        match msg {
          case VoteRequest(req) => VoteRequestStep(cfg, c, h, id, req, room);
          case VoteReply(_, _, _, _) => VoteReplyStep(cfg, c, h, id, msg, room);
          case AppendRequest(_, _) => AppendRequestStep(cfg, c, h, id, msg, room);
          case AppendReply(_, _, _, _, _) => AppendReplyStep(cfg, c, h, id, msg, room);
        }
    }
  }

  lemma InitInv(cfg: Config)
    requires SafeConfig(cfg)
    ensures Inv(cfg, Init(cfg), Empty)
  {
  }

  /** In every run of a safe configuration the invariant holds at every point. */
  lemma {:induction false} RunInv(cfg: Config, run: seq<Step>)
    requires SafeConfig(cfg)
    ensures Inv(cfg, Exec(cfg, run), HistoryOf(cfg, run))
  {
    InitInv(cfg);
    if run != [] {
      var before := run[..|run| - 1];
      RunInv(cfg, before);
      StepKeepsInv(cfg, Exec(cfg, before), HistoryOf(cfg, before), run[|run| - 1]);
    }
  }
}
