/** What a run has done so far, as far as the safety argument needs it. The history is computed
    beside the run and is no part of the cluster: no step looks at it. */
module RaftHistory {
  import opened RaftNode
  import opened RaftCluster

  /** `voter` voted for `candidate` in `term`. */
  datatype Grant = Grant(voter: Id, candidate: Id, term: nat)

  /** `node` has held the log of the leader of `term` up to `index`. */
  datatype Ack = Ack(node: Id, term: nat, index: nat)

  /** The leader of `term` committed `index` because everyone in `quorum` acknowledged it. */
  datatype Commit = Commit(term: nat, index: nat, quorum: set<Id>)

  /** `leader`, `electors` and `termLog` map a term to its winner, to those who elected it and to
      the longest log the winner has had during that term. `candLog` is a candidate's log when
      its election began. */
  datatype History = History(
    leader: map<nat, Id>,
    electors: map<nat, set<Id>>,
    termLog: map<nat, Log>,
    candLog: map<(Id, nat), Log>,
    grants: set<Grant>,
    acks: set<Ack>,
    commits: set<Commit>)

  const Empty: History := History(map[], map[], map[], map[], {}, {}, {})

  ghost function OnTimeout(n: Node, h: History): History {
    h.(candLog := h.candLog[(n.id, n.currentTerm + 1) := n.log],
       grants := h.grants + {Grant(n.id, n.id, n.currentTerm + 1)})
  }

  ghost function OnVote(n: Node, req: VoteArgs, r: VoteResult, h: History): History {
    if r.granted then h.(grants := h.grants + {Grant(n.id, req.candidate, req.term)}) else h
  }

  ghost function OnVoteReply(n: Node, n': Node, h: History): History {
    if n.role == Candidate && n'.role == Leader
    then h.(leader := h.leader[n.currentTerm := n.id],
            electors := h.electors[n.currentTerm := n'.votes],
            termLog := h.termLog[n.currentTerm := n.log])
    else h
  }

  ghost function AcksUpTo(id: Id, term: nat, index: nat): set<Ack> {
    set j: nat | 1 <= j <= index :: Ack(id, term, j)
  }

  ghost function OnAppend(n: Node, req: AppendArgs, r: AppendResult, h: History): History {
    if r.success then h.(acks := h.acks + AcksUpTo(n.id, req.term, req.prevIndex + |req.entries|)) else h
  }

  ghost function OnAppendReply(n: Node, n': Node, h: History): History {
    if n'.commitIndex > n.commitIndex
    then h.(commits := h.commits + {Commit(n'.currentTerm, n'.commitIndex, {n.id} + Replicas(n', n'.commitIndex))})
    else h
  }

  ghost function OnPropose(n: Node, n': Node, h: History): History {
    if n.role == Leader
    then h.(termLog := h.termLog[n.currentTerm := n'.log],
            acks := h.acks + {Ack(n.id, n.currentTerm, |n'.log|)})
    else h
  }

  ghost function OnReceive(cfg: Config, n: Node, msg: Message, room: set<nat>, h: History): History {
    match msg
    case VoteRequest(req) => OnVote(n, req, HandleRequestVote(n, req, cfg.keepVote).1, h)
    case VoteReply(_, _, _, _) => OnVoteReply(n, Receive(n, msg, cfg.keepVote, room).0, h)
    case AppendRequest(_, req) => OnAppend(n, req, HandleAppendEntries(n, req, cfg.keepVote, room).1, h)
    case AppendReply(_, _, _, _, _) => OnAppendReply(n, Receive(n, msg, cfg.keepVote, room).0, h)
  }

  ghost function Record(cfg: Config, c: Cluster, h: History, step: Step): History {
    if !Enabled(c, step) then h
    else
      var n := c.nodes[step.id];
      match step
      case Timeout(_) => OnTimeout(n, h)
      case Deliver(_, msg, room) => OnReceive(cfg, n, msg, room, h)
      case ClientPropose(_, command) => OnPropose(n, Propose(n, command), h)
      case SendAppend(_, _) => h
  }

  ghost function HistoryOf(cfg: Config, run: seq<Step>): History {
    if run == [] then Empty
    else
      var before := run[..|run| - 1];
      Record(cfg, Exec(cfg, before), HistoryOf(cfg, before), run[|run| - 1])
  }

  /** The log the leader of term `t` started with. */
  ghost function InitLog(h: History, t: nat): Log {
    if t in h.leader && (h.leader[t], t) in h.candLog then h.candLog[(h.leader[t], t)] else []
  }

  ghost predicate Sorted(log: Log) {
    forall i, j :: 0 <= i <= j < |log| ==> log[i].term <= log[j].term
  }

  /** The entry was made by the leader of its term, which then had everything before it too. */
  ghost predicate GroundedAt(h: History, log: Log, i: nat)
    requires i < |log|
  {
    log[i].term in h.termLog && log[..i + 1] <= h.termLog[log[i].term]
  }

  ghost predicate Grounded(h: History, log: Log) {
    forall i {:trigger GroundedAt(h, log, i)} :: 0 <= i < |log| ==> GroundedAt(h, log, i)
  }

  ghost predicate Below(log: Log, t: nat) {
    forall i :: 0 <= i < |log| ==> log[i].term < t
  }

  ghost predicate LogOk(h: History, log: Log) {
    Grounded(h, log) && Sorted(log)
  }

  /** Index `i` of term `t` holds an entry made in term `t`. */
  ghost predicate OwnEntry(h: History, t: nat, i: nat) {
    t in h.termLog && 1 <= i <= |h.termLog[t]| && h.termLog[t][i - 1].term == t
  }

  ghost predicate Misses(h: History, t: nat, i: nat, later: nat) {
    && later in h.leader
    && (t in h.termLog && i <= |h.termLog[t]| ==> !(h.termLog[t][..i] <= InitLog(h, later)))
  }

  /** Some leader between terms `t` and `upper` started without the log of `t` up to `i`. */
  ghost predicate Blocked(h: History, t: nat, i: nat, upper: nat) {
    exists later :: t < later < upper && Misses(h, t, i, later)
  }

  ghost predicate Quorum(cfg: Config, q: set<Id>) {
    q <= cfg.servers && |q| > (|cfg.servers| - 1) / 2 + 1
  }

  ghost predicate GrantOk(cfg: Config, h: History, g: Grant) {
    g.voter in cfg.servers && (g.candidate, g.term) in h.candLog
  }

  ghost predicate CandOk(cfg: Config, h: History, id: Id, t: nat)
    requires (id, t) in h.candLog
  {
    id in cfg.servers && t >= 1 && LogOk(h, h.candLog[(id, t)]) && Below(h.candLog[(id, t)], t)
  }

  ghost predicate LeaderOk(cfg: Config, h: History, t: nat)
    requires t in h.leader
  {
    && (h.leader[t], t) in h.candLog
    && t in h.electors && Quorum(cfg, h.electors[t])
    && (forall v :: v in h.electors[t] ==> Grant(v, h.leader[t], t) in h.grants)
    && t in h.termLog
    && InitLog(h, t) <= h.termLog[t]
    && LogOk(h, h.termLog[t])
    && (forall i :: 0 <= i < |h.termLog[t]| ==> h.termLog[t][i].index == i + 1)
    && (forall i :: |InitLog(h, t)| <= i < |h.termLog[t]| ==> h.termLog[t][i].term == t)
  }

  ghost predicate AckOk(cfg: Config, h: History, a: Ack) {
    a.node in cfg.servers && a.term in h.termLog && 1 <= a.index <= |h.termLog[a.term]|
  }

  ghost predicate CommitOk(cfg: Config, h: History, k: Commit) {
    && OwnEntry(h, k.term, k.index)
    && Quorum(cfg, k.quorum)
    && forall v :: v in k.quorum ==> Ack(v, k.term, k.index) in h.acks
  }

  /** A vote matters while its term has no leader, and afterwards if it elected the leader. */
  ghost predicate Matters(h: History, g: Grant) {
    g.term !in h.leader
    || (g.candidate == h.leader[g.term] && g.term in h.electors && g.voter in h.electors[g.term])
  }

  /** Whoever acknowledged an entry and voted later, voted for someone who has the entry too,
      unless a leader in between had lost it. */
  ghost predicate Respects(h: History, a: Ack, g: Grant) {
    a.node == g.voter && a.term < g.term && Matters(h, g)
    && OwnEntry(h, a.term, a.index) && (g.candidate, g.term) in h.candLog
    ==> h.termLog[a.term][..a.index] <= h.candLog[(g.candidate, g.term)] || Blocked(h, a.term, a.index, g.term)
  }

  ghost predicate VotesRespectAcks(h: History) {
    forall a, g {:trigger Respects(h, a, g)} :: a in h.acks && g in h.grants ==> Respects(h, a, g)
  }

  /** No node votes for two candidates in one term; where votes are erased, no candidate votes
      for another candidate of its own term. */
  ghost predicate VotesUnique(cfg: Config, h: History) {
    if cfg.keepVote
    then forall g, g' :: g in h.grants && g' in h.grants && g.voter == g'.voter && g.term == g'.term
                         ==> g.candidate == g'.candidate
    else forall g :: g in h.grants && (g.voter, g.term) in h.candLog ==> g.candidate == g.voter
  }

  ghost predicate HistoryInv(cfg: Config, h: History) {
    && h.termLog.Keys == h.leader.Keys
    && (forall g {:trigger GrantOk(cfg, h, g)} :: g in h.grants ==> GrantOk(cfg, h, g))
    && (forall id, t {:trigger CandOk(cfg, h, id, t)} :: (id, t) in h.candLog ==> CandOk(cfg, h, id, t))
    && (forall t {:trigger LeaderOk(cfg, h, t)} :: t in h.leader ==> LeaderOk(cfg, h, t))
    && (forall a {:trigger AckOk(cfg, h, a)} :: a in h.acks ==> AckOk(cfg, h, a))
    && (forall k {:trigger CommitOk(cfg, h, k)} :: k in h.commits ==> CommitOk(cfg, h, k))
    && VotesRespectAcks(h)
    && VotesUnique(cfg, h)
  }

  /** `prefix` lies within what some leader of a term up to `t` has committed. */
  ghost predicate Covers(h: History, k: Commit, prefix: Log, t: nat) {
    k in h.commits && k.term <= t && OwnEntry(h, k.term, k.index) && prefix <= h.termLog[k.term][..k.index]
  }

  ghost predicate Covered(h: History, prefix: Log, t: nat) {
    prefix == [] || exists k :: Covers(h, k, prefix, t)
  }

  ghost predicate LeaderInv(h: History, n: Node) {
    && n.currentTerm in h.leader && h.leader[n.currentTerm] == n.id
    && h.termLog.Keys == h.leader.Keys && h.termLog[n.currentTerm] == n.log
    && (forall p :: p in n.peers ==>
          && 1 <= Lookup(n.nextIndex, p) <= |n.log| + 1
          && Lookup(n.matchIndex, p) <= |n.log|
          && forall j :: 1 <= j <= Lookup(n.matchIndex, p) ==> Ack(p, n.currentTerm, j) in h.acks)
    && (forall j :: 1 <= j <= |n.log| && n.log[j - 1].term == n.currentTerm ==> Ack(n.id, n.currentTerm, j) in h.acks)
  }

  ghost predicate CandidateInv(h: History, n: Node) {
    && (n.id, n.currentTerm) in h.candLog && h.candLog[(n.id, n.currentTerm)] == n.log
    && (forall v :: v in n.votes ==> Grant(v, n.id, n.currentTerm) in h.grants)
    && (n.currentTerm in h.leader ==> h.leader[n.currentTerm] != n.id)
  }

  /** The node's own votes and candidacies lie in the past or agree with its vote. */
  ghost predicate VoteInv(cfg: Config, h: History, n: Node) {
    && (n.votedFor != NoVote ==> Grant(n.id, n.votedFor, n.currentTerm) in h.grants)
    && (forall g :: g in h.grants && g.voter == n.id ==> g.term <= n.currentTerm)
    && (forall t :: (n.id, t) in h.candLog ==> t <= n.currentTerm)
    && (forall a :: a in h.acks && a.node == n.id ==> a.term <= n.currentTerm)
    && (if cfg.keepVote
        then forall g :: g in h.grants && g.voter == n.id && g.term == n.currentTerm ==> n.votedFor == g.candidate
        else (n.id, n.currentTerm) in h.candLog && n.votedFor != n.id
             ==> n.currentTerm in h.leader && h.leader[n.currentTerm] != n.id)
  }

  ghost predicate AppliedInv(n: Node) {
    && n.lastApplied <= n.commitIndex <= |n.log|
    && (forall i :: 0 <= i < |n.applied| ==>
          && 1 <= n.applied[i].index <= n.lastApplied
          && n.applied[i].command == n.log[n.applied[i].index - 1].command)
    && (forall i, j :: 0 <= i < j < |n.applied| ==> n.applied[i].index < n.applied[j].index)
  }

  /** What a node acknowledged it still has, unless a later leader it knows of had lost it. */
  ghost predicate AckKept(h: History, n: Node, a: Ack) {
    a.node == n.id && OwnEntry(h, a.term, a.index)
    ==> h.termLog[a.term][..a.index] <= n.log || Blocked(h, a.term, a.index, n.currentTerm + 1)
  }

  ghost predicate AckInv(h: History, n: Node) {
    forall a {:trigger AckKept(h, n, a)} :: a in h.acks ==> AckKept(h, n, a)
  }

  ghost predicate NodeInv(cfg: Config, h: History, n: Node) {
    && LogOk(h, n.log)
    && Below(n.log, n.currentTerm + 1)
    && AppliedInv(n)
    && Covered(h, n.log[..n.commitIndex], n.currentTerm)
    && VoteInv(cfg, h, n)
    && AckInv(h, n)
    && (n.role == Leader ==> LeaderInv(h, n))
    && (n.role == Candidate ==> CandidateInv(h, n))
  }

  ghost predicate RequestInv(h: History, dest: Id, req: AppendArgs) {
    && req.term in h.leader && req.term in h.termLog
    && h.leader[req.term] == req.leader && dest != req.leader
    && req.leaderCommit <= req.prevIndex + |req.entries| <= |h.termLog[req.term]|
    && req.entries == h.termLog[req.term][req.prevIndex..req.prevIndex + |req.entries|]
    && (req.prevIndex > 0 ==> req.prevTerm == h.termLog[req.term][req.prevIndex - 1].term)
    && Covered(h, h.termLog[req.term][..req.leaderCommit], req.term)
  }

  ghost predicate MessageInv(h: History, msg: Message) {
    match msg
    case VoteRequest(req) =>
      && (req.candidate, req.term) in h.candLog
      && req.lastIndex == |h.candLog[(req.candidate, req.term)]|
      && req.lastTerm == LastTerm(h.candLog[(req.candidate, req.term)])
    case VoteReply(from, dest, reqTerm, r) =>
      r.granted ==> Grant(from, dest, reqTerm) in h.grants
    case AppendRequest(dest, req) => RequestInv(h, dest, req)
    case AppendReply(from, _, reqTerm, covered, r) =>
      r.success ==>
        && reqTerm in h.termLog && covered <= |h.termLog[reqTerm]|
        && forall j :: 1 <= j <= covered ==> Ack(from, reqTerm, j) in h.acks
  }

  ghost predicate NodesInv(cfg: Config, c: Cluster) {
    && c.nodes.Keys == cfg.servers
    && forall id :: id in c.nodes ==> c.nodes[id].id == id && c.nodes[id].peers == cfg.servers - {id}
  }

  /** Election safety is what the vote rule buys: always when votes are kept, and when they are
      erased only in clusters so small that every node must vote for the winner. */
  predicate SafeConfig(cfg: Config) {
    ValidConfig(cfg) && (cfg.keepVote || |cfg.servers| <= 3)
  }

  ghost predicate Inv(cfg: Config, c: Cluster, h: History) {
    && SafeConfig(cfg)
    && NodesInv(cfg, c)
    && HistoryInv(cfg, h)
    && (forall id {:trigger NodeInv(cfg, h, c.nodes[id])} :: id in c.nodes ==> NodeInv(cfg, h, c.nodes[id]))
    && (forall msg {:trigger MessageInv(h, msg)} :: msg in c.msgs ==> MessageInv(h, msg))
  }
}
