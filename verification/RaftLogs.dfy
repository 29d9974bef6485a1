/** Facts about logs, quorums and histories that the step proofs share. */
module RaftLogs {
  import opened RaftNode
  import opened RaftCluster
  import opened RaftHistory

  /** Where two logs agree on a term they agree on everything up to it. */
  ghost predicate Matching(log: Log, other: Log) {
    forall i :: 0 <= i < |log| && i < |other| && log[i].term == other[i].term ==> log[..i + 1] == other[..i + 1]
  }

  lemma GroundedLogsMatch(h: History, log: Log, other: Log)
    requires Grounded(h, log) && Grounded(h, other)
    ensures Matching(log, other)
  {
    forall i | 0 <= i < |log| && i < |other| && log[i].term == other[i].term
      ensures log[..i + 1] == other[..i + 1]
    {
      var t := log[i].term;
      assert GroundedAt(h, log, i) && GroundedAt(h, other, i);
      assert log[..i + 1] <= h.termLog[t] && other[..i + 1] <= h.termLog[t];
      assert log[..i + 1] == h.termLog[t][..i + 1] == other[..i + 1];
    }
  }

  lemma {:induction false} MergeOntoPrefix(full: Log, p: nat, m: nat)
    requires p <= m <= |full|
    ensures Merge(full[..p], p, full[p..m]) == full[..m]
    decreases m - p
  {
    if p < m {
      var es := full[p..m];
      assert MergeOne(full[..p], p, es[0]) == full[..p + 1];
      assert es[1..] == full[p + 1..m];
      MergeOntoPrefix(full, p + 1, m);
    }
  }

  /** The truncate-and-append loop of a follower, fed with a stretch of the leader's log `full`:
      afterwards the follower agrees with the leader up to the last entry sent, its log is
      either untouched or exactly the leader's, and whatever the two had in common stays. */
  lemma {:induction false} MergeFollows(log: Log, p: nat, m: nat, full: Log, common: Log)
    requires p <= m <= |full| && p <= |log|
    requires log[..p] == full[..p]
    requires Matching(log, full)
    requires common <= log && common <= full
    ensures var r := Merge(log, p, full[p..m]);
            && m <= |r| && r[..m] == full[..m]
            && (r == log || r == full[..m])
            && common <= r
    decreases m - p
  {
    if p < m {
      var es := full[p..m];
      assert es[0] == full[p] && es[1..] == full[p + 1..m];
      if p == |log| || log[p].term != full[p].term {
        assert MergeOne(log, p, es[0]) == full[..p + 1];
        MergeOntoPrefix(full, p + 1, m);
        assert |common| <= p;
        assert common == full[..|common|];
      } else {
        MergeFollows(log, p + 1, m, full, common);
      }
    }
  }

  lemma PrefixGrounded(h: History, log: Log, prefix: Log)
    requires LogOk(h, log) && prefix <= log
    ensures LogOk(h, prefix)
  {
    forall i | 0 <= i < |prefix|
      ensures GroundedAt(h, prefix, i)
    {
      assert GroundedAt(h, log, i);
      assert prefix[i] == log[i] && prefix[..i + 1] == log[..i + 1];
    }
  }

  /** A candidate whose log is at least as up to date as a log holding entry `i` of term `t`
      holds the entry as well, unless a leader in between had lost it. */
  lemma UpToDateHolds(cfg: Config, h: History, t: nat, i: nat, mine: Log, theirs: Log, upper: nat)
    requires OwnEntry(h, t, i) && t >= 1
    requires forall s {:trigger LeaderOk(cfg, h, s)} :: s in h.leader ==> LeaderOk(cfg, h, s)
    requires h.termLog.Keys == h.leader.Keys
    requires LogOk(h, mine) && h.termLog[t][..i] <= mine
    requires LogOk(h, theirs) && Below(theirs, upper)
    requires UpToDate(|theirs|, LastTerm(theirs), mine)
    ensures h.termLog[t][..i] <= theirs || Blocked(h, t, i, upper)
  {
    var held := h.termLog[t][..i];
    assert mine[i - 1].term == held[i - 1].term == t;
    assert LastTerm(mine) >= t;
    var s := LastTerm(theirs);
    assert |theirs| > 0;
    assert GroundedAt(h, theirs, |theirs| - 1) && theirs[..|theirs| - 1 + 1] == theirs;
    assert theirs <= h.termLog[s];
    if s == t {
      assert |theirs| >= |mine| >= i;
      assert held == theirs[..i];
    } else {
      assert LeaderOk(cfg, h, s);
      if held <= InitLog(h, s) {
        assert held <= h.termLog[s];
        assert LeaderOk(cfg, h, t);
        assert forall j :: 0 <= j < i ==> h.termLog[s][j] == held[j] && held[j].term <= t;
        assert theirs[|theirs| - 1] == h.termLog[s][|theirs| - 1];
        assert held == theirs[..i];
      } else {
        assert Misses(h, t, i, s);
      }
    }
  }

  lemma SubsetSize<T>(a: set<T>, b: set<T>)
    requires a <= b
    ensures |a| <= |b|
  {
    assert a + (b - a) == b;
  }

  lemma QuorumsMeet(cfg: Config, q: set<Id>, r: set<Id>) returns (v: Id)
    requires Quorum(cfg, q) && Quorum(cfg, r)
    ensures v in q && v in r
  {
    SubsetSize(q + r, cfg.servers);
    assert |q + r| == |q| + |r| - |q * r|;
    assert |q * r| > 0;
    v :| v in q * r;
  }

  lemma SmallQuorumIsEveryone(cfg: Config, q: set<Id>)
    requires Quorum(cfg, q) && |cfg.servers| <= 3
    ensures q == cfg.servers
  {
    var rest := cfg.servers - q;
    assert cfg.servers == q + rest && |cfg.servers| == |q| + |rest|;
    assert |cfg.servers| == 3 ==> (|cfg.servers| - 1) / 2 + 1 == 2;
    assert |cfg.servers| == 2 ==> (|cfg.servers| - 1) / 2 + 1 == 1;
    assert |rest| == 0;
  }

  /** `h'` records at least what `h` records. */
  ghost predicate Extends(h: History, h': History) {
    && h.termLog.Keys == h.leader.Keys && h'.termLog.Keys == h'.leader.Keys
    && (forall t :: t in h.leader ==> t in h'.leader && h'.leader[t] == h.leader[t])
    && (forall t :: t in h.electors && t in h.leader ==> t in h'.electors && h'.electors[t] == h.electors[t])
    && (forall t :: t in h.termLog ==> t in h'.termLog && h.termLog[t] <= h'.termLog[t])
    && (forall id, t :: (id, t) in h.candLog ==> (id, t) in h'.candLog && h'.candLog[(id, t)] == h.candLog[(id, t)])
    && h.grants <= h'.grants && h.acks <= h'.acks && h.commits <= h'.commits
  }

  /** ... and what it records beyond that is the doing of `id`. */
  ghost predicate ExtendedBy(h: History, h': History, id: Id) {
    && Extends(h, h')
    && (forall g :: g in h'.grants && g !in h.grants ==> g.voter == id)
    && (forall a :: a in h'.acks && a !in h.acks ==> a.node == id)
    && (forall c, t :: (c, t) in h'.candLog && (c, t) !in h.candLog ==> c == id)
    && (forall t :: t in h'.leader && t !in h.leader ==> h'.leader[t] == id)
    && (forall t :: t in h.termLog && h'.termLog[t] != h.termLog[t] ==> h.leader[t] == id)
  }

  lemma SameHistory(cfg: Config, h: History, id: Id)
    requires HistoryInv(cfg, h)
    ensures ExtendedBy(h, h, id)
  {
  }

  lemma LogOkStays(h: History, h': History, log: Log)
    requires Extends(h, h') && LogOk(h, log)
    ensures LogOk(h', log)
  {
    forall i | 0 <= i < |log|
      ensures GroundedAt(h', log, i)
    {
      assert GroundedAt(h, log, i);
      assert log[..i + 1] <= h.termLog[log[i].term] <= h'.termLog[log[i].term];
    }
  }

  lemma OwnEntryStays(h: History, h': History, t: nat, i: nat)
    requires Extends(h, h') && t in h.termLog && i <= |h.termLog[t]|
    ensures OwnEntry(h, t, i) == OwnEntry(h', t, i)
    ensures i <= |h'.termLog[t]| && h.termLog[t][..i] == h'.termLog[t][..i]
  {
    assert h.termLog[t] <= h'.termLog[t];
    if i >= 1 {
      assert h.termLog[t][i - 1] == h'.termLog[t][i - 1];
    }
  }

  lemma BlockedStays(cfg: Config, h: History, h': History, t: nat, i: nat, upper: nat, upper': nat)
    requires Extends(h, h') && t in h.termLog && i <= |h.termLog[t]| && upper <= upper'
    requires forall s :: s in h.leader ==> (h.leader[s], s) in h.candLog
    requires Blocked(h, t, i, upper)
    ensures Blocked(h', t, i, upper')
  {
    var later :| t < later < upper && Misses(h, t, i, later);
    OwnEntryStays(h, h', t, i);
    assert InitLog(h', later) == InitLog(h, later);
    assert Misses(h', t, i, later);
  }

  lemma CoveredStays(h: History, h': History, prefix: Log, t: nat, t': nat)
    requires Extends(h, h') && Covered(h, prefix, t) && t <= t'
    ensures Covered(h', prefix, t')
  {
    if prefix != [] {
      var k :| Covers(h, k, prefix, t);
      OwnEntryStays(h, h', k.term, k.index);
      assert Covers(h', k, prefix, t');
    }
  }

  lemma MessageStays(h: History, h': History, msg: Message)
    requires Extends(h, h') && MessageInv(h, msg)
    ensures MessageInv(h', msg)
  {
    match msg
    case VoteRequest(req) =>
    case VoteReply(from, dest, reqTerm, r) =>
    case AppendRequest(dest, req) =>
      var t := req.term;
      var m := req.prevIndex + |req.entries|;
      OwnEntryStays(h, h', t, m);
      OwnEntryStays(h, h', t, req.leaderCommit);
      CoveredStays(h, h', h.termLog[t][..req.leaderCommit], t, t);
      assert h'.termLog[t][req.prevIndex..m] == h.termLog[t][..m][req.prevIndex..] == h.termLog[t][req.prevIndex..m];
      if req.prevIndex > 0 {
        assert h.termLog[t][req.prevIndex - 1] == h'.termLog[t][req.prevIndex - 1];
      }
    case AppendReply(from, dest, reqTerm, covered, r) =>
      if r.success {
        assert h.termLog[reqTerm] <= h'.termLog[reqTerm];
      }
  }

  lemma AckInvStays(cfg: Config, h: History, h': History, n: Node)
    requires Extends(h, h') && AckInv(h, n)
    requires forall s :: s in h.leader ==> (h.leader[s], s) in h.candLog
    requires forall a {:trigger AckOk(cfg, h, a)} :: a in h.acks ==> AckOk(cfg, h, a)
    requires forall a :: a in h'.acks && a !in h.acks ==> a.node != n.id
    ensures AckInv(h', n)
  {
    forall a | a in h'.acks && a.node == n.id
      ensures AckKept(h', n, a)
    {
      assert AckOk(cfg, h, a) && AckKept(h, n, a);
      OwnEntryStays(h, h', a.term, a.index);
      if Blocked(h, a.term, a.index, n.currentTerm + 1) {
        BlockedStays(cfg, h, h', a.term, a.index, n.currentTerm + 1, n.currentTerm + 1);
      }
    }
  }

  /** What another node does leaves this node's invariant alone. */
  lemma BystanderStays(cfg: Config, h: History, h': History, n: Node, actor: Id)
    requires HistoryInv(cfg, h) && ExtendedBy(h, h', actor) && n.id != actor && NodeInv(cfg, h, n)
    ensures NodeInv(cfg, h', n)
  {
    LogOkStays(h, h', n.log);
    CoveredStays(h, h', n.log[..n.commitIndex], n.currentTerm, n.currentTerm);
    forall s | s in h.leader ensures (h.leader[s], s) in h.candLog {
      assert LeaderOk(cfg, h, s);
    }
    AckInvStays(cfg, h, h', n);
    assert VoteInv(cfg, h', n);
    if n.role == Leader {
      assert h'.termLog[n.currentTerm] == h.termLog[n.currentTerm];
      assert LeaderInv(h', n);
    }
    if n.role == Candidate {
      assert CandidateInv(h', n);
    }
  }

  /** The part of the history invariant that every extension keeps. */
  lemma HistoryStays(cfg: Config, h: History, h': History)
    requires HistoryInv(cfg, h) && Extends(h, h')
    ensures forall g {:trigger GrantOk(cfg, h', g)} :: g in h.grants ==> GrantOk(cfg, h', g)
    ensures forall id, t {:trigger CandOk(cfg, h', id, t)} :: (id, t) in h.candLog ==> CandOk(cfg, h', id, t)
    ensures forall a {:trigger AckOk(cfg, h', a)} :: a in h.acks ==> AckOk(cfg, h', a)
    ensures forall k {:trigger CommitOk(cfg, h', k)} :: k in h.commits ==> CommitOk(cfg, h', k)
  {
    forall g | g in h.grants ensures GrantOk(cfg, h', g) {
      assert GrantOk(cfg, h, g);
    }
    forall id, t | (id, t) in h.candLog ensures CandOk(cfg, h', id, t) {
      assert CandOk(cfg, h, id, t);
      LogOkStays(h, h', h.candLog[(id, t)]);
    }
    forall a | a in h.acks ensures AckOk(cfg, h', a) {
      assert AckOk(cfg, h, a);
      assert h.termLog[a.term] <= h'.termLog[a.term];
    }
    forall k | k in h.commits ensures CommitOk(cfg, h', k) {
      assert CommitOk(cfg, h, k);
      OwnEntryStays(h, h', k.term, k.index);
    }
  }

  lemma LeaderOkStays(cfg: Config, h: History, h': History, t: nat)
    requires HistoryInv(cfg, h) && Extends(h, h') && t in h.leader
    requires h'.termLog[t] == h.termLog[t]
    ensures LeaderOk(cfg, h', t)
  {
    assert LeaderOk(cfg, h, t);
    assert InitLog(h', t) == InitLog(h, t);
    LogOkStays(h, h', h.termLog[t]);
  }

  lemma RespectStays(cfg: Config, h: History, h': History)
    requires HistoryInv(cfg, h) && Extends(h, h')
    requires forall a, g {:trigger Respects(h', a, g)} ::
               a in h'.acks && g in h'.grants && (a !in h.acks || g !in h.grants) ==> Respects(h', a, g)
    ensures VotesRespectAcks(h')
  {
    forall a, g | a in h'.acks && g in h'.grants
      ensures Respects(h', a, g)
    {
      if a in h.acks && g in h.grants {
        assert AckOk(cfg, h, a) && GrantOk(cfg, h, g) && Respects(h, a, g);
        OwnEntryStays(h, h', a.term, a.index);
        if g.term in h.leader {
          assert LeaderOk(cfg, h, g.term);
        }
        forall s | s in h.leader ensures (h.leader[s], s) in h.candLog {
          assert LeaderOk(cfg, h, s);
        }
        if Blocked(h, a.term, a.index, g.term) {
          BlockedStays(cfg, h, h', a.term, a.index, g.term, g.term);
        }
      }
    }
  }

  /** What a history must show for the things it records beyond those of `h`. */
  lemma HistoryGrows(cfg: Config, h: History, h': History)
    requires HistoryInv(cfg, h) && Extends(h, h')
    requires forall g {:trigger GrantOk(cfg, h', g)} :: g in h'.grants && g !in h.grants ==> GrantOk(cfg, h', g)
    requires forall id, t {:trigger CandOk(cfg, h', id, t)} ::
               (id, t) in h'.candLog && (id, t) !in h.candLog ==> CandOk(cfg, h', id, t)
    requires forall s {:trigger LeaderOk(cfg, h', s)} ::
               s in h'.leader && (s !in h.leader || h'.termLog[s] != h.termLog[s]) ==> LeaderOk(cfg, h', s)
    requires forall a {:trigger AckOk(cfg, h', a)} :: a in h'.acks && a !in h.acks ==> AckOk(cfg, h', a)
    requires forall k {:trigger CommitOk(cfg, h', k)} :: k in h'.commits && k !in h.commits ==> CommitOk(cfg, h', k)
    requires forall a, g {:trigger Respects(h', a, g)} ::
               a in h'.acks && g in h'.grants && (a !in h.acks || g !in h.grants) ==> Respects(h', a, g)
    requires VotesUnique(cfg, h')
    ensures HistoryInv(cfg, h')
  {
    hide GrantOk, CandOk, LeaderOk, AckOk, CommitOk, Respects, VotesUnique;
    HistoryStays(cfg, h, h');
    forall s | s in h'.leader ensures LeaderOk(cfg, h', s) {
      if s in h.leader && h'.termLog[s] == h.termLog[s] {
        LeaderOkStays(cfg, h, h', s);
      }
    }
    RespectStays(cfg, h, h');
  }

  // ----- What a history that satisfies the invariant says about one thing it records

  lemma LeaderFacts(cfg: Config, h: History, t: nat)
    requires HistoryInv(cfg, h) && t in h.leader
    ensures LeaderOk(cfg, h, t) && CandOk(cfg, h, h.leader[t], t)
  {
    assert LeaderOk(cfg, h, t);
  }

  lemma SameVotes(cfg: Config, h: History, h': History)
    requires HistoryInv(cfg, h) && h'.grants == h.grants && h'.candLog == h.candLog
    ensures VotesUnique(cfg, h')
  {
  }

  lemma CandidateFacts(cfg: Config, h: History, id: Id, t: nat)
    requires HistoryInv(cfg, h) && (id, t) in h.candLog
    ensures CandOk(cfg, h, id, t)
  {
  }

  lemma AckFacts(cfg: Config, h: History, a: Ack)
    requires HistoryInv(cfg, h) && a in h.acks
    ensures AckOk(cfg, h, a)
  {
  }
}
