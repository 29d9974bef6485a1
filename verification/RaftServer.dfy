/** A Raft node that updates its fields in place, as written: its handlers compute exactly the
    functions of `RaftNode`, with the vote erased whenever the node steps down. */
module RaftServer {
  import opened Lists
  import opened RaftNode
  import opened RaftHandlers

  lemma {:induction false} EmitSplits(log: Log, from: nat, mid: nat, upto: nat, room: set<nat>)
    requires from <= mid <= upto <= |log|
    ensures Emit(log, from, upto, room) == Emit(log, from, mid, room) + Emit(log, mid, upto, room)
    decreases upto
  {
    if mid < upto {
      EmitSplits(log, from, mid, upto - 1, room);
    }
  }

  /** Applying at every commit index on the way is applying once at the last one. */
  lemma ApplyTwice(n: Node, i: nat, j: nat, room: set<nat>)
    requires i <= j <= |n.log|
    ensures ApplyCommitted(ApplyCommitted(n.(commitIndex := i), room).(commitIndex := j), room)
         == ApplyCommitted(n.(commitIndex := j), room)
  {
    if n.lastApplied < i < j {
      EmitSplits(n.log, n.lastApplied, i, j, room);
    }
  }

  lemma {:induction false} DistinctSize(ids: seq<Id>)
    requires Distinct(ids)
    ensures |Members(ids)| == |ids|
  {
    if ids != [] {
      var k := |ids| - 1;
      DistinctSize(ids[..k]);
      assert Members(ids) == Members(ids[..k]) + {ids[k]};
    }
  }

  /** The node after the commit loop has looked at all indices up to `upto`. */
  ghost function CommitUpTo(n: Node, upto: nat, room: set<nat>): Node
    requires n.commitIndex <= upto <= |n.log|
  {
    var i := NewCommitIndex(n, upto);
    if i == n.commitIndex then n else ApplyCommitted(n.(commitIndex := i), room)
  }

  lemma CommitNone(n: Node, room: set<nat>)
    requires n.commitIndex <= |n.log|
    ensures CommitUpTo(n, n.commitIndex, room) == n
  {
  }

  lemma CommitAll(n: Node, room: set<nat>)
    requires n.commitIndex <= |n.log|
    ensures CommitUpTo(n, |n.log|, room) == RaftNode.UpdateCommitIndex(n, room)
  {
  }

  lemma CommitStep(n: Node, i: nat, room: set<nat>)
    requires n.commitIndex < i <= |n.log|
    ensures var before := CommitUpTo(n, i - 1, room);
      && before == n.(commitIndex := before.commitIndex, lastApplied := before.lastApplied, applied := before.applied)
      && Replicas(before, i) == Replicas(n, i)
      && CommitUpTo(n, i, room) == if Committable(n, i) then ApplyCommitted(before.(commitIndex := i), room) else before
  {
    hide Enough, Replicas, Emit;
    var k := NewCommitIndex(n, i - 1);
    ApplyTwice(n, k, i, room);
    SameReplicas(n, CommitUpTo(n, i - 1, room), i);
  }

  lemma SameReplicas(n: Node, m: Node, i: nat)
    requires n.peers == m.peers && n.matchIndex == m.matchIndex
    ensures Replicas(n, i) == Replicas(m, i)
  {
  }

  ghost predicate Filled(m: map<Id, nat>, peers: seq<Id>, k: nat, v: nat)
    requires k <= |peers|
  {
    m.Keys <= Members(peers) && forall j :: 0 <= j < k ==> peers[j] in m && m[peers[j]] == v
  }

  lemma FillOne(m: map<Id, nat>, peers: seq<Id>, k: nat, v: nat)
    requires k < |peers| && Filled(m, peers, k, v)
    ensures Filled(m[peers[k] := v], peers, k + 1, v)
  {
    assert peers[k] in Members(peers);
  }

  lemma AllFilled(m: map<Id, nat>, peers: seq<Id>, v: nat)
    requires Filled(m, peers, |peers|, v)
    ensures m == map p | p in Members(peers) :: v
    ensures m.Keys <= Members(peers)
  {
  }

  lemma FilledNone(m: map<Id, nat>, peers: seq<Id>, v: nat)
    requires m.Keys <= Members(peers)
    ensures Filled(m, peers, 0, v)
  {
  }

  class Server {
    const id: Id
    const peers: seq<Id>
    var role: Role
    var currentTerm: nat
    var votedFor: Id
    var log: Log
    var commitIndex: nat
    var lastApplied: nat
    var nextIndex: map<Id, nat>
    var matchIndex: map<Id, nat>
    var votesReceived: nat
    ghost var votes: set<Id>
    var applied: seq<ApplyMsg>

    ghost predicate Valid()
      reads this
    {
      && votesReceived == |votes| && Distinct(peers)
      && nextIndex.Keys <= Members(peers) && matchIndex.Keys <= Members(peers)
    }

    ghost function State(): Node
      reads this
    {
      Node(id, Members(peers), role, currentTerm, votedFor, log, commitIndex, lastApplied,
           nextIndex, matchIndex, votes, applied)
    }

    constructor (id: Id, peers: seq<Id>)
      requires Distinct(peers)
      ensures Valid() && State() == NewNode(id, Members(peers))
    {
      this.id, this.peers := id, peers;
      role, currentTerm, votedFor, log := Follower, 0, NoVote, [];
      commitIndex, lastApplied, nextIndex, matchIndex := 0, 0, map[], map[];
      votesReceived, votes, applied := 0, {}, [];
    }

    method StartElection()
      requires Valid()
      modifies this
      ensures Valid() && State() == RaftNode.StartElection(old(State()))
    {
      role := Candidate;
      currentTerm := currentTerm + 1;
      votedFor := id;
      votesReceived, votes := 1, {id};
    }

    method BecomeFollower(term: nat)
      requires Valid()
      modifies this
      ensures Valid() && State() == RaftNode.BecomeFollower(old(State()), term, false)
    {
      role, currentTerm, votedFor := Follower, term, NoVote;
    }

    method BecomeLeader()
      requires Valid()
      modifies this`role, this`nextIndex, this`matchIndex
      ensures Valid() && State() == RaftNode.BecomeLeader(old(State()))
    {
      hide Filled, Members;
      role := Leader;
      FilledNone(nextIndex, peers, |log| + 1);
      FilledNone(matchIndex, peers, 0);
      for k := 0 to |peers|
        invariant role == Leader && Filled(nextIndex, peers, k, |log| + 1) && Filled(matchIndex, peers, k, 0)
      {
        FillOne(nextIndex, peers, k, |log| + 1);
        FillOne(matchIndex, peers, k, 0);
        nextIndex := nextIndex[peers[k] := |log| + 1];
        matchIndex := matchIndex[peers[k] := 0];
      }
      AllFilled(nextIndex, peers, |log| + 1);
      AllFilled(matchIndex, peers, 0);
    }

    method HandleRequestVote(req: VoteArgs) returns (resp: VoteResult)
      requires Valid()
      modifies this
      ensures Valid() && (State(), resp) == RaftNode.HandleRequestVote(old(State()), req, false)
      ensures resp.granted <==>
        && req.term >= old(currentTerm)
        && (req.term > old(currentTerm) || old(votedFor) == NoVote || old(votedFor) == req.candidate)
        && AtLeast(req.lastTerm, req.lastIndex, log)
    {
      VoteExactly(State(), req, false);
      resp := VoteResult(currentTerm, false);
      if req.term < currentTerm {
        return;
      }
      if req.term > currentTerm {
        BecomeFollower(req.term);
      }
      if (votedFor == NoVote || votedFor == req.candidate) && UpToDate(req.lastIndex, req.lastTerm, log) {
        votedFor := req.candidate;
        resp := resp.(granted := true);
      }
      resp := resp.(term := currentTerm);
    }

    /** The counter of the election grows by one for each answer, which is handled once. */
    method HandleVoteReply(from: Id, reqTerm: nat, resp: VoteResult)
      requires Valid()
      requires role == Candidate && currentTerm == reqTerm && resp.granted ==> from !in votes
      modifies this
      ensures Valid() && State() == RaftNode.HandleVoteReply(old(State()), from, reqTerm, resp, false)
    {
      if role != Candidate || currentTerm != reqTerm {
        return;
      }
      if resp.term > currentTerm {
        BecomeFollower(resp.term);
        return;
      }
      if resp.granted {
        votesReceived, votes := votesReceived + 1, votes + {from};
        DistinctSize(peers);
        if votesReceived > |peers| / 2 + 1 {
          BecomeLeader();
        }
      }
    }

    method Propose(command: string) returns (index: nat, term: nat, ok: bool)
      requires Valid()
      modifies this
      ensures Valid() && State() == RaftNode.Propose(old(State()), command)
      ensures ok <==> old(role) == Leader
      ensures ok ==> index == |log| && term == currentTerm && log[index - 1] == Entry(term, index, command)
      ensures !ok ==> index == 0 && term == 0
    {
      if role != Leader {
        return 0, 0, false;
      }
      var entry := Entry(currentTerm, |log| + 1, command);
      log := log + [entry];
      return entry.index, currentTerm, true;
    }

    method RequestFor(peer: Id) returns (req: AppendArgs)
      requires Valid() && 1 <= Lookup(nextIndex, peer)
      ensures req == AppendArgsFor(State(), peer)
    {
      var next := nextIndex[peer];
      var prevIndex := next - 1;
      var prevTerm := 0;
      if prevIndex > 0 && prevIndex <= |log| {
        prevTerm := log[prevIndex - 1].term;
      }
      var entries := [];
      if next <= |log| {
        entries := log[next - 1..];
      }
      req := AppendArgs(currentTerm, id, prevIndex, prevTerm, entries, commitIndex);
      ghost var n := State();
      assert n.log == log && Lookup(n.nextIndex, peer) == next;
      assert AppendArgsFor(n, peer).entries == entries;
    }

    method ApplyCommitted(room: set<nat>)
      requires Valid() && commitIndex <= |log|
      modifies this`lastApplied, this`applied
      ensures Valid() && State() == RaftNode.ApplyCommitted(old(State()), room)
      ensures old(applied) <= applied
      ensures Sends(applied[|old(applied)|..], log, old(lastApplied), commitIndex, room)
    {
      hide Sends, Distinct, Members;
      ghost var n, start := State(), lastApplied;
      while lastApplied < commitIndex
        invariant start <= lastApplied && (start <= commitIndex ==> lastApplied <= commitIndex)
        invariant start > commitIndex ==> lastApplied == start
        invariant lastApplied <= commitIndex ==> applied == old(applied) + Emit(log, start, lastApplied, room)
        invariant lastApplied > commitIndex ==> applied == old(applied)
      {
        lastApplied := lastApplied + 1;
        if lastApplied in room {
          applied := applied + [ApplyMsg(lastApplied, log[lastApplied - 1].command)];
        }
      }
      ApplyExactly(n, room);
    }

    method HandleAppendEntries(req: AppendArgs, room: set<nat>) returns (resp: AppendResult)
      requires Valid()
      modifies this
      ensures Valid() && (State(), resp) == RaftNode.HandleAppendEntries(old(State()), req, false, room)
    {
      resp := AppendResult(currentTerm, false);
      if req.term < currentTerm {
        return;
      }
      BecomeFollower(req.term);
      if req.prevIndex > 0 {
        if req.prevIndex > |log| {
          return;
        }
        if log[req.prevIndex - 1].term != req.prevTerm {
          return;
        }
      }
      AppendAll(req.prevIndex, req.entries);
      if req.leaderCommit > commitIndex {
        commitIndex := Min(req.leaderCommit, |log|);
        ApplyCommitted(room);
      }
      resp := AppendResult(currentTerm, true);
    }

    /** The loop over the entries of a request: skip those already there, cut the log at the
        first conflict, append the rest. */
    method AppendAll(prevIndex: nat, entries: Log)
      requires Valid() && prevIndex <= |log|
      modifies this`log
      ensures Valid() && log == Merge(old(log), prevIndex, entries)
    {
      for i := 0 to |entries|
        invariant prevIndex + i <= |log|
        invariant Merge(log, prevIndex + i, entries[i..]) == Merge(old(log), prevIndex, entries)
      {
        var entry := entries[i];
        var idx := prevIndex + i + 1;
        assert entries[i..][0] == entry && entries[i..][1..] == entries[i + 1..];
        ghost var merged := MergeOne(log, prevIndex + i, entry);
        if idx <= |log| {
          if log[idx - 1].term != entry.term {
            log := log[..idx - 1];
            log := log + [entry];
          }
        } else {
          log := log + [entry];
        }
        assert log == merged;
      }
    }

    method CountReplicas(i: nat) returns (count: nat)
      requires Valid()
      ensures count == 1 + |Replicas(State(), i)|
    {
      count := 1;
      ghost var seen: set<Id> := {};
      for k := 0 to |peers|
        invariant seen == set p | p in peers[..k] && Lookup(matchIndex, p) >= i
        invariant count == 1 + |seen|
      {
        assert peers[..k + 1] == peers[..k] + [peers[k]];
        assert peers[k] !in peers[..k];
        if Lookup(matchIndex, peers[k]) >= i {
          count := count + 1;
          seen := seen + {peers[k]};
        }
      }
      assert peers[..|peers|] == peers;
      assert seen == Replicas(State(), i);
    }

    method UpdateCommitIndex(room: set<nat>)
      requires Valid()
      modifies this`commitIndex, this`lastApplied, this`applied
      ensures Valid() && State() == RaftNode.UpdateCommitIndex(old(State()), room)
    {
      hide CommitUpTo, RaftNode.ApplyCommitted;
      ghost var n := State();
      if commitIndex > |log| {
        return;
      }
      CommitNone(n, room);
      var first := commitIndex + 1;
      for i := first to |log| + 1
        invariant Valid() && State() == CommitUpTo(n, i - 1, room)
      {
        TryCommit(i, room, n);
      }
      CommitAll(n, room);
    }

    /** One turn of the loop: commits and applies up to `i` if enough nodes hold its entry. */
    method TryCommit(i: nat, room: set<nat>, ghost n: Node)
      requires Valid() && n.commitIndex < i <= |n.log| && State() == CommitUpTo(n, i - 1, room)
      modifies this`commitIndex, this`lastApplied, this`applied
      ensures Valid() && State() == CommitUpTo(n, i, room)
    {
      hide CommitUpTo, RaftNode.ApplyCommitted, RaftNode.Replicas;
      CommitStep(n, i, room);
      DistinctSize(peers);
      if log[i - 1].term != currentTerm {
        return;
      }
      var count := CountReplicas(i);
      if count > |peers| / 2 + 1 {
        commitIndex := i;
        ApplyCommitted(room);
      }
    }

    method HandleAppendReply(from: Id, reqTerm: nat, covered: nat, resp: AppendResult, room: set<nat>)
      requires Valid() && from in peers
      modifies this
      ensures Valid()
      ensures State() == RaftNode.HandleAppendReply(old(State()), from, reqTerm, covered, resp, false, room)
    {
      if role != Leader || currentTerm != reqTerm {
        return;
      }
      if resp.term > currentTerm {
        BecomeFollower(resp.term);
        return;
      }
      if resp.success {
        matchIndex := matchIndex[from := covered];
        nextIndex := nextIndex[from := covered + 1];
        UpdateCommitIndex(room);
      } else if Lookup(nextIndex, from) > 1 {
        nextIndex := nextIndex[from := nextIndex[from] - 1];
      }
    }
  }
}
