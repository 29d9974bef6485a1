/** What the handlers of a node do, for every state and every message, stated on terms, votes, entries
    and messages and not on the functions the handlers are made of. */
module RaftHandlers {
  import opened RaftNode

  // ----- Votes

  /** A log that ends in entry `(term, index)`, with zeros for no entry, is at least as good as another:
      its last term is higher, or the same with at least as many entries. */
  ghost predicate AtLeast(term: nat, index: nat, log: Log) {
    if log == [] then true
    else term > log[|log| - 1].term || (term == log[|log| - 1].term && index >= |log|)
  }

  /** A vote is granted if and only if the request is not of an earlier term, the vote of its term is
      free or already the candidate's, and the candidate's log is at least as good. The node is then in
      the term of the request and its vote is the candidate's; without a grant the vote is what it was
      or, in a new term, free. */
  lemma VoteExactly(n: Node, req: VoteArgs, keepVote: bool)
    ensures var (n', r) := HandleRequestVote(n, req, keepVote);
      && (r.granted <==>
            && req.term >= n.currentTerm
            && (req.term > n.currentTerm || n.votedFor == NoVote || n.votedFor == req.candidate)
            && AtLeast(req.lastTerm, req.lastIndex, n.log))
      && r.term == n'.currentTerm == (if req.term > n.currentTerm then req.term else n.currentTerm)
      && n'.votedFor == (if r.granted then req.candidate else if req.term > n.currentTerm then NoVote else n.votedFor)
      && n' == n.(currentTerm := n'.currentTerm, votedFor := n'.votedFor,
                  role := if req.term > n.currentTerm then Follower else n.role)
  {
  }

  /** Every log is at least as good as itself; of two logs one is at least as good as the other; and
      what is at least as good as a better log is at least as good. */
  lemma BetterLogs(a: Log, b: Log, c: Log)
    ensures UpToDate(|a|, LastTerm(a), a)
    ensures UpToDate(|a|, LastTerm(a), b) || UpToDate(|b|, LastTerm(b), a)
    ensures UpToDate(|a|, LastTerm(a), b) && UpToDate(|b|, LastTerm(b), c) ==> UpToDate(|a|, LastTerm(a), c)
  {
  }

  // ----- Applying

  /** The messages sent: one for every index in the range for which there was room, with the command
      of that index, and no others, in the order of the indices. */
  ghost predicate Sends(out: seq<ApplyMsg>, log: Log, from: nat, upto: nat, room: set<nat>)
    requires upto <= |log|
  {
    && (forall m :: m in out <==> from < m.index <= upto && m.index in room && m.command == log[m.index - 1].command)
    && (forall i, j :: 0 <= i < j < |out| ==> out[i].index < out[j].index)
  }

  lemma {:induction false} EmitExactly(log: Log, from: nat, upto: nat, room: set<nat>)
    requires upto <= |log|
    ensures Sends(Emit(log, from, upto, room), log, from, upto, room)
    decreases upto
  {
    if from < upto {
      hide Sends;
      EmitExactly(log, from, upto - 1, room);
      SendsMore(Emit(log, from, upto - 1, room), log, from, upto, room);
    } else {
      NothingSent(log, from, upto, room);
    }
  }

  lemma SendsMore(out: seq<ApplyMsg>, log: Log, from: nat, upto: nat, room: set<nat>)
    requires from < upto <= |log| && Sends(out, log, from, upto - 1, room)
    ensures Sends(out + (if upto in room then [ApplyMsg(upto, log[upto - 1].command)] else []), log, from, upto, room)
  {
    var last := ApplyMsg(upto, log[upto - 1].command);
    var out' := out + (if upto in room then [last] else []);
    forall m ensures m in out' <==>
      from < m.index <= upto && m.index in room && m.command == log[m.index - 1].command
    {
      assert m in out' <==> m in out || (upto in room && m == last);
    }
    forall i, j | 0 <= i < j < |out'| ensures out'[i].index < out'[j].index {
      assert out[i] in out;
    }
  }

  /** Applying what is committed sends exactly these messages and moves on to the commit index. */
  lemma ApplyExactly(n: Node, room: set<nat>)
    requires n.commitIndex <= |n.log|
    ensures var n' := ApplyCommitted(n, room);
      && n.applied <= n'.applied && Sends(n'.applied[|n.applied|..], n.log, n.lastApplied, n.commitIndex, room)
      && n'.lastApplied == (if n.lastApplied < n.commitIndex then n.commitIndex else n.lastApplied)
      && n' == n.(lastApplied := n'.lastApplied, applied := n'.applied)
  {
    EmitExactly(n.log, n.lastApplied, n.commitIndex, room);
    hide Emit, Sends;
    var n' := ApplyCommitted(n, room);
    assert n.commitIndex > n.lastApplied ==>
      n'.applied[|n.applied|..] == Emit(n.log, n.lastApplied, n.commitIndex, room);
    NothingSent(n.log, n.lastApplied, n.commitIndex, room);
  }

  lemma NothingSent(log: Log, from: nat, upto: nat, room: set<nat>)
    requires upto <= |log|
    ensures upto <= from ==> Sends([], log, from, upto, room)
  {
  }

  // ----- Appending

  /** The log already has, by term, entry `i` of a request. */
  ghost predicate Has(log: Log, prev: nat, entries: Log, i: nat)
    requires i < |entries|
  {
    prev + i < |log| && log[prev + i].term == entries[i].term
  }

  /** The first entry of a request that the log does not already have, or their number. */
  ghost predicate FirstNew(log: Log, prev: nat, entries: Log, k: nat) {
    && k <= |entries| && (forall i :: 0 <= i < k ==> Has(log, prev, entries, i))
    && (k < |entries| ==> !Has(log, prev, entries, k))
  }

  /** The loop skips the entries the log already holds. If nothing is left the log stays, also beyond
      the request; otherwise it is cut there and ends with the rest of the request. */
  lemma {:induction false} MergeExactly(log: Log, prev: nat, entries: Log) returns (k: nat)
    requires prev <= |log|
    ensures FirstNew(log, prev, entries, k)
    ensures Merge(log, prev, entries) ==
      if k == |entries| then log else log[..if prev + k < |log| then prev + k else |log|] + entries[k..]
    decreases |entries|
  {
    hide FirstNew;
    if entries == [] {
      k := 0;
      NothingNew(log, prev);
    } else if prev < |log| && log[prev].term == entries[0].term {
      var j := MergeExactly(log, prev + 1, entries[1..]);
      k := j + 1;
      FirstNewSkips(log, prev, entries, j);
    } else {
      k := 0;
      MergeHere(log, prev, entries);
    }
  }

  lemma NothingNew(log: Log, prev: nat)
    ensures FirstNew(log, prev, [], 0)
  {
  }

  lemma FirstNewSkips(log: Log, prev: nat, entries: Log, j: nat)
    requires prev < |log| && entries != [] && log[prev].term == entries[0].term
    requires FirstNew(log, prev + 1, entries[1..], j)
    ensures FirstNew(log, prev, entries, j + 1) && entries[1..][j..] == entries[j + 1..]
  {
    forall i | 0 <= i < j + 1 ensures Has(log, prev, entries, i) {
      assert i > 0 ==> Has(log, prev + 1, entries[1..], i - 1);
    }
    assert j + 1 < |entries| ==> !Has(log, prev + 1, entries[1..], j);
  }

  /** Nothing is skipped: the log is cut here and ends with the request. */
  lemma MergeHere(log: Log, prev: nat, entries: Log)
    requires prev <= |log| && entries != [] && (prev == |log| || log[prev].term != entries[0].term)
    ensures FirstNew(log, prev, entries, 0) && entries[0..] == entries
    ensures Merge(log, prev, entries) == log[..prev] + entries
  {
    hide Merge, MergeOne;
    MergeStep(log, prev, entries);
    assert !Has(log, prev, entries, 0);
    MergeOneCuts(log, prev, entries[0]);
    MergeOnto(log[..prev] + [entries[0]], prev + 1, entries[1..]);
    assert log[..prev] + [entries[0]] + entries[1..] == log[..prev] + entries;
  }

  lemma MergeOneCuts(log: Log, prev: nat, e: Entry)
    requires prev <= |log| && (prev == |log| || log[prev].term != e.term)
    ensures MergeOne(log, prev, e) == log[..prev] + [e]
  {
    if prev == |log| {
      assert log[..prev] == log;
    }
  }

  lemma MergeStep(log: Log, prev: nat, entries: Log)
    requires prev <= |log| && entries != []
    ensures Merge(log, prev, entries) == Merge(MergeOne(log, prev, entries[0]), prev + 1, entries[1..])
  {
  }

  lemma {:induction false} MergeOnto(log: Log, prev: nat, entries: Log)
    requires prev == |log|
    ensures Merge(log, prev, entries) == log + entries
    decreases |entries|
  {
    if entries == [] {
      assert log + entries == log;
    } else {
      MergeStep(log, prev, entries);
      MergeOnto(log + [entries[0]], prev + 1, entries[1..]);
      assert log + [entries[0]] + entries[1..] == log + entries;
    }
  }

  /** A request is accepted if and only if it is not of an earlier term and the log holds, by term, the
      entry before the new ones or there is none. Of an earlier term it changes nothing; otherwise the
      node follows in the term of the request. If it is accepted the log is merged and what the leader
      has committed is committed and applied as far as the log reaches. */
  lemma AppendExactly(n: Node, req: AppendArgs, keepVote: bool, room: set<nat>)
    ensures var (n', r) := HandleAppendEntries(n, req, keepVote, room);
      && (r.success <==>
            && req.term >= n.currentTerm
            && (req.prevIndex == 0 || (req.prevIndex <= |n.log| && n.log[req.prevIndex - 1].term == req.prevTerm)))
      && r.term == (if r.success then req.term else n.currentTerm)
      && (req.term < n.currentTerm ==> n' == n)
      && (req.term >= n.currentTerm ==>
            && n'.role == Follower && n'.currentTerm == req.term
            && n'.votedFor == (if keepVote && req.term == n.currentTerm then n.votedFor else NoVote))
      && (!r.success ==> n'.log == n.log && n'.commitIndex == n.commitIndex)
      && (r.success ==> req.prevIndex <= |n.log| && n'.log == Merge(n.log, req.prevIndex, req.entries))
      && (r.success && req.leaderCommit <= n.commitIndex ==> n'.commitIndex == n.commitIndex)
      && (r.success && req.leaderCommit > n.commitIndex ==>
            n'.commitIndex == if req.leaderCommit < |n'.log| then req.leaderCommit else |n'.log|)
      && n'.votes == n.votes && n'.nextIndex == n.nextIndex && n'.matchIndex == n.matchIndex
      && n'.id == n.id && n'.peers == n.peers
  {
    hide Merge, Emit;
  }

  // ----- Answers

  /** An answer to a vote request counts while the node is still a candidate of that term. One of a higher
      term makes it a follower of that term without a vote. A granted one adds its sender to the votes, and
      the node leads once they are more than half of its peers plus one, with nothing yet known of its
      peers' logs. In all other cases nothing changes. */
  lemma VoteReplyExactly(n: Node, from: Id, reqTerm: nat, resp: VoteResult, keepVote: bool)
    ensures var n' := HandleVoteReply(n, from, reqTerm, resp, keepVote);
      var counts := n.role == Candidate && n.currentTerm == reqTerm;
      && (!counts || (resp.term <= n.currentTerm && !resp.granted) ==> n' == n)
      && (counts && resp.term > n.currentTerm ==>
            n' == n.(role := Follower, currentTerm := resp.term, votedFor := NoVote))
      && (counts && resp.term <= n.currentTerm && resp.granted ==>
            && n'.votes == n.votes + {from} && (n'.role == Leader <==> |n'.votes| > |n.peers| / 2 + 1)
            && (n'.role != Leader ==> n' == n.(votes := n'.votes))
            && (n'.role == Leader ==>
                  && n'.nextIndex.Keys == n'.matchIndex.Keys == n.peers
                  && (forall p :: p in n.peers ==> n'.nextIndex[p] == |n.log| + 1 && n'.matchIndex[p] == 0)
                  && n' == n.(votes := n'.votes, role := Leader, nextIndex := n'.nextIndex,
                              matchIndex := n'.matchIndex)))
  {
  }

  /** The entry is of the current term and more than half of the peers plus one, counting the node, hold it. */
  ghost predicate Replicated(n: Node, i: nat) {
    && 1 <= i <= |n.log| && n.log[i - 1].term == n.currentTerm
    && 1 + |set p | p in n.peers && (if p in n.matchIndex then n.matchIndex[p] else 0) >= i| > |n.peers| / 2 + 1
  }

  /** An answer to an append request counts while the node still leads that term. One of a higher term makes
      it a follower of that term without a vote. After a success the peer holds what the request covered
      and is sent what follows, and the largest replicated index beyond the commit index, if any, is
      committed and applied. After a refusal the peer is sent one entry more, down to the whole log. */
  lemma AppendReplyExactly(
    n: Node, from: Id, reqTerm: nat, covered: nat, resp: AppendResult, keepVote: bool, room: set<nat>)
    ensures var n' := HandleAppendReply(n, from, reqTerm, covered, resp, keepVote, room);
      var counts := n.role == Leader && n.currentTerm == reqTerm;
      var next := if from in n.nextIndex then n.nextIndex[from] else 0;
      && (!counts ==> n' == n)
      && (counts && resp.term > n.currentTerm ==>
            n' == n.(role := Follower, currentTerm := resp.term, votedFor := NoVote))
      && (counts && resp.term <= n.currentTerm && !resp.success ==>
            n' == if next > 1 then n.(nextIndex := n.nextIndex[from := next - 1]) else n)
      && (counts && resp.term <= n.currentTerm && resp.success ==>
            && n'.matchIndex == n.matchIndex[from := covered] && n'.nextIndex == n.nextIndex[from := covered + 1]
            && n' == n.(matchIndex := n'.matchIndex, nextIndex := n'.nextIndex, commitIndex := n'.commitIndex,
                        lastApplied := n'.lastApplied, applied := n'.applied)
            && (n'.commitIndex == n.commitIndex || (n'.commitIndex > n.commitIndex && Replicated(n', n'.commitIndex)))
            && (n.commitIndex <= |n.log| ==> forall i :: i > n'.commitIndex ==> !Replicated(n', i)))
  {
    hide Emit;
    var g := n.(matchIndex := n.matchIndex[from := covered], nextIndex := n.nextIndex[from := covered + 1]);
    var n' := HandleAppendReply(n, from, reqTerm, covered, resp, keepVote, room);
    if n.role == Leader && n.currentTerm == reqTerm && resp.term <= n.currentTerm && resp.success {
      forall i ensures Replicated(n', i) <==> Committable(g, i) {
        SameReplicated(g, n', i);
      }
      hide Committable, Replicated;
      if g.commitIndex <= |g.log| {
        ApplyExactly(g.(commitIndex := NewCommitIndex(g, |g.log|)), room);
      }
    }
  }

  lemma SameReplicated(n: Node, n': Node, i: nat)
    ensures
      && n'.peers == n.peers && n'.matchIndex == n.matchIndex && n'.log == n.log && n'.currentTerm == n.currentTerm
      ==> (Replicated(n', i) <==> Committable(n, i))
  {
    assert Replicas(n, i) == set p | p in n.peers && (if p in n.matchIndex then n.matchIndex[p] else 0) >= i;
  }
}
