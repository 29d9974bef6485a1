/** The state of one Raft node and its handlers, as functions from the old state to the new one.
    Indices are one-based as in the protocol; `log[i - 1]` is the entry at index `i`. */
module RaftNode {

  type Id = string

  /** The empty string stands for "no vote", so no node may have it as its id. */
  const NoVote: Id := ""

  datatype Role = Follower | Candidate | Leader

  datatype Entry = Entry(term: nat, index: nat, command: string)

  type Log = seq<Entry>

  datatype ApplyMsg = ApplyMsg(index: nat, command: string)

  /** `votes` holds the nodes whose vote the running election has counted, itself included;
      the vote counter of the election is its size. `applied` is everything sent on the
      apply channel so far. */
  datatype Node = Node(
    id: Id,
    peers: set<Id>,
    role: Role,
    currentTerm: nat,
    votedFor: Id,
    log: Log,
    commitIndex: nat,
    lastApplied: nat,
    nextIndex: map<Id, nat>,
    matchIndex: map<Id, nat>,
    votes: set<Id>,
    applied: seq<ApplyMsg>)

  datatype VoteArgs = VoteArgs(term: nat, candidate: Id, lastIndex: nat, lastTerm: nat)

  datatype VoteResult = VoteResult(term: nat, granted: bool)

  datatype AppendArgs = AppendArgs(
    term: nat, leader: Id, prevIndex: nat, prevTerm: nat, entries: Log, leaderCommit: nat)

  datatype AppendResult = AppendResult(term: nat, success: bool)

  function NewNode(id: Id, peers: set<Id>): Node {
    Node(id, peers, Follower, 0, NoVote, [], 0, 0, map[], map[], {}, [])
  }

  /** A map of counters reads zero for a missing key. */
  function Lookup(m: map<Id, nat>, key: Id): nat {
    if key in m then m[key] else 0
  }

  function Min(a: nat, b: nat): nat {
    if a < b then a else b
  }

  function LastTerm(log: Log): nat {
    if |log| == 0 then 0 else log[|log| - 1].term
  }

  /** More than half of the peers plus one, the threshold of both elections and commits. */
  predicate Enough(count: nat, peers: set<Id>) {
    count > |peers| / 2 + 1
  }

  predicate UpToDate(lastIndex: nat, lastTerm: nat, log: Log) {
    if lastTerm != LastTerm(log) then lastTerm > LastTerm(log) else lastIndex >= |log|
  }

  /** `keepVote` selects between the node as written (a step down always erases the vote)
      and the node that keeps its vote when the term does not rise. */
  function BecomeFollower(n: Node, term: nat, keepVote: bool): Node {
    n.(role := Follower,
       currentTerm := term,
       votedFor := if keepVote && term == n.currentTerm then n.votedFor else NoVote)
  }

  function StartElection(n: Node): Node {
    n.(role := Candidate, currentTerm := n.currentTerm + 1, votedFor := n.id, votes := {n.id})
  }

  function VoteArgsOf(n: Node): VoteArgs {
    VoteArgs(n.currentTerm, n.id, |n.log|, LastTerm(n.log))
  }

  function HandleRequestVote(n: Node, req: VoteArgs, keepVote: bool): (Node, VoteResult) {
    if req.term < n.currentTerm then (n, VoteResult(n.currentTerm, false))
    else
      var f := if req.term > n.currentTerm then BecomeFollower(n, req.term, keepVote) else n;
      if (f.votedFor == NoVote || f.votedFor == req.candidate) && UpToDate(req.lastIndex, req.lastTerm, f.log)
      then (f.(votedFor := req.candidate), VoteResult(f.currentTerm, true))
      else (f, VoteResult(f.currentTerm, false))
  }

  function BecomeLeader(n: Node): Node {
    n.(role := Leader,
       nextIndex := map p | p in n.peers :: |n.log| + 1,
       matchIndex := map p | p in n.peers :: 0)
  }

  function HandleVoteReply(n: Node, from: Id, reqTerm: nat, resp: VoteResult, keepVote: bool): Node {
    if n.role != Candidate || n.currentTerm != reqTerm then n
    else if resp.term > n.currentTerm then BecomeFollower(n, resp.term, keepVote)
    else if !resp.granted then n
    else
      var counted := n.(votes := n.votes + {from});
      if Enough(|counted.votes|, n.peers) then BecomeLeader(counted) else counted
  }

  function Propose(n: Node, command: string): Node {
    if n.role != Leader then n
    else n.(log := n.log + [Entry(n.currentTerm, |n.log| + 1, command)])
  }

  /** The request a leader sends to a peer carries the whole suffix from `nextIndex` on.
      A `nextIndex` of zero would wrap around in the source; the cluster invariant excludes it. */
  function AppendArgsFor(n: Node, peer: Id): AppendArgs {
    var next := Lookup(n.nextIndex, peer);
    var prev := if next == 0 then 0 else next - 1;
    AppendArgs(
      n.currentTerm, n.id, prev,
      if 0 < prev <= |n.log| then n.log[prev - 1].term else 0,
      if prev < |n.log| then n.log[prev..] else [],
      n.commitIndex)
  }

  /** One turn of the append loop: the entry destined for index `prev + 1`. */
  function MergeOne(log: Log, prev: nat, e: Entry): (r: Log)
    requires prev <= |log|
    ensures prev < |r|
  {
    if prev == |log| then log + [e]
    else if log[prev].term != e.term then log[..prev] + [e]
    else log
  }

  function Merge(log: Log, prev: nat, entries: Log): (r: Log)
    requires prev <= |log|
    ensures prev + |entries| <= |r|
    decreases |entries|
  {
    if entries == [] then log
    else Merge(MergeOne(log, prev, entries[0]), prev + 1, entries[1..])
  }

  predicate PrevMatches(log: Log, req: AppendArgs) {
    req.prevIndex == 0 || (req.prevIndex <= |log| && log[req.prevIndex - 1].term == req.prevTerm)
  }

  /** The messages for indices `from + 1` to `upto`, without those that found the channel full.
      `room` is the set of indices the channel accepts. */
  function Emit(log: Log, from: nat, upto: nat, room: set<nat>): seq<ApplyMsg>
    requires upto <= |log|
    decreases upto
  {
    if from >= upto then []
    else Emit(log, from, upto - 1, room) + (if upto in room then [ApplyMsg(upto, log[upto - 1].command)] else [])
  }

  function ApplyCommitted(n: Node, room: set<nat>): Node
    requires n.commitIndex <= |n.log|
  {
    if n.commitIndex <= n.lastApplied then n
    else n.(lastApplied := n.commitIndex,
            applied := n.applied + Emit(n.log, n.lastApplied, n.commitIndex, room))
  }

  function HandleAppendEntries(n: Node, req: AppendArgs, keepVote: bool, room: set<nat>): (Node, AppendResult) {
    if req.term < n.currentTerm then (n, AppendResult(n.currentTerm, false))
    else
      var f := BecomeFollower(n, req.term, keepVote);
      if !PrevMatches(f.log, req) then (f, AppendResult(n.currentTerm, false))
      else
        var g := f.(log := Merge(f.log, req.prevIndex, req.entries));
        var d := if req.leaderCommit > g.commitIndex
                 then ApplyCommitted(g.(commitIndex := Min(req.leaderCommit, |g.log|)), room)
                 else g;
        (d, AppendResult(d.currentTerm, true))
  }

  function Replicas(n: Node, i: nat): set<Id> {
    set p | p in n.peers && Lookup(n.matchIndex, p) >= i
  }

  /** Index `i` may be committed: its entry is of the current term and enough nodes hold it. */
  predicate Committable(n: Node, i: nat) {
    1 <= i <= |n.log| && n.log[i - 1].term == n.currentTerm && Enough(1 + |Replicas(n, i)|, n.peers)
  }

  /** The largest committable index in `(commitIndex, upto]`, or the old commit index. */
  function NewCommitIndex(n: Node, upto: nat): (i: nat)
    requires n.commitIndex <= upto <= |n.log|
    ensures n.commitIndex <= i <= upto
    ensures i > n.commitIndex ==> Committable(n, i)
    ensures forall j :: i < j <= upto ==> !Committable(n, j)
    decreases upto
  {
    if upto == n.commitIndex then upto
    else if Committable(n, upto) then upto
    else NewCommitIndex(n, upto - 1)
  }

  function UpdateCommitIndex(n: Node, room: set<nat>): Node {
    if n.commitIndex > |n.log| then n
    else
      var i := NewCommitIndex(n, |n.log|);
      if i == n.commitIndex then n else ApplyCommitted(n.(commitIndex := i), room)
  }

  /** `match` is the last index the answered request covered. */
  function HandleAppendReply(
    n: Node, from: Id, reqTerm: nat, match_: nat, resp: AppendResult, keepVote: bool, room: set<nat>): Node
  {
    if n.role != Leader || n.currentTerm != reqTerm then n
    else if resp.term > n.currentTerm then BecomeFollower(n, resp.term, keepVote)
    else if resp.success then
      UpdateCommitIndex(
        n.(matchIndex := n.matchIndex[from := match_], nextIndex := n.nextIndex[from := match_ + 1]), room)
    else if Lookup(n.nextIndex, from) > 1 then
      n.(nextIndex := n.nextIndex[from := Lookup(n.nextIndex, from) - 1])
    else n
  }
}
