/** What becomes of every committed command: it is sent to the state machine when a node's applied
    index passes it, unless the channel had no room for it just then. */
module RaftApplied {
  import opened RaftNode
  import opened RaftCluster
  import opened RaftHandlers

  /** A node sends what its applied index passes, or leaves both as they were. */
  ghost predicate Passes(n: Node, n': Node, room: set<nat>) {
    || (n'.lastApplied == n.lastApplied && n'.applied == n.applied)
    || (&& n.lastApplied < n'.lastApplied <= |n'.log| && n.applied <= n'.applied
        && Sends(n'.applied[|n.applied|..], n'.log, n.lastApplied, n'.lastApplied, room))
  }

  lemma ApplyPasses(n: Node, room: set<nat>)
    requires n.commitIndex <= |n.log|
    ensures Passes(n, ApplyCommitted(n, room), room)
  {
    hide Sends;
    ApplyExactly(n, room);
  }

  lemma AppendPasses(n: Node, req: AppendArgs, keepVote: bool, room: set<nat>)
    ensures Passes(n, HandleAppendEntries(n, req, keepVote, room).0, room)
  {
    hide Sends, ApplyCommitted, Merge;
    if req.term >= n.currentTerm && PrevMatches(n.log, req) && req.leaderCommit > n.commitIndex {
      var f := BecomeFollower(n, req.term, keepVote);
      var g := f.(log := Merge(f.log, req.prevIndex, req.entries));
      ApplyPasses(g.(commitIndex := Min(req.leaderCommit, |g.log|)), room);
    }
  }

  lemma ReplyPasses(n: Node, from: Id, reqTerm: nat, covered: nat, r: AppendResult, keepVote: bool, room: set<nat>)
    ensures Passes(n, HandleAppendReply(n, from, reqTerm, covered, r, keepVote, room), room)
  {
    hide Sends, ApplyCommitted, Committable;
    var g := n.(matchIndex := n.matchIndex[from := covered], nextIndex := n.nextIndex[from := covered + 1]);
    if g.commitIndex <= |g.log| {
      ApplyPasses(g.(commitIndex := NewCommitIndex(g, |g.log|)), room);
    }
  }

  lemma StepPasses(cfg: Config, c: Cluster, step: Step, id: Id)
    requires id in c.nodes
    ensures var c' := Next(cfg, c, step);
      && id in c'.nodes
      && if step.Deliver? && step.id == id then Passes(c.nodes[id], c'.nodes[id], step.room)
         else c'.nodes[id].lastApplied == c.nodes[id].lastApplied && c'.nodes[id].applied == c.nodes[id].applied
  {
    hide Passes, HandleAppendEntries, HandleAppendReply;
    if Enabled(c, step) && step.Deliver? && step.id == id {
      var n := c.nodes[id];
      match step.msg
      case AppendRequest(_, req) => AppendPasses(n, req, cfg.keepVote, step.room);
      case AppendReply(from, _, reqTerm, covered, r) =>
        ReplyPasses(n, from, reqTerm, covered, r, cfg.keepVote, step.room);
      case _ => VotesPass(n, step.msg, cfg.keepVote, step.room);
    } else {
      NothingPasses(c, step, id);
    }
  }

  lemma VotesPass(n: Node, msg: Message, keepVote: bool, room: set<nat>)
    requires msg.VoteRequest? || msg.VoteReply?
    ensures Passes(n, Receive(n, msg, keepVote, room).0, room)
  {
    hide Sends;
  }

  lemma NothingPasses(c: Cluster, step: Step, id: Id)
    requires id in c.nodes
    ensures Passes(c.nodes[id], c.nodes[id], if step.Deliver? then step.room else {})
  {
    hide Sends;
  }

  /** Every node of the cluster is there after every run. */
  lemma {:induction false} NodesStay(cfg: Config, run: seq<Step>)
    ensures Exec(cfg, run).nodes.Keys == cfg.servers
    decreases |run|
  {
    hide Receive;
    if run != [] {
      NodesStay(cfg, run[..|run| - 1]);
    }
  }

  ghost function At(cfg: Config, run: seq<Step>, p: nat, id: Id): Node
    requires p <= |run| && id in cfg.servers
  {
    NodesStay(cfg, run[..p]);
    Exec(cfg, run[..p]).nodes[id]
  }

  /** At step `q` of the run the applied index of the node passes `i`. */
  ghost predicate PassedAt(cfg: Config, run: seq<Step>, id: Id, i: nat, q: nat)
    requires id in cfg.servers
  {
    && q < |run| && run[q].Deliver? && run[q].id == id
    && At(cfg, run, q, id).lastApplied < i <= At(cfg, run, q + 1, id).lastApplied <= |At(cfg, run, q + 1, id).log|
  }

  /** The messages are in order and lie below the applied index. */
  ghost predicate Ordered(n: Node) {
    && (forall x :: 0 <= x < |n.applied| ==> 1 <= n.applied[x].index <= n.lastApplied)
    && (forall x, y :: 0 <= x < y < |n.applied| ==> n.applied[x].index < n.applied[y].index)
  }

  lemma PassesInOrder(n: Node, n': Node, room: set<nat>)
    requires Ordered(n) && Passes(n, n', room)
    ensures Ordered(n')
  {
    if n'.lastApplied > n.lastApplied {
      var out := n'.applied[|n.applied|..];
      assert n'.applied == n.applied + out;
      forall x | 0 <= x < |out| ensures n.lastApplied < out[x].index <= n'.lastApplied {
        assert out[x] in out;
      }
    }
  }

  lemma OneMore(cfg: Config, run: seq<Step>, p: nat, id: Id)
    requires p < |run| && id in cfg.servers
    ensures id in Exec(cfg, run[..p]).nodes && id in Next(cfg, Exec(cfg, run[..p]), run[p]).nodes
    ensures At(cfg, run, p + 1, id) == Next(cfg, Exec(cfg, run[..p]), run[p]).nodes[id]
    ensures At(cfg, run, p, id) == Exec(cfg, run[..p]).nodes[id]
  {
    hide Next;
    NodesStay(cfg, run[..p]);
    NodesStay(cfg, run[..p + 1]);
    assert run[..p + 1][..p] == run[..p];
  }

  lemma AtStart(cfg: Config, run: seq<Step>, id: Id)
    requires id in cfg.servers
    ensures At(cfg, run, 0, id) == NewNode(id, cfg.servers - {id})
  {
  }

  /** Messages leave every node of every cluster in the order of their indices. */
  lemma {:induction false} AlwaysOrdered(cfg: Config, run: seq<Step>, p: nat, id: Id)
    requires id in cfg.servers && p <= |run|
    ensures Ordered(At(cfg, run, p, id))
    decreases p
  {
    hide Passes, Exec, Next, At;
    if p == 0 {
      AtStart(cfg, run, id);
    } else {
      AlwaysOrdered(cfg, run, p - 1, id);
      OneMore(cfg, run, p - 1, id);
      StepPasses(cfg, Exec(cfg, run[..p - 1]), run[p - 1], id);
      hide Ordered;
      if run[p - 1].Deliver? && run[p - 1].id == id {
        PassesInOrder(At(cfg, run, p - 1, id), At(cfg, run, p, id), run[p - 1].room);
      } else {
        SameApplied(At(cfg, run, p - 1, id), At(cfg, run, p, id));
      }
    }
  }

  lemma SameApplied(n: Node, n': Node)
    requires Ordered(n) && n'.lastApplied == n.lastApplied && n'.applied == n.applied
    ensures Ordered(n')
  {
  }

  /** The messages of index `i` among those sent: one with this command, or none. */
  ghost predicate Sent(out: seq<ApplyMsg>, i: nat, command: string, room: set<nat>) {
    forall m :: m in out && m.index == i <==> m == ApplyMsg(i, command) && i in room
  }

  lemma SentNow(n: Node, n': Node, room: set<nat>, i: nat)
    requires Ordered(n) && Passes(n, n', room) && n.lastApplied < i <= n'.lastApplied
    ensures i <= n'.lastApplied <= |n'.log| && Sent(n'.applied, i, n'.log[i - 1].command, room)
  {
    var out := n'.applied[|n.applied|..];
    assert n'.applied == n.applied + out;
    forall m ensures m in n'.applied && m.index == i <==> m == ApplyMsg(i, n'.log[i - 1].command) && i in room {
      assert m in n'.applied <==> m in n.applied || m in out;
    }
  }

  lemma SentBefore(n: Node, n': Node, room: set<nat>, i: nat, command: string, room0: set<nat>)
    requires Passes(n, n', room) && i <= n.lastApplied && Sent(n.applied, i, command, room0)
    ensures Sent(n'.applied, i, command, room0)
  {
    if n'.lastApplied > n.lastApplied {
      var out := n'.applied[|n.applied|..];
      assert n'.applied == n.applied + out;
      forall m ensures m in n'.applied && m.index == i <==> m == ApplyMsg(i, command) && i in room0 {
        assert m in n'.applied <==> m in n.applied || m in out;
      }
    }
  }

  /** In every run of every cluster, for every node and every index up to its applied index: the index
      was passed at some step, and if the channel had room for it then, the command the log held there
      was sent as its one message; otherwise none ever was. */
  lemma {:induction false} AppliedExactly(cfg: Config, run: seq<Step>, p: nat, id: Id, i: nat) returns (q: nat)
    requires id in cfg.servers && p <= |run| && 1 <= i <= At(cfg, run, p, id).lastApplied
    ensures q < p && PassedAt(cfg, run, id, i, q)
    ensures forall m :: m in At(cfg, run, p, id).applied && m.index == i <==>
      m == ApplyMsg(i, At(cfg, run, q + 1, id).log[i - 1].command) && i in run[q].room
    ensures forall x, y :: 0 <= x < y < |At(cfg, run, p, id).applied| ==>
      At(cfg, run, p, id).applied[x].index < At(cfg, run, p, id).applied[y].index
    decreases p
  {
    hide Exec, Next, At, Passes, Ordered, Sent;
    AtStart(cfg, run, id);
    var k := p - 1;
    OneMore(cfg, run, k, id);
    StepPasses(cfg, Exec(cfg, run[..k]), run[k], id);
    AlwaysOrdered(cfg, run, k, id);
    AlwaysOrdered(cfg, run, p, id);
    OrderedIs(At(cfg, run, p, id));
    var n, n' := At(cfg, run, k, id), At(cfg, run, p, id);
    if n.lastApplied < i {
      q := k;
      SentNow(n, n', run[k].room, i);
    } else {
      q := AppliedExactly(cfg, run, k, id, i);
      SentFrom(n.applied, i, At(cfg, run, q + 1, id).log[i - 1].command, run[q].room);
      if run[k].Deliver? && run[k].id == id {
        SentBefore(n, n', run[k].room, i, At(cfg, run, q + 1, id).log[i - 1].command, run[q].room);
      }
    }
    SentIs(n'.applied, i, At(cfg, run, q + 1, id).log[i - 1].command, run[q].room);
  }

  lemma OrderedIs(n: Node)
    requires Ordered(n)
    ensures forall x, y :: 0 <= x < y < |n.applied| ==> n.applied[x].index < n.applied[y].index
  {
  }

  lemma SentIs(out: seq<ApplyMsg>, i: nat, command: string, room: set<nat>)
    requires Sent(out, i, command, room)
    ensures forall m :: m in out && m.index == i <==> m == ApplyMsg(i, command) && i in room
  {
  }

  lemma SentFrom(out: seq<ApplyMsg>, i: nat, command: string, room: set<nat>)
    requires forall m :: m in out && m.index == i <==> m == ApplyMsg(i, command) && i in room
    ensures Sent(out, i, command, room)
  {
  }

  // ----- Nothing committed is left behind

  lemma StepKeepsUp(cfg: Config, c: Cluster, step: Step, id: Id)
    requires id in c.nodes && c.nodes[id].commitIndex <= c.nodes[id].lastApplied
    ensures var c' := Next(cfg, c, step);
      id in c'.nodes && c'.nodes[id].commitIndex <= c'.nodes[id].lastApplied
  {
    hide Emit, Merge, Committable, UpToDate, Enough;
  }

  /** After every run the applied index of every node has reached its commit index. */
  lemma {:induction false} AppliedKeepsUp(cfg: Config, run: seq<Step>, p: nat, id: Id)
    requires id in cfg.servers && p <= |run|
    ensures At(cfg, run, p, id).commitIndex <= At(cfg, run, p, id).lastApplied
    decreases p
  {
    hide Exec, Next, At;
    if p == 0 {
      AtStart(cfg, run, id);
    } else {
      AppliedKeepsUp(cfg, run, p - 1, id);
      OneMore(cfg, run, p - 1, id);
      StepKeepsUp(cfg, Exec(cfg, run[..p - 1]), run[p - 1], id);
    }
  }
}
