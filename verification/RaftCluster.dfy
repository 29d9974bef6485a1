/** A cluster of Raft nodes as a step system. The network is the set of all messages ever sent:
    any of them may be delivered at any time, in any order, repeatedly or never. */
module RaftCluster {
  import opened RaftNode

  /** `keepVote` is false for the code as written. */
  datatype Config = Config(servers: set<Id>, keepVote: bool)

  predicate ValidConfig(cfg: Config) {
    NoVote !in cfg.servers
  }

  /** A vote request goes to all peers. A reply carries, beside the answer, what the sender of
      the request remembers about it: its term and the last index it covered. */
  datatype Message =
    | VoteRequest(vote: VoteArgs)
    | VoteReply(from: Id, dest: Id, reqTerm: nat, voted: VoteResult)
    | AppendRequest(dest: Id, append: AppendArgs)
    | AppendReply(from: Id, dest: Id, reqTerm: nat, covered: nat, appended: AppendResult)

  datatype Cluster = Cluster(nodes: map<Id, Node>, msgs: set<Message>)

  datatype Step =
    | Timeout(id: Id)
    | Deliver(id: Id, msg: Message, room: set<nat>)
    | ClientPropose(id: Id, command: string)
    | SendAppend(id: Id, peer: Id)

  function Init(cfg: Config): Cluster {
    Cluster(map id | id in cfg.servers :: NewNode(id, cfg.servers - {id}), {})
  }

  /** Who may receive a message. */
  predicate Addressed(msg: Message, n: Node) {
    match msg
    case VoteRequest(req) => req.candidate in n.peers
    case VoteReply(_, dest, _, _) => dest == n.id
    case AppendRequest(dest, _) => dest == n.id
    case AppendReply(_, dest, _, _, _) => dest == n.id
  }

  /** What a node becomes on receiving a message, and what it answers. */
  function Receive(n: Node, msg: Message, keepVote: bool, room: set<nat>): (Node, set<Message>) {
    match msg
    case VoteRequest(req) =>
      var (n', r) := HandleRequestVote(n, req, keepVote);
      (n', {VoteReply(n.id, req.candidate, req.term, r)})
    case VoteReply(from, _, reqTerm, r) =>
      (HandleVoteReply(n, from, reqTerm, r, keepVote), {})
    case AppendRequest(_, req) =>
      var (n', r) := HandleAppendEntries(n, req, keepVote, room);
      (n', {AppendReply(n.id, req.leader, req.term, req.prevIndex + |req.entries|, r)})
    case AppendReply(from, _, reqTerm, covered, r) =>
      (HandleAppendReply(n, from, reqTerm, covered, r, keepVote, room), {})
  }

  /** A step that does not apply in the current state changes nothing. */
  predicate Enabled(c: Cluster, step: Step) {
    && step.id in c.nodes
    && match step
       case Timeout(_) => true
       case Deliver(id, msg, _) => msg in c.msgs && Addressed(msg, c.nodes[id])
       case ClientPropose(_, _) => true
       case SendAppend(id, peer) => c.nodes[id].role == Leader && peer in c.nodes[id].peers
  }

  function Next(cfg: Config, c: Cluster, step: Step): Cluster {
    if !Enabled(c, step) then c
    else
      var n := c.nodes[step.id];
      match step
      case Timeout(id) =>
        var n' := StartElection(n);
        Cluster(c.nodes[id := n'], c.msgs + {VoteRequest(VoteArgsOf(n'))})
      case Deliver(id, msg, room) =>
        var (n', out) := Receive(n, msg, cfg.keepVote, room);
        Cluster(c.nodes[id := n'], c.msgs + out)
      case ClientPropose(id, command) =>
        c.(nodes := c.nodes[id := Propose(n, command)])
      case SendAppend(id, peer) =>
        c.(msgs := c.msgs + {AppendRequest(peer, AppendArgsFor(n, peer))})
  }

  /** The state after a run; every sequence of steps is a run. */
  function Exec(cfg: Config, run: seq<Step>): Cluster {
    if run == [] then Init(cfg)
    else Next(cfg, Exec(cfg, run[..|run| - 1]), run[|run| - 1])
  }
}
