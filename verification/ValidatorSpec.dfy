/** The leader-driven consensus of pkg/validator, one node at a time, as functions on
    values. It shares the consensus state of `ConsensusSpec` but not its handlers. */
module ValidatorSpec {
  import opened Common
  import opened ConsensusSpec

  /** `processed` is the set of deduplication keys; `inbox` the message channel. */
  datatype Node = Node(state: NodeState, leader: PeerId, processed: set<(PeerId, BlockHash)>, inbox: seq<Packet>)

  const NEW_NODE := Node(EMPTY_STATE, "", {}, [])

  /** The new node and the packets broadcast. */
  datatype Effect = Effect(node: Node, sent: seq<Packet>)

  /** Here a proposal is signed over hash and data, and a finalization is signed. */
  function SignedProposal(proposer: PeerId, hash: BlockHash, data: Bytes): Packet {
    Packet(Proposal, proposer, "", hash, data, Signed(proposer, hash + data))
  }

  function SignedFinalization(finalizer: PeerId, hash: BlockHash): Packet {
    Packet(Finalization, "", finalizer, hash, [], Signed(finalizer, hash))
  }

  predicate VerifySignature(cfg: Config, p: Packet) {
    match p.ptype
    case Proposal => p.proposer in cfg.validators && Verifies(p.proposer, p.hash + p.data, p.signature)
    case Approval => p.validator in cfg.validators && Verifies(p.validator, p.hash, p.signature)
    case Finalization => p.validator in cfg.validators && Verifies(p.validator, p.hash, p.signature)
    case OtherType(_) => false
  }

  /** The network listener: verify, drop repetitions, queue. */
  function Receive(cfg: Config, n: Node, p: Packet): Node {
    var key := (p.validator, p.hash);
    if !VerifySignature(cfg, p) || key in n.processed then n
    else n.(processed := n.processed + {key}, inbox := n.inbox + [p])
  }

  /** Nothing is recorded when the approval cannot be signed or sent. */
  function ApproveProposal(self: PeerId, s: NodeState, hash: BlockHash, io: Io): (NodeState, seq<Packet>) {
    var p := ApprovalPacket(self, hash);
    if !io.signed || !io.approvalSent then (s, [])
    else (AddApproval(s, p, io.approvalStored).0, [p])
  }

  function FinalizeBlock(self: PeerId, s: NodeState, hash: BlockHash, io: Io): (NodeState, seq<Packet>) {
    if !io.signed || !io.finalSent then (s, [])
    else (MarkFinalized(s, hash), [SignedFinalization(self, hash)])
  }

  /** Only the node this node takes as leader can propose. */
  function HandleProposal(cfg: Config, self: PeerId, leader: PeerId, s: NodeState, p: Packet, io: Io): (NodeState, seq<Packet>) {
    if p.proposer != leader then (s, [])
    else
      var (s1, ok) := AddProposal(s, p, io.proposalStored);
      if ok && self in cfg.validators then ApproveProposal(self, s1, p.hash, io) else (s1, [])
  }

  /** Only a node that takes itself as leader looks for a quorum. */
  function HandleApproval(cfg: Config, self: PeerId, leader: PeerId, s: NodeState, p: Packet, io: Io): (NodeState, seq<Packet>) {
    var (s1, ok) := AddApproval(s, p, io.approvalStored);
    if ok && self == leader && HasReachedQuorum(s1, p.hash, cfg.quorum) && p.hash !in s1.finalized then
      FinalizeBlock(self, s1, p.hash, io)
    else (s1, [])
  }

  function Handle(cfg: Config, self: PeerId, leader: PeerId, s: NodeState, p: Packet, io: Io): (NodeState, seq<Packet>) {
    match p.ptype
    case Proposal => HandleProposal(cfg, self, leader, s, p, io)
    case Approval => HandleApproval(cfg, self, leader, s, p, io)
    case Finalization => (MarkFinalized(s, p.hash), [])
    case OtherType(_) => (s, [])
  }

  /** The message processor takes the oldest queued packet. */
  function Process(cfg: Config, self: PeerId, n: Node, io: Io): Effect {
    if n.inbox == [] then Effect(n, [])
    else
      var (s, sent) := Handle(cfg, self, n.leader, n.state, n.inbox[0], io);
      Effect(n.(state := s, inbox := n.inbox[1..]), sent)
  }

  /** Any node can propose; nothing checks that it is the leader. */
  function ProposeBlock(self: PeerId, n: Node, hash: BlockHash, data: Bytes, io: Io): Effect {
    if !io.signed || !io.proposalSent then Effect(n, [])
    else
      var p := SignedProposal(self, hash, data);
      Effect(n.(state := AddProposal(n.state, p, io.proposalStored).0), [p])
  }
}
