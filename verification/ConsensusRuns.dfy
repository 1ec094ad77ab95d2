/** Runs of a whole network of protocol nodes: any node may act on its own, any
    packet ever broadcast may be delivered to any node, in any order and any number
    of times, and faulty parties may put packets of their own on the wire. */
module ConsensusRuns {
  import opened Common
  import opened ConsensusSpec

  /** `proposed` and `approved` record who signed which hash in which role;
      `injected` are the packets that no node of the model broadcast. */
  datatype World = World(nodes: map<PeerId, NodeState>, sent: seq<Packet>,
                         proposed: set<(PeerId, BlockHash)>, approved: set<(PeerId, BlockHash)>,
                         injected: set<Packet>)

  datatype Step =
    | Propose(node: PeerId, leader: PeerId, hash: BlockHash, data: Bytes, io: Io)
    | Approve(node: PeerId, approver: PeerId, hash: BlockHash, io: Io)
    | Finalize(node: PeerId, hash: BlockHash, io: Io)
    | Deliver(node: PeerId, index: nat, io: Io)
    | Inject(packet: Packet)

  function Initial(peers: set<PeerId>): World {
    World(map p | p in peers :: EMPTY_STATE, [], {}, {}, {})
  }

  function Apply(w: World, node: PeerId, o: Outcome): World
    requires node in w.nodes
  {
    w.(nodes := w.nodes[node := o.state], sent := w.sent + o.sent, approved := w.approved + o.approved)
  }

  /** A step at a node that does not exist, or of a packet that was never sent, does
      nothing. */
  function Next(cfg: Config, w: World, step: Step): World {
    match step
    case Propose(x, leader, hash, data, io) =>
      if x !in w.nodes then w
      else
        var w1 := Apply(w, x, ProposeBlock(cfg, w.nodes[x], leader, hash, data, io));
        if leader in cfg.validators && io.signed then w1.(proposed := w1.proposed + {(leader, hash)}) else w1
    case Approve(x, approver, hash, io) =>
      if x !in w.nodes then w else Apply(w, x, ApproveProposal(cfg, w.nodes[x], hash, approver, io))
    case Finalize(x, hash, io) =>
      if x !in w.nodes then w else Apply(w, x, FinalizeBlock(cfg, w.nodes[x], hash, io))
    case Deliver(x, i, io) =>
      if x !in w.nodes || i >= |w.sent| then w
      else Apply(w, x, HandleMessage(cfg, x, w.nodes[x], w.sent[i], io))
    case Inject(p) =>
      w.(sent := w.sent + [p], injected := w.injected + {p})
  }

  function Run(cfg: Config, w: World, steps: seq<Step>): World
    decreases |steps|
  {
    if steps == [] then w
    else Next(cfg, Run(cfg, w, steps[..|steps| - 1]), steps[|steps| - 1])
  }

  /** The world after the first `i` steps. */
  function At(cfg: Config, w: World, steps: seq<Step>, i: nat): World
    requires i <= |steps|
  {
    Run(cfg, w, steps[..i])
  }

  // ---------------------------------------------------------------------------
  // What a finalized hash rests on

  predicate IsApprovalOf(p: Packet, v: PeerId, hash: BlockHash) {
    p.ptype.Approval? && p.validator == v && p.hash == hash && Verifies(v, hash, p.signature)
  }

  /** Validator `v` stands behind `hash`: it approved it at some node, or a valid
      approval in its name was injected. */
  ghost predicate Backs(w: World, v: PeerId, hash: BlockHash) {
    (v, hash) in w.approved || exists p :: p in w.injected && IsApprovalOf(p, v, hash)
  }

  ghost function Backers(cfg: Config, w: World, hash: BlockHash): set<PeerId> {
    set v | v in cfg.validators && Backs(w, v, hash)
  }

  ghost predicate Certified(cfg: Config, w: World, hash: BlockHash) {
    |Backers(cfg, w, hash)| >= cfg.quorum
  }

  ghost predicate FinalizationInjected(w: World, hash: BlockHash) {
    exists p :: p in w.injected && p.ptype.Finalization? && p.hash == hash
  }

  /** Finalizations rest on a certificate or on an injected finalization. */
  ghost predicate Founded(cfg: Config, w: World, hash: BlockHash) {
    Certified(cfg, w, hash) || FinalizationInjected(w, hash)
  }

  ghost predicate ApprovalsBacked(cfg: Config, w: World, s: NodeState) {
    forall h, v :: h in s.approvals && v in s.approvals[h] ==> v in cfg.validators && Backs(w, v, h)
  }

  ghost predicate PacketBacked(cfg: Config, w: World, p: Packet) {
    && (p.ptype.Approval? && p.validator in cfg.validators && Verifies(p.validator, p.hash, p.signature) ==>
          Backs(w, p.validator, p.hash))
    && (p.ptype.Finalization? ==> Founded(cfg, w, p.hash))
  }

  ghost predicate FinalizedFounded(cfg: Config, w: World, s: NodeState) {
    forall h :: h in s.finalized ==> Founded(cfg, w, h)
  }

  ghost predicate Sound(cfg: Config, w: World) {
    && (forall x :: x in w.nodes ==> ApprovalsBacked(cfg, w, w.nodes[x]) && FinalizedFounded(cfg, w, w.nodes[x]))
    && (forall p :: p in w.sent ==> PacketBacked(cfg, w, p))
  }

  /** What was signed and injected only grows. */
  predicate Grows(w: World, w': World) {
    w.approved <= w'.approved && w.injected <= w'.injected && w.proposed <= w'.proposed
  }

  lemma CertificatesPersist(cfg: Config, w: World, w': World, hash: BlockHash)
    requires Grows(w, w')
    ensures forall v :: Backs(w, v, hash) ==> Backs(w', v, hash)
    ensures Certified(cfg, w, hash) ==> Certified(cfg, w', hash)
    ensures Founded(cfg, w, hash) ==> Founded(cfg, w', hash)
  {
    SubsetSize(Backers(cfg, w, hash), Backers(cfg, w', hash));
  }

  /** A quorum at one node is a quorum of backers. */
  lemma QuorumCertifies(cfg: Config, w: World, s: NodeState, hash: BlockHash)
    requires ApprovalsBacked(cfg, w, s) && HasReachedQuorum(s, hash, cfg.quorum)
    requires cfg.quorum >= 1
    ensures Certified(cfg, w, hash)
  {
    var approvers := ApprovalsFor(s, hash).Keys;
    assert approvers <= Backers(cfg, w, hash);
    SubsetSize(approvers, Backers(cfg, w, hash));
  }

  /** The state and packets a handler leaves, judged in the world it leads to. */
  ghost predicate OutcomeSound(cfg: Config, w: World, o: Outcome) {
    && ApprovalsBacked(cfg, w, o.state) && FinalizedFounded(cfg, w, o.state)
    && forall p :: p in o.sent ==> PacketBacked(cfg, w, p)
  }

  lemma FinalizeBlockSound(cfg: Config, w: World, s: NodeState, hash: BlockHash, io: Io)
    requires cfg.quorum >= 1
    requires ApprovalsBacked(cfg, w, s) && FinalizedFounded(cfg, w, s)
    ensures OutcomeSound(cfg, w, FinalizeBlock(cfg, s, hash, io))
    ensures OutcomeSound(cfg, w, FinalizeIfQuorum(cfg, s, hash, io))
  {
    if HasReachedQuorum(s, hash, cfg.quorum) {
      QuorumCertifies(cfg, w, s, hash);
    }
  }

  lemma AddApprovalSound(cfg: Config, w: World, s: NodeState, p: Packet, stored: bool)
    requires ApprovalsBacked(cfg, w, s) && FinalizedFounded(cfg, w, s)
    requires p.validator in cfg.validators && Backs(w, p.validator, p.hash)
    ensures var (s1, ok) := AddApproval(s, p, stored);
            ApprovalsBacked(cfg, w, s1) && FinalizedFounded(cfg, w, s1)
  {
  }

  lemma ApproveProposalSound(cfg: Config, w: World, s: NodeState, hash: BlockHash, approver: PeerId, io: Io)
    requires cfg.quorum >= 1
    requires ApprovalsBacked(cfg, w, s) && FinalizedFounded(cfg, w, s)
    requires ApproveProposal(cfg, s, hash, approver, io).approved <= w.approved
    ensures OutcomeSound(cfg, w, ApproveProposal(cfg, s, hash, approver, io))
  {
    if approver in cfg.validators && io.signed {
      var (s1, ok) := AddApproval(s, ApprovalPacket(approver, hash), io.approvalStored);
      assert (approver, hash) in ApproveProposal(cfg, s, hash, approver, io).approved;
      AddApprovalSound(cfg, w, s, ApprovalPacket(approver, hash), io.approvalStored);
      FinalizeBlockSound(cfg, w, s1, hash, io);
    }
  }

  lemma HandleApprovalSound(cfg: Config, w: World, s: NodeState, p: Packet, io: Io)
    requires cfg.quorum >= 1
    requires ApprovalsBacked(cfg, w, s) && FinalizedFounded(cfg, w, s) && PacketBacked(cfg, w, p)
    ensures OutcomeSound(cfg, w, HandleApproval(cfg, s, p, io))
  {
    if p.ptype.Approval? && p.validator in cfg.validators && Verifies(p.validator, p.hash, p.signature) {
      AddApprovalSound(cfg, w, s, p, io.approvalStored);
      FinalizeBlockSound(cfg, w, AddApproval(s, p, io.approvalStored).0, p.hash, io);
    }
  }

  lemma HandleProposalSound(cfg: Config, w: World, x: PeerId, s: NodeState, p: Packet, io: Io)
    requires cfg.quorum >= 1
    requires ApprovalsBacked(cfg, w, s) && FinalizedFounded(cfg, w, s)
    requires HandleProposal(cfg, x, s, p, io).approved <= w.approved
    ensures OutcomeSound(cfg, w, HandleProposal(cfg, x, s, p, io))
  {
    var (s1, ok) := AddProposal(s, p, io.proposalStored);
    assert s1.approvals == s.approvals && s1.finalized == s.finalized;
    var approved := ApproveProposal(cfg, s1, p.hash, x, io);
    if HandleProposal(cfg, x, s, p, io) == approved {
      ApproveProposalSound(cfg, w, s1, p.hash, x, io);
    }
  }

  lemma HandleMessageSound(cfg: Config, w: World, x: PeerId, s: NodeState, p: Packet, io: Io)
    requires cfg.quorum >= 1
    requires ApprovalsBacked(cfg, w, s) && FinalizedFounded(cfg, w, s) && PacketBacked(cfg, w, p)
    requires HandleMessage(cfg, x, s, p, io).approved <= w.approved
    ensures OutcomeSound(cfg, w, HandleMessage(cfg, x, s, p, io))
  {
    match p.ptype
    case Proposal => HandleProposalSound(cfg, w, x, s, p, io);
    case Approval => HandleApprovalSound(cfg, w, s, p, io);
    case Finalization =>
    case OtherType(_) =>
  }

  /** Moving to a world where more was signed or injected keeps every fact. */
  lemma SoundPersists(cfg: Config, w: World, w': World)
    requires Sound(cfg, w) && Grows(w, w')
    ensures forall x :: x in w.nodes ==> ApprovalsBacked(cfg, w', w.nodes[x]) && FinalizedFounded(cfg, w', w.nodes[x])
    ensures forall p :: p in w.sent ==> PacketBacked(cfg, w', p)
  {
    forall x | x in w.nodes
      ensures ApprovalsBacked(cfg, w', w.nodes[x]) && FinalizedFounded(cfg, w', w.nodes[x])
    {
      forall h | h in w.nodes[x].finalized ensures Founded(cfg, w', h) {
        CertificatesPersist(cfg, w, w', h);
      }
      forall h, v | h in w.nodes[x].approvals && v in w.nodes[x].approvals[h] ensures Backs(w', v, h) {
        assert Backs(w, v, h);
        CertificatesPersist(cfg, w, w', h);
      }
    }
    forall p | p in w.sent ensures PacketBacked(cfg, w', p) {
      CertificatesPersist(cfg, w, w', p.hash);
    }
  }

  lemma NextSound(cfg: Config, w: World, step: Step)
    requires cfg.quorum >= 1 && Sound(cfg, w)
    ensures Sound(cfg, Next(cfg, w, step)) && Grows(w, Next(cfg, w, step))
  {
    var w' := Next(cfg, w, step);
    SoundPersists(cfg, w, w');
    match step
    case Propose(x, leader, hash, data, io) =>
    case Approve(x, approver, hash, io) =>
      if x in w.nodes { ApproveProposalSound(cfg, w', w.nodes[x], hash, approver, io); }
    case Finalize(x, hash, io) =>
      if x in w.nodes { FinalizeBlockSound(cfg, w', w.nodes[x], hash, io); }
    case Deliver(x, i, io) =>
      if x in w.nodes && i < |w.sent| { HandleMessageSound(cfg, w', x, w.nodes[x], w.sent[i], io); }
    case Inject(p) =>
      assert p in w'.injected;
  }

  lemma {:induction false} RunSound(cfg: Config, peers: set<PeerId>, steps: seq<Step>)
    requires cfg.quorum >= 1
    ensures Sound(cfg, Run(cfg, Initial(peers), steps))
    decreases |steps|
  {
    if steps != [] {
      RunSound(cfg, peers, steps[..|steps| - 1]);
      NextSound(cfg, Run(cfg, Initial(peers), steps[..|steps| - 1]), steps[|steps| - 1]);
    }
  }
}
