/** What each handler of the SHPoNU protocol does to one node, as functions on
    values. The classes in `ConsensusNode` are proved against these functions, and
    the runs of a whole network are built from them. */
module ConsensusSpec {
  import opened Common

  type PeerId = string
  type BlockHash = Bytes

  datatype PacketType = Proposal | Approval | Finalization | OtherType(code: byte)

  /** Signing is ideal: `Signed(p, h)` is the one signature that verifies for peer
      `p` over hash `h`, and only `p` can make it. */
  datatype Signature = NoSignature | Signed(signer: PeerId, over: BlockHash) | Garbage(bytes: Bytes)

  datatype Packet = Packet(ptype: PacketType, proposer: PeerId, validator: PeerId,
                           hash: BlockHash, data: Bytes, signature: Signature)

  function ProposalPacket(leader: PeerId, hash: BlockHash, data: Bytes): Packet {
    Packet(Proposal, leader, "", hash, data, Signed(leader, hash))
  }

  function ApprovalPacket(approver: PeerId, hash: BlockHash): Packet {
    Packet(Approval, "", approver, hash, [], Signed(approver, hash))
  }

  /** A finalization carries no signature. */
  function FinalizationPacket(hash: BlockHash): Packet {
    Packet(Finalization, "", "", hash, [], NoSignature)
  }

  predicate Verifies(p: PeerId, hash: BlockHash, signature: Signature) {
    signature == Signed(p, hash)
  }

  /** The fixed surroundings of a run: the validator set and the cached threshold. */
  datatype Config = Config(validators: set<PeerId>, quorum: int)

  /** The default threshold of a set of `n` validators. */
  function DefaultQuorum(n: nat): nat { (2 * n) / 3 + 1 }

  datatype NodeState = NodeState(proposals: map<BlockHash, Packet>,
                                 approvals: map<BlockHash, map<PeerId, Signature>>,
                                 finalized: set<BlockHash>)

  const EMPTY_STATE := NodeState(map[], map[], {})

  /** Which of the fallible outside operations of one handler call succeed: the
      signer, the storage writes, the broadcasts and the block finalizer. */
  datatype Io = Io(signed: bool, proposalStored: bool, approvalStored: bool, finalStored: bool,
                   proposalSent: bool, approvalSent: bool, finalSent: bool, finalizerOk: bool)

  const ALL_OK := Io(true, true, true, true, true, true, true, true)

  /** The new state, the packets broadcast in order, the approval signatures made
      (approver and hash), and whether the call returned no error. */
  datatype Outcome = Outcome(state: NodeState, sent: seq<Packet>,
                             approved: set<(PeerId, BlockHash)>, ok: bool)

  function Unchanged(s: NodeState, ok: bool): Outcome { Outcome(s, [], {}, ok) }

  function ApprovalsFor(s: NodeState, hash: BlockHash): map<PeerId, Signature> {
    Get(s.approvals, hash, map[])
  }

  predicate HasReachedQuorum(s: NodeState, hash: BlockHash, quorum: int) {
    |ApprovalsFor(s, hash)| >= quorum
  }

  /** The in-memory proposal is kept even when it could not be persisted. */
  function AddProposal(s: NodeState, p: Packet, stored: bool): (NodeState, bool) {
    if !p.ptype.Proposal? then (s, false)
    else (s.(proposals := s.proposals[p.hash := p]), stored)
  }

  /** A second approval by one validator changes nothing and is no error. */
  function AddApproval(s: NodeState, p: Packet, stored: bool): (NodeState, bool) {
    if !p.ptype.Approval? then (s, false)
    else if p.validator in ApprovalsFor(s, p.hash) then (s, true)
    else (s.(approvals := s.approvals[p.hash := ApprovalsFor(s, p.hash)[p.validator := p.signature]]), stored)
  }

  function MarkFinalized(s: NodeState, hash: BlockHash): NodeState {
    s.(finalized := s.finalized + {hash})
  }

  function FinalizeBlock(cfg: Config, s: NodeState, hash: BlockHash, io: Io): Outcome {
    if hash in s.finalized then Unchanged(s, true)
    else if !HasReachedQuorum(s, hash, cfg.quorum) then Unchanged(s, false)
    else if !io.finalStored then Unchanged(MarkFinalized(s, hash), false)
    else if !io.finalSent then Unchanged(MarkFinalized(s, hash), false)
    else Outcome(MarkFinalized(s, hash), [FinalizationPacket(hash)], {}, true)
  }

  /** The quorum check that follows a recorded approval; its error is only logged. */
  function FinalizeIfQuorum(cfg: Config, s: NodeState, hash: BlockHash, io: Io): Outcome {
    if HasReachedQuorum(s, hash, cfg.quorum) then FinalizeBlock(cfg, s, hash, io).(ok := true)
    else Unchanged(s, true)
  }

  function ProposeBlock(cfg: Config, s: NodeState, leader: PeerId, hash: BlockHash, data: Bytes, io: Io): Outcome {
    if leader !in cfg.validators || !io.signed then Unchanged(s, false)
    else
      var p := ProposalPacket(leader, hash, data);
      var (s1, ok) := AddProposal(s, p, io.proposalStored);
      if !ok || !io.proposalSent then Unchanged(s1, false)
      else Outcome(s1, [p], {}, true)
  }

  function ApproveProposal(cfg: Config, s: NodeState, hash: BlockHash, approver: PeerId, io: Io): Outcome {
    if approver !in cfg.validators || !io.signed then Unchanged(s, false)
    else
      var p := ApprovalPacket(approver, hash);
      var (s1, ok) := AddApproval(s, p, io.approvalStored);
      if !ok || !io.approvalSent then Outcome(s1, [], {(approver, hash)}, false)
      else
        var f := FinalizeIfQuorum(cfg, s1, hash, io);
        Outcome(f.state, [p] + f.sent, {(approver, hash)}, true)
  }

  function HandleProposal(cfg: Config, self: PeerId, s: NodeState, p: Packet, io: Io): Outcome {
    if p.hash in s.proposals || p.proposer !in cfg.validators || !Verifies(p.proposer, p.hash, p.signature) then
      Unchanged(s, false)
    else
      var (s1, ok) := AddProposal(s, p, io.proposalStored);
      if !ok then Unchanged(s1, false)
      else if self in cfg.validators && self != p.proposer then ApproveProposal(cfg, s1, p.hash, self, io)
      else Unchanged(s1, true)
  }

  function HandleApproval(cfg: Config, s: NodeState, p: Packet, io: Io): Outcome {
    if p.validator !in cfg.validators || !Verifies(p.validator, p.hash, p.signature) then
      Unchanged(s, false)
    else
      var (s1, ok) := AddApproval(s, p, io.approvalStored);
      if !ok then Unchanged(s1, false)
      else FinalizeIfQuorum(cfg, s1, p.hash, io)
  }

  /** Accepts any finalization: there is no signature and no quorum check here. */
  function HandleFinalization(s: NodeState, p: Packet, io: Io): Outcome {
    if p.hash in s.finalized then Unchanged(s, true)
    else if !io.finalStored || !io.finalizerOk || !io.finalSent then Unchanged(MarkFinalized(s, p.hash), false)
    else Outcome(MarkFinalized(s, p.hash), [FinalizationPacket(p.hash)], {}, true)
  }

  function HandleMessage(cfg: Config, self: PeerId, s: NodeState, p: Packet, io: Io): Outcome {
    match p.ptype
    case Proposal => HandleProposal(cfg, self, s, p, io)
    case Approval => HandleApproval(cfg, s, p, io)
    case Finalization => HandleFinalization(s, p, io)
    case OtherType(_) => Unchanged(s, false)
  }
}
