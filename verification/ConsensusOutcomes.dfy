/** What one call of the quorum protocol sends, records and reports, in every case. */
module ConsensusOutcomes {
  import opened Common
  import opened ConsensusSpec

  /** The packet is a proposal of this block, data included, signed by its proposer. */
  predicate IsProposal(p: Packet, leader: PeerId, hash: BlockHash, data: Bytes) {
    && p.ptype == Proposal && p.proposer == leader && p.hash == hash && p.data == data
    && Verifies(leader, hash, p.signature)
  }

  predicate IsApproval(p: Packet, approver: PeerId, hash: BlockHash) {
    p.ptype == Approval && p.validator == approver && p.hash == hash && p.data == [] && Verifies(approver, hash, p.signature)
  }

  predicate IsFinalization(p: Packet, hash: BlockHash) {
    p.ptype == Finalization && p.hash == hash && p.data == [] && p.signature == NoSignature
  }

  /** ProposeBlock returns no error exactly when the leader is a validator and signing,
      storing and sending all work; then the block is sent with its data and kept, and
      nothing else happens to the node. */
  lemma ProposeExactly(cfg: Config, s: NodeState, leader: PeerId, hash: BlockHash, data: Bytes, io: Io)
    ensures var o := ProposeBlock(cfg, s, leader, hash, data, io);
            && (o.ok <==> leader in cfg.validators && io.signed && io.proposalStored && io.proposalSent)
            && (if o.ok then |o.sent| == 1 && IsProposal(o.sent[0], leader, hash, data) else o.sent == [])
            && o.approved == {} && o.state.approvals == s.approvals && o.state.finalized == s.finalized
            && (forall h :: h != hash ==> (h in o.state.proposals <==> h in s.proposals) &&
                                          (h in s.proposals ==> o.state.proposals[h] == s.proposals[h]))
            && (if leader in cfg.validators && io.signed
                then hash in o.state.proposals && IsProposal(o.state.proposals[hash], leader, hash, data)
                else o.state == s)
  {
  }

  /** FinalizeBlock returns no error exactly when the hash was final, or a quorum stood and
      storing and sending worked; the hash becomes final on a quorum alone. */
  lemma FinalizeExactly(cfg: Config, s: NodeState, hash: BlockHash, io: Io)
    ensures var o := FinalizeBlock(cfg, s, hash, io);
            var quorum := |ApprovalsFor(s, hash)| >= cfg.quorum;
            && (o.ok <==> hash in s.finalized || (quorum && io.finalStored && io.finalSent))
            && (hash in o.state.finalized <==> hash in s.finalized || quorum)
            && (forall h :: h != hash ==> (h in o.state.finalized <==> h in s.finalized))
            && o.state.proposals == s.proposals && o.state.approvals == s.approvals && o.approved == {}
            && (if hash !in s.finalized && quorum && io.finalStored && io.finalSent
                then |o.sent| == 1 && IsFinalization(o.sent[0], hash) else o.sent == [])
  {
  }

  function ApproversOf(s: NodeState, hash: BlockHash): set<PeerId> { ApprovalsFor(s, hash).Keys }

  /** The quorum is looked at with this approver included. */
  predicate Completes(cfg: Config, s: NodeState, hash: BlockHash, approver: PeerId) {
    |ApproversOf(s, hash) + {approver}| >= cfg.quorum
  }

  /** Recording an approval adds its validator to the hash and touches nothing else. */
  lemma AddExactly(s: NodeState, p: Packet, stored: bool)
    requires p.ptype.Approval?
    ensures var (s1, ok) := AddApproval(s, p, stored);
            && (ok <==> stored || p.validator in ApproversOf(s, p.hash))
            && ApproversOf(s1, p.hash) == ApproversOf(s, p.hash) + {p.validator}
            && |ApprovalsFor(s1, p.hash)| == |ApproversOf(s, p.hash) + {p.validator}|
            && (forall h :: h != p.hash ==> ApprovalsFor(s1, h) == ApprovalsFor(s, h))
            && s1.finalized == s.finalized && s1.proposals == s.proposals
  {
    var s1 := AddApproval(s, p, stored).0;
    assert ApproversOf(s1, p.hash) == ApproversOf(s, p.hash) + {p.validator};
    assert |ApprovalsFor(s1, p.hash)| == |ApproversOf(s1, p.hash)|;
  }

  /** Looking at the quorum of a hash. */
  lemma FinalizeIfQuorumExactly(cfg: Config, s: NodeState, hash: BlockHash, io: Io)
    ensures var o := FinalizeIfQuorum(cfg, s, hash, io);
            var quorum := |ApprovalsFor(s, hash)| >= cfg.quorum;
            && o.state.approvals == s.approvals && o.state.proposals == s.proposals
            && o.state.finalized == s.finalized + (if quorum then {hash} else {})
            && (if quorum && hash !in s.finalized && io.finalStored && io.finalSent
                then |o.sent| == 1 && IsFinalization(o.sent[0], hash) else o.sent == [])
  {
    FinalizeExactly(cfg, s, hash, io);
    if hash in s.finalized {
      assert s.finalized + {hash} == s.finalized;
    }
  }

  /** ApproveProposal returns no error exactly when the approver is a validator, signing and
      sending work, and the approval is stored or repeated. */
  predicate Approves(cfg: Config, s: NodeState, hash: BlockHash, approver: PeerId, io: Io) {
    && approver in cfg.validators && io.signed && io.approvalSent
    && (io.approvalStored || approver in ApproversOf(s, hash))
  }

  lemma ApproveReports(cfg: Config, s: NodeState, hash: BlockHash, approver: PeerId, io: Io)
    ensures ApproveProposal(cfg, s, hash, approver, io).ok <==> Approves(cfg, s, hash, approver, io)
  {
    AddExactly(s, ApprovalPacket(approver, hash), io.approvalStored);
  }

  lemma ApproveAdds(cfg: Config, s: NodeState, hash: BlockHash, approver: PeerId, io: Io)
    ensures ApproveProposal(cfg, s, hash, approver, io).state.approvals ==
            if approver in cfg.validators && io.signed then AddApproval(s, ApprovalPacket(approver, hash), true).0.approvals
            else s.approvals
  {
  }

  lemma ApproveKeeps(cfg: Config, s: NodeState, hash: BlockHash, approver: PeerId, io: Io)
    ensures var o := ApproveProposal(cfg, s, hash, approver, io);
            o.state.proposals == s.proposals &&
            o.approved == (if approver in cfg.validators && io.signed then {(approver, hash)} else {})
  {
  }

  lemma SameApprovals(s: NodeState, t: NodeState)
    requires s.approvals == t.approvals
    ensures forall h :: ApprovalsFor(s, h) == ApprovalsFor(t, h)
  {
  }

  /** What it records: the approval, as soon as it is signed. */
  lemma ApproveRecords(cfg: Config, s: NodeState, hash: BlockHash, approver: PeerId, io: Io)
    ensures var o := ApproveProposal(cfg, s, hash, approver, io);
            var signs := approver in cfg.validators && io.signed;
            && ApproversOf(o.state, hash) == ApproversOf(s, hash) + (if signs then {approver} else {})
            && (forall h :: h != hash ==> ApprovalsFor(o.state, h) == ApprovalsFor(s, h))
            && o.state.proposals == s.proposals && o.approved == (if signs then {(approver, hash)} else {})
  {
    var p := ApprovalPacket(approver, hash);
    var s', t := ApproveProposal(cfg, s, hash, approver, io).state, AddApproval(s, p, true).0;
    ApproveAdds(cfg, s, hash, approver, io);
    ApproveKeeps(cfg, s, hash, approver, io);
    AddExactly(s, p, true);
    if approver in cfg.validators && io.signed {
      SameApprovals(s', t);
    } else {
      SameApprovals(s', s);
    }
  }

  /** On a quorum the hash is final. */
  lemma ApproveFinalizes(cfg: Config, s: NodeState, hash: BlockHash, approver: PeerId, io: Io)
    ensures var completes := Approves(cfg, s, hash, approver, io) && Completes(cfg, s, hash, approver);
            ApproveProposal(cfg, s, hash, approver, io).state.finalized ==
            s.finalized + if completes then {hash} else {}
  {
    var p := ApprovalPacket(approver, hash);
    AddExactly(s, p, io.approvalStored);
    FinalizeIfQuorumExactly(cfg, AddApproval(s, p, io.approvalStored).0, hash, io);
  }

  /** What it sends: the approval, followed by a finalization if it completes a quorum of a
      hash that is not final. */
  lemma ApproveSends(cfg: Config, s: NodeState, hash: BlockHash, approver: PeerId, io: Io)
    ensures var sent := ApproveProposal(cfg, s, hash, approver, io).sent;
            var more := Completes(cfg, s, hash, approver) && hash !in s.finalized && io.finalStored && io.finalSent;
            if !Approves(cfg, s, hash, approver, io) then sent == []
            else
              && |sent| == (if more then 2 else 1) && IsApproval(sent[0], approver, hash)
              && (more ==> IsFinalization(sent[1], hash))
  {
    var p := ApprovalPacket(approver, hash);
    AddExactly(s, p, io.approvalStored);
    FinalizeIfQuorumExactly(cfg, AddApproval(s, p, io.approvalStored).0, hash, io);
  }

  /** A packet of a validator that signed its hash. */
  predicate IsGenuineApproval(cfg: Config, p: Packet) {
    p.validator in cfg.validators && p.signature == Signed(p.validator, p.hash)
  }

  /** It is looked at the quorum: the approval is genuine, and stored or repeated. */
  predicate Notices(cfg: Config, s: NodeState, p: Packet, io: Io) {
    && IsGenuineApproval(cfg, p) && (io.approvalStored || p.validator in ApproversOf(s, p.hash))
    && Completes(cfg, s, p.hash, p.validator)
  }

  lemma HandleApprovalKeeps(cfg: Config, s: NodeState, p: Packet, io: Io)
    requires p.ptype.Approval?
    ensures var o := HandleApproval(cfg, s, p, io);
            && o.state.approvals == (if IsGenuineApproval(cfg, p) then AddApproval(s, p, true).0.approvals else s.approvals)
            && o.state.proposals == s.proposals && o.approved == {}
  {
  }

  /** An approval is recorded exactly if it is genuine. */
  lemma HandleApprovalRecords(cfg: Config, s: NodeState, p: Packet, io: Io)
    requires p.ptype.Approval?
    ensures var o := HandleApproval(cfg, s, p, io);
            && ApproversOf(o.state, p.hash) == ApproversOf(s, p.hash) + (if IsGenuineApproval(cfg, p) then {p.validator} else {})
            && (forall h :: h != p.hash ==> ApprovalsFor(o.state, h) == ApprovalsFor(s, h))
            && o.state.proposals == s.proposals && o.approved == {}
  {
    HandleApprovalKeeps(cfg, s, p, io);
    AddExactly(s, p, true);
    SameApprovals(HandleApproval(cfg, s, p, io).state, if IsGenuineApproval(cfg, p) then AddApproval(s, p, true).0 else s);
  }

  /** It makes the hash final exactly if it completes a quorum. */
  lemma HandleApprovalFinalizes(cfg: Config, s: NodeState, p: Packet, io: Io)
    requires p.ptype.Approval?
    ensures HandleApproval(cfg, s, p, io).state.finalized == s.finalized + if Notices(cfg, s, p, io) then {p.hash} else {}
  {
    AddExactly(s, p, io.approvalStored);
    FinalizeIfQuorumExactly(cfg, AddApproval(s, p, io.approvalStored).0, p.hash, io);
  }

  /** Then the finalization is sent, once. */
  lemma HandleApprovalSends(cfg: Config, s: NodeState, p: Packet, io: Io)
    requires p.ptype.Approval?
    ensures var sent := HandleApproval(cfg, s, p, io).sent;
            if Notices(cfg, s, p, io) && p.hash !in s.finalized && io.finalStored && io.finalSent
            then |sent| == 1 && IsFinalization(sent[0], p.hash) else sent == []
  {
    AddExactly(s, p, io.approvalStored);
    FinalizeIfQuorumExactly(cfg, AddApproval(s, p, io.approvalStored).0, p.hash, io);
  }

  /** A finalization is believed at once, and passed on once. */
  lemma HandleFinalizationExactly(s: NodeState, p: Packet, io: Io)
    ensures var o := HandleFinalization(s, p, io);
            && o.state.finalized == s.finalized + {p.hash}
            && o.state.proposals == s.proposals && o.state.approvals == s.approvals && o.approved == {}
            && (if p.hash !in s.finalized && io.finalStored && io.finalizerOk && io.finalSent
                then |o.sent| == 1 && IsFinalization(o.sent[0], p.hash) else o.sent == [])
  {
  }

  /** A proposal is kept exactly if its hash is new and a validator signed it. */
  predicate Keeps(cfg: Config, s: NodeState, p: Packet) {
    p.hash !in s.proposals && p.proposer in cfg.validators && p.signature == Signed(p.proposer, p.hash)
  }

  /** A validator other than its proposer then goes on to approve it, if it could be stored. */
  predicate AutoApproves(cfg: Config, self: PeerId, s: NodeState, p: Packet, io: Io) {
    Keeps(cfg, s, p) && io.proposalStored && self in cfg.validators && self != p.proposer
  }

  lemma HandleProposalExactly(cfg: Config, self: PeerId, s: NodeState, p: Packet, io: Io)
    requires p.ptype.Proposal?
    ensures var o := HandleProposal(cfg, self, s, p, io);
            var signs := AutoApproves(cfg, self, s, p, io) && io.signed;
            && o.state.proposals == (if Keeps(cfg, s, p) then s.proposals[p.hash := p] else s.proposals)
            && ApproversOf(o.state, p.hash) == ApproversOf(s, p.hash) + (if signs then {self} else {})
            && o.approved == (if signs then {(self, p.hash)} else {})
  {
    var s1 := AddProposal(s, p, io.proposalStored).0;
    assert ApprovalsFor(s1, p.hash) == ApprovalsFor(s, p.hash);
    ApproveRecords(cfg, s1, p.hash, self, io);
  }

  lemma HandleProposalFinalizes(cfg: Config, self: PeerId, s: NodeState, p: Packet, io: Io)
    requires p.ptype.Proposal?
    ensures var sends := AutoApproves(cfg, self, s, p, io) && Approves(cfg, s, p.hash, self, io);
            HandleProposal(cfg, self, s, p, io).state.finalized ==
            s.finalized + if sends && Completes(cfg, s, p.hash, self) then {p.hash} else {}
  {
    var s1 := AddProposal(s, p, io.proposalStored).0;
    assert ApprovalsFor(s1, p.hash) == ApprovalsFor(s, p.hash) && s1.finalized == s.finalized;
    ApproveFinalizes(cfg, s1, p.hash, self, io);
  }

  /** What it sends is its approval, if it can, and what follows from that. */
  lemma HandleProposalSends(cfg: Config, self: PeerId, s: NodeState, p: Packet, io: Io)
    requires p.ptype.Proposal?
    ensures var sent := HandleProposal(cfg, self, s, p, io).sent;
            var sends := AutoApproves(cfg, self, s, p, io) && Approves(cfg, s, p.hash, self, io);
            (sent != [] <==> sends) && (sends ==> IsApproval(sent[0], self, p.hash))
  {
    var s1 := AddProposal(s, p, io.proposalStored).0;
    assert ApprovalsFor(s1, p.hash) == ApprovalsFor(s, p.hash);
    ApproveSends(cfg, s1, p.hash, self, io);
  }
}
