/** The objects of pkg/consensus: validator set, consensus state and protocol. Each
    method is proved to do to the object exactly what the function of the same name
    in `ConsensusSpec` does to its value. */
module ConsensusNode {
  import opened Common
  import Spec = ConsensusSpec
  import opened ConsensusSpec
  import Outcomes = ConsensusOutcomes

  class ValidatorSet {
    var validators: set<PeerId>
    var leaderId: PeerId
    var quorumThreshold: int

    constructor ()
      ensures validators == {} && leaderId == "" && quorumThreshold == 0
    {
      validators, leaderId, quorumThreshold := {}, "", 0;
    }

    method AddValidator(id: PeerId)
      modifies this`validators
      ensures validators == old(validators) + {id}
    {
      validators := validators + {id};
    }

    method RemoveValidator(id: PeerId)
      modifies this`validators
      ensures validators == old(validators) - {id}
    {
      validators := validators - {id};
    }

    /** A peer that is not a validator is refused and the old leader stays. */
    method SetLeader(id: PeerId)
      modifies this`leaderId
      ensures leaderId == if id in validators then id else old(leaderId)
    {
      if id in validators {
        leaderId := id;
      }
    }

    method SetQuorumThreshold(threshold: int)
      modifies this`quorumThreshold
      ensures quorumThreshold == threshold
    {
      quorumThreshold := threshold;
    }

    /** Whatever threshold was set, a quorum needs at least one approval; two default
        quorums of n validators overlap in at least (n-1)/3 + 1 of them. */
    function QuorumSize(): (q: int)
      reads this
      ensures q >= 1
      ensures quorumThreshold <= 0 && |validators| > 0 ==>
        q <= |validators| && 2 * q - |validators| >= (|validators| - 1) / 3 + 1
    {
      if quorumThreshold > 0 then quorumThreshold else DefaultQuorum(|validators|)
    }

    predicate IsValidator(id: PeerId) reads this { id in validators }
  }

  class State {
    var proposals: map<BlockHash, Packet>
    var approvals: map<BlockHash, map<PeerId, Signature>>
    var finalized: map<BlockHash, bool>

    /** The value of the state: a hash is finalized when its entry is true. */
    ghost function Abs(): NodeState
      reads this
    {
      NodeState(proposals, approvals, set h | h in finalized && finalized[h])
    }

    constructor ()
      ensures Abs() == EMPTY_STATE
    {
      proposals, approvals, finalized := map[], map[], map[];
    }

    method AddProposal(p: Packet, stored: bool) returns (ok: bool)
      modifies this
      ensures (Abs(), ok) == Spec.AddProposal(old(Abs()), p, stored)
    {
      if !p.ptype.Proposal? {
        return false;
      }
      proposals := proposals[p.hash := p];
      return stored;
    }

    method HasProposal(hash: BlockHash) returns (found: bool)
      ensures found <==> hash in Abs().proposals
    {
      found := hash in proposals;
    }

    method AddApproval(p: Packet, stored: bool) returns (ok: bool)
      modifies this
      ensures (Abs(), ok) == Spec.AddApproval(old(Abs()), p, stored)
    {
      if !p.ptype.Approval? {
        return false;
      }
      var forBlock := map[];
      if p.hash in approvals {
        forBlock := approvals[p.hash];
      }
      if p.validator in forBlock {
        return true;
      }
      approvals := approvals[p.hash := forBlock[p.validator := p.signature]];
      return stored;
    }

    method HasReachedQuorum(hash: BlockHash, quorum: int) returns (reached: bool)
      ensures reached <==> Spec.HasReachedQuorum(Abs(), hash, quorum)
    {
      var count := 0;
      if hash in approvals {
        count := |approvals[hash]|;
      }
      reached := count >= quorum;
    }

    method FinalizeBlock(hash: BlockHash, stored: bool) returns (ok: bool)
      modifies this
      ensures Abs() == MarkFinalized(old(Abs()), hash) && ok == stored
    {
      finalized := finalized[hash := true];
      ok := stored;
    }

    method IsFinalized(hash: BlockHash) returns (yes: bool)
      ensures yes <==> hash in Abs().finalized
    {
      yes := hash in finalized && finalized[hash];
    }
  }

  class Protocol {
    const state: State
    const validators: ValidatorSet
    const self: PeerId
    const hasFinalizer: bool
    var quorumThreshold: int
    var sent: seq<Packet>

    constructor (validators: ValidatorSet, self: PeerId, hasFinalizer: bool)
      ensures fresh(state) && state.Abs() == EMPTY_STATE && sent == []
      ensures this.validators == validators && this.self == self && this.hasFinalizer == hasFinalizer
      ensures quorumThreshold == validators.QuorumSize()
    {
      this.state := new State();
      this.validators := validators;
      this.self := self;
      this.hasFinalizer := hasFinalizer;
      this.quorumThreshold := validators.QuorumSize();
      this.sent := [];
    }

    /** The threshold is the one cached when the protocol was created. */
    ghost function Cfg(): Config
      reads this, validators
    {
      Config(validators.validators, quorumThreshold)
    }

    /** This call did what outcome `o` says and nothing else. */
    ghost predicate Did(was: NodeState, sentBefore: seq<Packet>, o: Outcome)
      reads this, state
    {
      state.Abs() == o.state && sent == sentBefore + o.sent
    }

    method BroadcastMessage(p: Packet, delivered: bool) returns (ok: bool)
      modifies this`sent
      ensures sent == if delivered then old(sent) + [p] else old(sent)
      ensures ok == delivered
    {
      if delivered {
        sent := sent + [p];
      }
      ok := delivered;
    }

    method FinalizeBlock(hash: BlockHash, io: Io) returns (ok: bool)
      modifies this`sent, state
      ensures var o := Spec.FinalizeBlock(Cfg(), old(state.Abs()), hash, io);
              Did(old(state.Abs()), old(sent), o) && ok == o.ok
    {
      var done := state.IsFinalized(hash);
      if done {
        return true;
      }
      var reached := state.HasReachedQuorum(hash, quorumThreshold);
      if !reached {
        return false;
      }
      var stored := state.FinalizeBlock(hash, io.finalStored);
      if !stored {
        return false;
      }
      ok := BroadcastMessage(FinalizationPacket(hash), io.finalSent);
    }

    /** `hash` is the SHA-256 of `data`. */
    method ProposeBlock(sha: Sha, data: Bytes, io: Io) returns (ok: bool)
      modifies this`sent, state
      ensures var o := Spec.ProposeBlock(Cfg(), old(state.Abs()), validators.leaderId, sha(data), data, io);
              Did(old(state.Abs()), old(sent), o) && ok == o.ok
      ensures if ok then
                && |sent| == |old(sent)| + 1 && sent[..|old(sent)|] == old(sent)
                && Outcomes.IsProposal(sent[|old(sent)|], validators.leaderId, sha(data), data)
              else sent == old(sent)
    {
      var leader := validators.leaderId;
      if !validators.IsValidator(leader) {
        return false;
      }
      var hash := sha(data);
      if !io.signed {
        return false;
      }
      var p := ProposalPacket(leader, hash, data);
      var stored := state.AddProposal(p, io.proposalStored);
      if !stored {
        return false;
      }
      ok := BroadcastMessage(p, io.proposalSent);
    }

    method ApproveProposal(hash: BlockHash, approver: PeerId, io: Io) returns (ok: bool)
      modifies this`sent, state
      ensures var o := Spec.ApproveProposal(Cfg(), old(state.Abs()), hash, approver, io);
              Did(old(state.Abs()), old(sent), o) && ok == o.ok
    {
      if !validators.IsValidator(approver) || !io.signed {
        return false;
      }
      var p := ApprovalPacket(approver, hash);
      var stored := state.AddApproval(p, io.approvalStored);
      if !stored {
        return false;
      }
      var delivered := BroadcastMessage(p, io.approvalSent);
      if !delivered {
        return false;
      }
      var reached := state.HasReachedQuorum(hash, quorumThreshold);
      if reached {
        var _ := FinalizeBlock(hash, io);
      }
      return true;
    }

    method HandleProposal(p: Packet, io: Io)
      modifies this`sent, state
      ensures Did(old(state.Abs()), old(sent), Spec.HandleProposal(Cfg(), self, old(state.Abs()), p, io))
    {
      var known := state.HasProposal(p.hash);
      if known {
        return;
      }
      if !validators.IsValidator(p.proposer) {
        return;
      }
      if !Verifies(p.proposer, p.hash, p.signature) {
        return;
      }
      var stored := state.AddProposal(p, io.proposalStored);
      if !stored {
        return;
      }
      if validators.IsValidator(self) && self != p.proposer {
        var _ := ApproveProposal(p.hash, self, io);
      }
    }

    method HandleApproval(p: Packet, io: Io)
      modifies this`sent, state
      ensures Did(old(state.Abs()), old(sent), Spec.HandleApproval(Cfg(), old(state.Abs()), p, io))
    {
      if !validators.IsValidator(p.validator) {
        return;
      }
      if !Verifies(p.validator, p.hash, p.signature) {
        return;
      }
      var stored := state.AddApproval(p, io.approvalStored);
      if !stored {
        return;
      }
      var reached := state.HasReachedQuorum(p.hash, quorumThreshold);
      if reached {
        var _ := FinalizeBlock(p.hash, io);
      }
    }

    /** Without a block finalizer the call to it cannot fail. */
    method HandleFinalization(p: Packet, io: Io)
      modifies this`sent, state
      ensures Did(old(state.Abs()), old(sent),
                  Spec.HandleFinalization(old(state.Abs()), p, io.(finalizerOk := !hasFinalizer || io.finalizerOk)))
    {
      var done := state.IsFinalized(p.hash);
      if done {
        return;
      }
      var stored := state.FinalizeBlock(p.hash, io.finalStored);
      if !stored {
        return;
      }
      if hasFinalizer && !io.finalizerOk {
        return;
      }
      var _ := BroadcastMessage(FinalizationPacket(p.hash), io.finalSent);
    }

    method HandleMessage(p: Packet, io: Io)
      modifies this`sent, state
      ensures Did(old(state.Abs()), old(sent),
                  Spec.HandleMessage(Cfg(), self, old(state.Abs()), p,
                                     io.(finalizerOk := !hasFinalizer || io.finalizerOk)))
    {
      match p.ptype {
        case Proposal => HandleProposal(p, io);
        case Approval => HandleApproval(p, io);
        case Finalization => HandleFinalization(p, io);
        case OtherType(_) =>
      }
    }
  }
}
