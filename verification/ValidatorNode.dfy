/** The consensus object of pkg/validator, proved against `ValidatorSpec`. */
module ValidatorNode {
  import opened Common
  import opened ConsensusSpec
  import opened ConsensusNode
  import Spec = ValidatorSpec

  class Consensus {
    const identity: PeerId
    const state: State
    const validatorSet: ValidatorSet
    var currentLeader: PeerId
    var processedMsgs: map<(PeerId, BlockHash), bool>
    var messageChan: seq<Packet>
    var sent: seq<Packet>

    ghost function Abs(): Spec.Node
      reads this, state
    {
      Spec.Node(state.Abs(), currentLeader, (set k | k in processedMsgs && processedMsgs[k]), messageChan)
    }

    /** The threshold is asked of the validator set at every use. */
    ghost function Cfg(): Config
      reads validatorSet
    {
      Config(validatorSet.validators, validatorSet.QuorumSize())
    }

    constructor (identity: PeerId, validatorSet: ValidatorSet)
      ensures fresh(state) && Abs() == Spec.NEW_NODE && sent == []
      ensures this.identity == identity && this.validatorSet == validatorSet
    {
      this.identity := identity;
      this.validatorSet := validatorSet;
      this.state := new State();
      currentLeader, processedMsgs, messageChan, sent := "", map[], [], [];
    }

    method SetCurrentLeader(leader: PeerId)
      modifies this`currentLeader
      ensures Abs() == old(Abs()).(leader := leader)
    {
      currentLeader := leader;
    }

    /** One round of the network listener's loop. */
    method Listen(p: Packet)
      modifies this`processedMsgs, this`messageChan
      ensures Abs() == Spec.Receive(Cfg(), old(Abs()), p)
    {
      var signer := if p.ptype.Proposal? then p.proposer else p.validator;
      var covered := if p.ptype.Proposal? then p.hash + p.data else p.hash;
      if p.ptype.OtherType? || !validatorSet.IsValidator(signer) || !Verifies(signer, covered, p.signature) {
        return;
      }
      var key := (p.validator, p.hash);
      if key in processedMsgs && processedMsgs[key] {
        return;
      }
      processedMsgs := processedMsgs[key := true];
      messageChan := messageChan + [p];
    }

    method BroadcastMessage(p: Packet, delivered: bool) returns (ok: bool)
      modifies this`sent
      ensures sent == (if delivered then old(sent) + [p] else old(sent)) && ok == delivered
    {
      if delivered {
        sent := sent + [p];
      }
      ok := delivered;
    }

    method ApproveProposal(hash: BlockHash, io: Io)
      modifies this`sent, state
      ensures var (s, packets) := Spec.ApproveProposal(identity, old(state.Abs()), hash, io);
              state.Abs() == s && sent == old(sent) + packets
    {
      if !io.signed {
        return;
      }
      var p := ApprovalPacket(identity, hash);
      var ok := BroadcastMessage(p, io.approvalSent);
      if ok {
        var _ := state.AddApproval(p, io.approvalStored);
      }
    }

    method FinalizeBlock(hash: BlockHash, io: Io)
      modifies this`sent, state
      ensures var (s, packets) := Spec.FinalizeBlock(identity, old(state.Abs()), hash, io);
              state.Abs() == s && sent == old(sent) + packets
    {
      if !io.signed {
        return;
      }
      var ok := BroadcastMessage(Spec.SignedFinalization(identity, hash), io.finalSent);
      if ok {
        var _ := state.FinalizeBlock(hash, io.finalStored);
      }
    }

    method HandleProposal(p: Packet, io: Io)
      modifies this`sent, state
      ensures var (s, packets) := Spec.HandleProposal(Cfg(), identity, currentLeader, old(state.Abs()), p, io);
              state.Abs() == s && sent == old(sent) + packets
    {
      if p.proposer != currentLeader {
        return;
      }
      var stored := state.AddProposal(p, io.proposalStored);
      if !stored {
        return;
      }
      if validatorSet.IsValidator(identity) {
        ApproveProposal(p.hash, io);
      }
    }

    method HandleApproval(p: Packet, io: Io)
      modifies this`sent, state
      ensures var (s, packets) := Spec.HandleApproval(Cfg(), identity, currentLeader, old(state.Abs()), p, io);
              state.Abs() == s && sent == old(sent) + packets
    {
      var stored := state.AddApproval(p, io.approvalStored);
      if !stored {
        return;
      }
      if identity == currentLeader {
        var reached := state.HasReachedQuorum(p.hash, validatorSet.QuorumSize());
        var done := state.IsFinalized(p.hash);
        if reached && !done {
          FinalizeBlock(p.hash, io);
        }
      }
    }

    /** One round of the message processor's loop. */
    method ProcessMessage(io: Io)
      modifies this`sent, this`messageChan, state
      ensures var e := Spec.Process(Cfg(), identity, old(Abs()), io);
              Abs() == e.node && sent == old(sent) + e.sent
    {
      if messageChan == [] {
        return;
      }
      var p := messageChan[0];
      messageChan := messageChan[1..];
      match p.ptype {
        case Proposal => HandleProposal(p, io);
        case Approval => HandleApproval(p, io);
        case Finalization => var _ := state.FinalizeBlock(p.hash, io.finalStored);
        case OtherType(_) =>
      }
    }

    method ProposeBlock(sha: Sha, data: Bytes, io: Io)
      modifies this`sent, state
      ensures var e := Spec.ProposeBlock(identity, old(Abs()), sha(data), data, io);
              Abs() == e.node && sent == old(sent) + e.sent
    {
      if !io.signed {
        return;
      }
      var p := Spec.SignedProposal(identity, sha(data), data);
      var ok := BroadcastMessage(p, io.proposalSent);
      if ok {
        var _ := state.AddProposal(p, io.proposalStored);
      }
    }
  }
}
