/** What one node of the leader-driven consensus accepts, records and sends, in every case,
    and when a leader finalizes. */
module ValidatorOutcomes {
  import opened Common
  import opened ConsensusSpec
  import Spec = ValidatorSpec
  import Outcomes = ConsensusOutcomes

  predicate IsSignedApproval(p: Packet, v: PeerId, hash: BlockHash) {
    p.ptype == Approval && p.validator == v && p.hash == hash && p.data == [] && p.signature == Signed(v, hash)
  }

  predicate IsSignedFinalization(p: Packet, v: PeerId, hash: BlockHash) {
    p.ptype == Finalization && p.validator == v && p.hash == hash && p.data == [] && p.signature == Signed(v, hash)
  }

  /** The signature is over hash and data. */
  predicate IsSignedProposal(p: Packet, v: PeerId, hash: BlockHash, data: Bytes) {
    p.ptype == Proposal && p.proposer == v && p.hash == hash && p.data == data && p.signature == Signed(v, hash + data)
  }

  // ---------------------------------------------------------------------------
  // Approvals

  /** The handler gets to look at the quorum with this approver included, finds it, and can
      sign and send. */
  predicate FinalizesNow(cfg: Config, self: PeerId, leader: PeerId, s: NodeState, p: Packet, io: Io) {
    && self == leader && p.hash !in s.finalized
    && (io.approvalStored || p.validator in Outcomes.ApproversOf(s, p.hash))
    && |Outcomes.ApproversOf(s, p.hash) + {p.validator}| >= cfg.quorum
    && io.signed && io.finalSent
  }

  /** A leader finalizes exactly when the distinct approvers, this one included, reach the
      quorum of a hash that is not final; nobody else does. */
  lemma HandleApprovalExactly(cfg: Config, self: PeerId, leader: PeerId, s: NodeState, p: Packet, io: Io)
    requires p.ptype.Approval?
    ensures var (s', sent) := Spec.HandleApproval(cfg, self, leader, s, p, io);
            var now := FinalizesNow(cfg, self, leader, s, p, io);
            && Outcomes.ApproversOf(s', p.hash) == Outcomes.ApproversOf(s, p.hash) + {p.validator}
            && (forall h :: h != p.hash ==> ApprovalsFor(s', h) == ApprovalsFor(s, h))
            && s'.proposals == s.proposals
            && s'.finalized == s.finalized + (if now then {p.hash} else {})
            && (if now then |sent| == 1 && IsSignedFinalization(sent[0], self, p.hash) else sent == [])
  {
    Outcomes.AddExactly(s, p, io.approvalStored);
  }

  function HandleAll(cfg: Config, self: PeerId, leader: PeerId, arrivals: seq<(Packet, Io)>): (NodeState, seq<Packet>)
    decreases |arrivals|
  {
    if arrivals == [] then (EMPTY_STATE, [])
    else
      var (s, sent) := HandleAll(cfg, self, leader, arrivals[..|arrivals| - 1]);
      var last := arrivals[|arrivals| - 1];
      var (s', more) := Spec.HandleApproval(cfg, self, leader, s, last.0, last.1);
      (s', sent + more)
  }

  predicate AllApprovals(arrivals: seq<(Packet, Io)>) {
    forall i :: 0 <= i < |arrivals| ==> arrivals[i].0.ptype.Approval?
  }

  /** The distinct validators that approved the hash in the list. */
  function Approvers(arrivals: seq<(Packet, Io)>, hash: BlockHash): set<PeerId>
    decreases |arrivals|
  {
    if arrivals == [] then {}
    else
      var last := arrivals[|arrivals| - 1].0;
      Approvers(arrivals[..|arrivals| - 1], hash) + if last.hash == hash then {last.validator} else {}
  }

  /** The arrival at which a leader can finalize: a quorum has approved, this approval is
      stored or repeated, and signing and sending work. */
  predicate FinalizesAt(cfg: Config, arrivals: seq<(Packet, Io)>, hash: BlockHash, n: nat)
    requires n < |arrivals|
  {
    var p, io := arrivals[n].0, arrivals[n].1;
    && p.hash == hash && |Approvers(arrivals[..n + 1], hash)| >= cfg.quorum
    && (io.approvalStored || p.validator in Approvers(arrivals[..n], hash)) && io.signed && io.finalSent
  }

  ghost predicate FinalizesSomewhere(cfg: Config, arrivals: seq<(Packet, Io)>, hash: BlockHash) {
    exists n :: 0 <= n < |arrivals| && FinalizesAt(cfg, arrivals, hash, n)
  }

  lemma SamePrefix(cfg: Config, arrivals: seq<(Packet, Io)>, hash: BlockHash, n: nat)
    requires n < |arrivals| - 1
    ensures FinalizesAt(cfg, arrivals, hash, n) == FinalizesAt(cfg, arrivals[..|arrivals| - 1], hash, n)
  {
    var before := arrivals[..|arrivals| - 1];
    assert before[..n] == arrivals[..n] && before[..n + 1] == arrivals[..n + 1];
  }

  lemma FinalizesByLast(cfg: Config, arrivals: seq<(Packet, Io)>, hash: BlockHash)
    requires arrivals != []
    ensures FinalizesSomewhere(cfg, arrivals, hash) <==>
            FinalizesSomewhere(cfg, arrivals[..|arrivals| - 1], hash) || FinalizesAt(cfg, arrivals, hash, |arrivals| - 1)
  {
    var before := arrivals[..|arrivals| - 1];
    forall n | 0 <= n < |before| ensures FinalizesAt(cfg, arrivals, hash, n) == FinalizesAt(cfg, before, hash, n) {
      SamePrefix(cfg, arrivals, hash, n);
    }
  }

  /** How often a finalization of the hash by this node was sent. */
  function Finalizations(sent: seq<Packet>, self: PeerId, hash: BlockHash): nat {
    if sent == [] then 0
    else Finalizations(sent[..|sent| - 1], self, hash) + if IsSignedFinalization(sent[|sent| - 1], self, hash) then 1 else 0
  }

  lemma FinalizationsOfMore(sent: seq<Packet>, more: seq<Packet>, self: PeerId, hash: BlockHash)
    requires |more| <= 1
    ensures Finalizations(sent + more, self, hash) ==
            Finalizations(sent, self, hash) + if more != [] && IsSignedFinalization(more[0], self, hash) then 1 else 0
  {
    if more == [] {
      assert sent + more == sent;
    } else {
      assert (sent + more)[..|sent|] == sent;
    }
  }

  /** One more approval, for one hash. */
  lemma OneMore(cfg: Config, self: PeerId, leader: PeerId, s: NodeState, sent: seq<Packet>, p: Packet, io: Io, hash: BlockHash)
    requires p.ptype.Approval? && Finalizations(sent, self, hash) == if hash in s.finalized then 1 else 0
    ensures var (s', more) := Spec.HandleApproval(cfg, self, leader, s, p, io);
            && Outcomes.ApproversOf(s', hash) == Outcomes.ApproversOf(s, hash) + (if p.hash == hash then {p.validator} else {})
            && (hash in s'.finalized <==> hash in s.finalized || (p.hash == hash && FinalizesNow(cfg, self, leader, s, p, io)))
            && Finalizations(sent + more, self, hash) == if hash in s'.finalized then 1 else 0
  {
    HandleApprovalExactly(cfg, self, leader, s, p, io);
    FinalizationsOfMore(sent, Spec.HandleApproval(cfg, self, leader, s, p, io).1, self, hash);
  }

  /** After any list of approvals, however often they repeat and whatever fails, a node has
      recorded exactly the distinct approvers; it has finalized the hash exactly when it
      takes itself as leader and some arrival let it, and then it said so once. */
  lemma {:induction false} LeaderFinalizesExactly(cfg: Config, self: PeerId, leader: PeerId, arrivals: seq<(Packet, Io)>,
                                                  hash: BlockHash)
    requires AllApprovals(arrivals)
    ensures var (s, sent) := HandleAll(cfg, self, leader, arrivals);
            && Outcomes.ApproversOf(s, hash) == Approvers(arrivals, hash)
            && (hash in s.finalized <==> self == leader && FinalizesSomewhere(cfg, arrivals, hash))
            && Finalizations(sent, self, hash) == if hash in s.finalized then 1 else 0
    decreases |arrivals|
  {
    if arrivals != [] {
      var before, last := arrivals[..|arrivals| - 1], arrivals[|arrivals| - 1];
      var (s, sent) := HandleAll(cfg, self, leader, before);
      LeaderFinalizesExactly(cfg, self, leader, before, hash);
      OneMore(cfg, self, leader, s, sent, last.0, last.1, hash);
      FinalizesByLast(cfg, arrivals, hash);
      assert arrivals[..|arrivals| - 1 + 1] == arrivals;
    }
  }

  /** When nothing fails: exactly when the distinct approvers number a quorum. */
  lemma {:induction false} QuorumFinalizes(cfg: Config, self: PeerId, arrivals: seq<(Packet, Io)>, hash: BlockHash)
    requires AllApprovals(arrivals) && cfg.quorum >= 1
    requires forall i :: 0 <= i < |arrivals| ==> arrivals[i].1.approvalStored && arrivals[i].1.signed && arrivals[i].1.finalSent
    ensures hash in HandleAll(cfg, self, self, arrivals).0.finalized <==> |Approvers(arrivals, hash)| >= cfg.quorum
    decreases |arrivals|
  {
    if arrivals != [] {
      var before, last := arrivals[..|arrivals| - 1], arrivals[|arrivals| - 1];
      QuorumFinalizes(cfg, self, before, hash);
      LeaderFinalizesExactly(cfg, self, self, before, hash);
      var (s, sent) := HandleAll(cfg, self, self, before);
      OneMore(cfg, self, self, s, sent, last.0, last.1, hash);
      SubsetSize(Approvers(before, hash), Approvers(arrivals, hash));
    }
  }

  // ---------------------------------------------------------------------------
  // Proposals

  /** A proposal is kept exactly if it comes from the node taken as leader; a validator that
      could store it approves it, if it can sign and send. */
  lemma HandleProposalExactly(cfg: Config, self: PeerId, leader: PeerId, s: NodeState, p: Packet, io: Io)
    requires p.ptype.Proposal?
    ensures var (s', sent) := Spec.HandleProposal(cfg, self, leader, s, p, io);
            var kept := p.proposer == leader;
            var approves := kept && io.proposalStored && self in cfg.validators && io.signed && io.approvalSent;
            && s'.proposals == (if kept then s.proposals[p.hash := p] else s.proposals)
            && s'.finalized == s.finalized
            && Outcomes.ApproversOf(s', p.hash) == Outcomes.ApproversOf(s, p.hash) + (if approves then {self} else {})
            && (forall h :: h != p.hash ==> ApprovalsFor(s', h) == ApprovalsFor(s, h))
            && (if approves then |sent| == 1 && IsSignedApproval(sent[0], self, p.hash) else sent == [])
  {
    var s1 := AddProposal(s, p, io.proposalStored).0;
    assert ApprovalsFor(s1, p.hash) == ApprovalsFor(s, p.hash);
  }

  /** A proposal is sent with its data, signed over hash and data, and then kept. */
  lemma ProposeExactly(self: PeerId, n: Spec.Node, hash: BlockHash, data: Bytes, io: Io)
    ensures var e := Spec.ProposeBlock(self, n, hash, data, io);
            if io.signed && io.proposalSent then
              && |e.sent| == 1 && IsSignedProposal(e.sent[0], self, hash, data)
              && e.node == n.(state := n.state.(proposals := n.state.proposals[hash := e.sent[0]]))
            else e.sent == [] && e.node == n
  {
  }

  // ---------------------------------------------------------------------------
  // The listener

  function Key(p: Packet): (PeerId, BlockHash) { (p.validator, p.hash) }

  function ReceiveAll(cfg: Config, ps: seq<Packet>): Spec.Node
    decreases |ps|
  {
    if ps == [] then Spec.NEW_NODE else Spec.Receive(cfg, ReceiveAll(cfg, ps[..|ps| - 1]), ps[|ps| - 1])
  }

  /** A packet verifies exactly if its sender is a validator that signed its hash, or hash
      and data for a proposal. */
  lemma VerifiesExactly(cfg: Config, p: Packet)
    ensures Spec.VerifySignature(cfg, p) <==>
            (p.ptype == Proposal && p.proposer in cfg.validators && p.signature == Signed(p.proposer, p.hash + p.data)) ||
            ((p.ptype == Approval || p.ptype == Finalization) &&
             p.validator in cfg.validators && p.signature == Signed(p.validator, p.hash))
  {
  }

  predicate Holds(ps: seq<Packet>, key: (PeerId, BlockHash)) { exists p :: p in ps && Key(p) == key }

  predicate HoldsVerified(cfg: Config, ps: seq<Packet>, key: (PeerId, BlockHash)) {
    exists p :: p in ps && Key(p) == key && Spec.VerifySignature(cfg, p)
  }

  lemma HoldsMore(cfg: Config, ps: seq<Packet>, p: Packet, key: (PeerId, BlockHash))
    ensures Holds(ps + [p], key) <==> Holds(ps, key) || Key(p) == key
    ensures HoldsVerified(cfg, ps + [p], key) <==> HoldsVerified(cfg, ps, key) || (Key(p) == key && Spec.VerifySignature(cfg, p))
  {
    assert p in ps + [p];
    assert forall q :: q in ps ==> q in ps + [p];
  }

  /** After any list of packets the inbox holds only verified packets of it, one for each
      sender and hash that had one, and nothing is queued twice. */
  lemma {:induction false} ReceivedOnce(cfg: Config, ps: seq<Packet>, key: (PeerId, BlockHash))
    ensures var n := ReceiveAll(cfg, ps);
            && (key in n.processed <==> HoldsVerified(cfg, ps, key)) && (Holds(n.inbox, key) <==> HoldsVerified(cfg, ps, key))
            && (forall p :: p in n.inbox ==> p in ps && Spec.VerifySignature(cfg, p))
            && (forall i, j :: 0 <= i < j < |n.inbox| ==> Key(n.inbox[i]) != Key(n.inbox[j]))
    decreases |ps|
  {
    if ps != [] {
      var front, last := ps[..|ps| - 1], ps[|ps| - 1];
      var n := ReceiveAll(cfg, front);
      ReceivedOnce(cfg, front, key);
      ReceivedOnce(cfg, front, Key(last));
      assert ps == front + [last];
      HoldsMore(cfg, front, last, key);
      HoldsMore(cfg, n.inbox, last, key);
      if Spec.VerifySignature(cfg, last) && Key(last) !in n.processed {
        forall i | 0 <= i < |n.inbox| ensures Key(n.inbox[i]) != Key(last) {
          assert n.inbox[i] in n.inbox;
        }
      }
    }
  }
}
