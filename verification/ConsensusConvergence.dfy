/** Delivery order and duplication of approvals do not matter to a node. */
module ConsensusConvergence {
  import opened Common
  import opened ConsensusSpec

  /** The node's state after handling the packets in order. */
  function HandleAll(cfg: Config, s: NodeState, arrivals: seq<(Packet, Io)>): NodeState
    decreases |arrivals|
  {
    if arrivals == [] then s
    else
      var last := arrivals[|arrivals| - 1];
      HandleApproval(cfg, HandleAll(cfg, s, arrivals[..|arrivals| - 1]), last.0, last.1).state
  }

  predicate IsValidApproval(cfg: Config, p: Packet, hash: BlockHash) {
    p.ptype.Approval? && p.hash == hash && p.validator in cfg.validators && Verifies(p.validator, hash, p.signature)
  }

  /** The distinct validators with a valid approval of `hash` among the arrivals. */
  function ValidApprovers(cfg: Config, arrivals: seq<(Packet, Io)>, hash: BlockHash): set<PeerId> {
    set i | 0 <= i < |arrivals| && IsValidApproval(cfg, arrivals[i].0, hash) :: arrivals[i].0.validator
  }

  function SignedBy(approvers: set<PeerId>, hash: BlockHash): map<PeerId, Signature> {
    map v | v in approvers :: Signed(v, hash)
  }

  predicate AllStored(arrivals: seq<(Packet, Io)>) {
    forall i :: 0 <= i < |arrivals| ==> arrivals[i].1.approvalStored
  }

  lemma ApproversOfOneMore(cfg: Config, arrivals: seq<(Packet, Io)>, hash: BlockHash)
    requires arrivals != []
    ensures var last := arrivals[|arrivals| - 1].0;
            ValidApprovers(cfg, arrivals, hash) ==
            ValidApprovers(cfg, arrivals[..|arrivals| - 1], hash) +
            if IsValidApproval(cfg, last, hash) then {last.validator} else {}
  {
    var n := |arrivals| - 1;
    var before := arrivals[..n];
    forall v | v in ValidApprovers(cfg, arrivals, hash)
      ensures v in ValidApprovers(cfg, before, hash) || (IsValidApproval(cfg, arrivals[n].0, hash) && v == arrivals[n].0.validator)
    {
      var i :| 0 <= i < |arrivals| && IsValidApproval(cfg, arrivals[i].0, hash) && arrivals[i].0.validator == v;
      assert i < n ==> before[i] == arrivals[i];
    }
    forall v | v in ValidApprovers(cfg, before, hash) ensures v in ValidApprovers(cfg, arrivals, hash) {
      var i :| 0 <= i < n && IsValidApproval(cfg, before[i].0, hash) && before[i].0.validator == v;
      assert arrivals[i] == before[i];
    }
  }

  /** State `s` holds for `hash` exactly the approvals of `approvers`. */
  predicate Holds(cfg: Config, s: NodeState, hash: BlockHash, approvers: set<PeerId>, allStored: bool) {
    && ApprovalsFor(s, hash) == SignedBy(approvers, hash)
    && (hash in s.approvals <==> approvers != {})
    && (hash in s.finalized ==> |approvers| >= cfg.quorum)
    && (allStored && |approvers| >= cfg.quorum ==> hash in s.finalized)
  }

  lemma OtherHashUntouched(cfg: Config, s: NodeState, p: Packet, io: Io, hash: BlockHash)
    requires !IsValidApproval(cfg, p, hash)
    ensures var s' := HandleApproval(cfg, s, p, io).state;
            && ApprovalsFor(s', hash) == ApprovalsFor(s, hash)
            && (hash in s'.approvals <==> hash in s.approvals)
            && (hash in s'.finalized <==> hash in s.finalized)
  {
  }

  lemma FinalizeIfQuorumOnly(cfg: Config, s: NodeState, hash: BlockHash, io: Io)
    ensures FinalizeIfQuorum(cfg, s, hash, io).state ==
            if |ApprovalsFor(s, hash)| >= cfg.quorum then MarkFinalized(s, hash) else s
  {
    if hash in s.finalized {
      assert s.finalized + {hash} == s.finalized;
    }
  }

  lemma AddedApproval(cfg: Config, s: NodeState, p: Packet, stored: bool, hash: BlockHash, approvers: set<PeerId>)
    requires IsValidApproval(cfg, p, hash) && ApprovalsFor(s, hash) == SignedBy(approvers, hash)
    requires hash in s.approvals <==> approvers != {}
    ensures var (s1, ok) := AddApproval(s, p, stored);
            && ApprovalsFor(s1, hash) == SignedBy(approvers + {p.validator}, hash)
            && hash in s1.approvals && s1.finalized == s.finalized
            && ok == (stored || p.validator in approvers)
            && (p.validator in approvers ==> s1 == s)
  {
    if p.validator in approvers {
      assert approvers + {p.validator} == approvers;
    }
  }

  lemma HoldsAfter(cfg: Config, s: NodeState, p: Packet, io: Io, hash: BlockHash, approvers: set<PeerId>, allStored: bool)
    requires cfg.quorum >= 1 && Holds(cfg, s, hash, approvers, allStored)
    ensures Holds(cfg, HandleApproval(cfg, s, p, io).state, hash,
                  approvers + (if IsValidApproval(cfg, p, hash) then {p.validator} else {}), allStored && io.approvalStored)
  {
    if IsValidApproval(cfg, p, hash) {
      var (s1, ok) := AddApproval(s, p, io.approvalStored);
      var approvers' := approvers + {p.validator};
      AddedApproval(cfg, s, p, io.approvalStored, hash, approvers);
      SubsetSize(approvers, approvers');
      SameSize(ApprovalsFor(s1, hash), approvers');
      FinalizeIfQuorumOnly(cfg, s1, hash, io);
    } else {
      OtherHashUntouched(cfg, s, p, io, hash);
    }
  }

  /** From the empty state, any list of packets leaves for each hash exactly the
      distinct validators that validly approved it. A hash is finalized only with a
      quorum of them, and always with one if no approval failed to be stored. */
  lemma {:induction false} ApprovalsExact(cfg: Config, arrivals: seq<(Packet, Io)>, hash: BlockHash)
    requires cfg.quorum >= 1
    ensures var s := HandleAll(cfg, EMPTY_STATE, arrivals);
            var approvers := ValidApprovers(cfg, arrivals, hash);
            && ApprovalsFor(s, hash) == SignedBy(approvers, hash)
            && (hash in s.approvals <==> approvers != {})
            && (hash in s.finalized ==> |approvers| >= cfg.quorum)
            && (AllStored(arrivals) && |approvers| >= cfg.quorum ==> hash in s.finalized)
    decreases |arrivals|
  {
    if arrivals != [] {
      var before, last := arrivals[..|arrivals| - 1], arrivals[|arrivals| - 1];
      ApprovalsExact(cfg, before, hash);
      ApproversOfOneMore(cfg, arrivals, hash);
      HoldsAfter(cfg, HandleAll(cfg, EMPTY_STATE, before), last.0, last.1, hash,
                 ValidApprovers(cfg, before, hash), AllStored(before));
      assert AllStored(arrivals) ==> AllStored(before) && last.1.approvalStored;
    }
  }

  lemma SameSize(m: map<PeerId, Signature>, keys: set<PeerId>)
    requires m.Keys == keys
    ensures |m| == |keys|
  {
  }

  function Packets(arrivals: seq<(Packet, Io)>): set<Packet> {
    set i | 0 <= i < |arrivals| :: arrivals[i].0
  }

  lemma SubsetOfApprovers(cfg: Config, one: seq<(Packet, Io)>, two: seq<(Packet, Io)>, hash: BlockHash)
    requires Packets(one) <= Packets(two)
    ensures ValidApprovers(cfg, one, hash) <= ValidApprovers(cfg, two, hash)
  {
    forall v | v in ValidApprovers(cfg, one, hash) ensures v in ValidApprovers(cfg, two, hash) {
      var i :| 0 <= i < |one| && IsValidApproval(cfg, one[i].0, hash) && one[i].0.validator == v;
      assert one[i].0 in Packets(one);
      var j :| 0 <= j < |two| && two[j].0 == one[i].0;
    }
  }

  lemma SameAtHash(cfg: Config, one: seq<(Packet, Io)>, two: seq<(Packet, Io)>, hash: BlockHash)
    requires cfg.quorum >= 1 && Packets(one) == Packets(two)
    ensures var s1, s2 := HandleAll(cfg, EMPTY_STATE, one), HandleAll(cfg, EMPTY_STATE, two);
            && ApprovalsFor(s1, hash) == ApprovalsFor(s2, hash)
            && (hash in s1.approvals <==> hash in s2.approvals)
            && (AllStored(one) && AllStored(two) ==> (hash in s1.finalized <==> hash in s2.finalized))
  {
    SubsetOfApprovers(cfg, one, two, hash);
    SubsetOfApprovers(cfg, two, one, hash);
    assert ValidApprovers(cfg, one, hash) == ValidApprovers(cfg, two, hash);
    ApprovalsExact(cfg, one, hash);
    ApprovalsExact(cfg, two, hash);
  }

  /** Two lists with the same packets, in any order and with any repetition, leave a node
      with the same approvals whatever is stored, and in the same state if all is. */
  lemma DeliveryOrderIrrelevant(cfg: Config, one: seq<(Packet, Io)>, two: seq<(Packet, Io)>)
    requires cfg.quorum >= 1 && Packets(one) == Packets(two)
    ensures var s1, s2 := HandleAll(cfg, EMPTY_STATE, one), HandleAll(cfg, EMPTY_STATE, two);
            && s1.proposals == s2.proposals && s1.approvals == s2.approvals
            && (AllStored(one) && AllStored(two) ==> s1 == s2)
  {
    var s1, s2 := HandleAll(cfg, EMPTY_STATE, one), HandleAll(cfg, EMPTY_STATE, two);
    forall h
      ensures ApprovalsFor(s1, h) == ApprovalsFor(s2, h)
      ensures h in s1.approvals <==> h in s2.approvals
      ensures AllStored(one) && AllStored(two) ==> (h in s1.finalized <==> h in s2.finalized)
    {
      SameAtHash(cfg, one, two, h);
    }
    assert s1.approvals == s2.approvals by {
      forall h | h in s1.approvals ensures h in s2.approvals && s1.approvals[h] == s2.approvals[h] {
        assert ApprovalsFor(s1, h) == ApprovalsFor(s2, h);
      }
    }
    NoProposals(cfg, one);
    NoProposals(cfg, two);
  }

  lemma {:induction false} NoProposals(cfg: Config, arrivals: seq<(Packet, Io)>)
    ensures HandleAll(cfg, EMPTY_STATE, arrivals).proposals == map[]
    decreases |arrivals|
  {
    if arrivals != [] {
      NoProposals(cfg, arrivals[..|arrivals| - 1]);
    }
  }

  /** The arrival at which a quorum is noticed: a valid approval that completes or repeats
      one, and that was stored if it is new. */
  predicate FinalizesAt(cfg: Config, arrivals: seq<(Packet, Io)>, hash: BlockHash, n: nat)
    requires n < |arrivals|
  {
    var p, io := arrivals[n].0, arrivals[n].1;
    && IsValidApproval(cfg, p, hash) && |ValidApprovers(cfg, arrivals[..n + 1], hash)| >= cfg.quorum
    && (io.approvalStored || p.validator in ValidApprovers(cfg, arrivals[..n], hash))
  }

  lemma FinalizedAfter(cfg: Config, s: NodeState, p: Packet, io: Io, hash: BlockHash, approvers: set<PeerId>)
    requires ApprovalsFor(s, hash) == SignedBy(approvers, hash) && (hash in s.approvals <==> approvers != {})
    ensures hash in HandleApproval(cfg, s, p, io).state.finalized <==>
            hash in s.finalized || (IsValidApproval(cfg, p, hash) && |approvers + {p.validator}| >= cfg.quorum &&
                                    (io.approvalStored || p.validator in approvers))
  {
    if IsValidApproval(cfg, p, hash) {
      var (s1, ok) := AddApproval(s, p, io.approvalStored);
      AddedApproval(cfg, s, p, io.approvalStored, hash, approvers);
      SameSize(ApprovalsFor(s1, hash), approvers + {p.validator});
      FinalizeIfQuorumOnly(cfg, s1, hash, io);
    } else {
      OtherHashUntouched(cfg, s, p, io, hash);
    }
  }

  lemma FinalizedByLast(cfg: Config, arrivals: seq<(Packet, Io)>, hash: BlockHash)
    requires cfg.quorum >= 1 && arrivals != []
    ensures hash in HandleAll(cfg, EMPTY_STATE, arrivals).finalized <==>
            hash in HandleAll(cfg, EMPTY_STATE, arrivals[..|arrivals| - 1]).finalized ||
            FinalizesAt(cfg, arrivals, hash, |arrivals| - 1)
  {
    var last := |arrivals| - 1;
    var before := arrivals[..last];
    ApprovalsExact(cfg, before, hash);
    ApproversOfOneMore(cfg, arrivals, hash);
    FinalizedAfter(cfg, HandleAll(cfg, EMPTY_STATE, before), arrivals[last].0, arrivals[last].1, hash,
                   ValidApprovers(cfg, before, hash));
    assert arrivals[..last + 1] == arrivals;
  }

  ghost predicate FinalizesSomewhere(cfg: Config, arrivals: seq<(Packet, Io)>, hash: BlockHash) {
    exists n :: 0 <= n < |arrivals| && FinalizesAt(cfg, arrivals, hash, n)
  }

  lemma FinalizesSomewhereByLast(cfg: Config, arrivals: seq<(Packet, Io)>, hash: BlockHash)
    requires arrivals != []
    ensures FinalizesSomewhere(cfg, arrivals, hash) <==>
            FinalizesSomewhere(cfg, arrivals[..|arrivals| - 1], hash) || FinalizesAt(cfg, arrivals, hash, |arrivals| - 1)
  {
    var before := arrivals[..|arrivals| - 1];
    forall n | 0 <= n < |before| ensures FinalizesAt(cfg, arrivals, hash, n) == FinalizesAt(cfg, before, hash, n) {
      SamePrefix(cfg, arrivals, hash, n);
    }
  }

  /** Whatever is stored or not, a hash is finalized exactly when there is such an arrival. */
  lemma {:induction false} FinalizedExactly(cfg: Config, arrivals: seq<(Packet, Io)>, hash: BlockHash)
    requires cfg.quorum >= 1
    ensures hash in HandleAll(cfg, EMPTY_STATE, arrivals).finalized <==> FinalizesSomewhere(cfg, arrivals, hash)
    decreases |arrivals|
  {
    if arrivals != [] {
      FinalizedExactly(cfg, arrivals[..|arrivals| - 1], hash);
      FinalizedByLast(cfg, arrivals, hash);
      FinalizesSomewhereByLast(cfg, arrivals, hash);
    }
  }

  lemma SamePrefix(cfg: Config, arrivals: seq<(Packet, Io)>, hash: BlockHash, n: nat)
    requires n < |arrivals| - 1
    ensures FinalizesAt(cfg, arrivals, hash, n) == FinalizesAt(cfg, arrivals[..|arrivals| - 1], hash, n)
  {
    var before := arrivals[..|arrivals| - 1];
    assert before[..n] == arrivals[..n] && before[..n + 1] == arrivals[..n + 1];
  }
}
