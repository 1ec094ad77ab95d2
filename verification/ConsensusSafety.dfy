/** Safety over whole runs: what a finalized hash says about the validators, with
    and without faulty participants. */
module ConsensusSafety {
  import opened Common
  import opened ConsensusSpec
  import opened ConsensusRuns

  /** Only packets that nodes broadcast are ever delivered. */
  predicate OnlyNodePackets(steps: seq<Step>) {
    forall i :: 0 <= i < |steps| ==> !steps[i].Inject?
  }

  function Approvers(cfg: Config, w: World, hash: BlockHash): set<PeerId> {
    set v | v in cfg.validators && (v, hash) in w.approved
  }

  ghost predicate FinalizedSomewhere(w: World, hash: BlockHash) {
    exists x :: x in w.nodes && hash in w.nodes[x].finalized
  }

  lemma {:induction false} NothingInjected(cfg: Config, peers: set<PeerId>, steps: seq<Step>)
    requires OnlyNodePackets(steps)
    ensures Run(cfg, Initial(peers), steps).injected == {}
    decreases |steps|
  {
    if steps != [] {
      NothingInjected(cfg, peers, steps[..|steps| - 1]);
    }
  }

  lemma OverlapSize(all: set<PeerId>, a: set<PeerId>, b: set<PeerId>)
    requires a <= all && b <= all
    ensures |a * b| >= |a| + |b| - |all|
  {
    SubsetSize(a + b, all);
    assert |a + b| == |a| + |b| - |a * b|;
  }

  /** Two default quorums of n validators overlap in a third of them. */
  lemma DefaultQuorumsOverlap(all: set<PeerId>, a: set<PeerId>, b: set<PeerId>)
    requires a <= all && b <= all && |all| > 0
    requires |a| >= DefaultQuorum(|all|) && |b| >= DefaultQuorum(|all|)
    ensures |a * b| >= (|all| - 1) / 3 + 1
  {
    OverlapSize(all, a, b);
  }

  /** Whatever failed on the way, a hash finalized at any node was approved by a
      quorum of distinct validators. */
  lemma FinalizedImpliesQuorum(cfg: Config, peers: set<PeerId>, steps: seq<Step>, hash: BlockHash)
    requires cfg.quorum >= 1 && OnlyNodePackets(steps)
    requires FinalizedSomewhere(Run(cfg, Initial(peers), steps), hash)
    ensures |Approvers(cfg, Run(cfg, Initial(peers), steps), hash)| >= cfg.quorum
  {
    var w := Run(cfg, Initial(peers), steps);
    RunSound(cfg, peers, steps);
    NothingInjected(cfg, peers, steps);
    var x :| x in w.nodes && hash in w.nodes[x].finalized;
    assert Founded(cfg, w, hash);
    assert Backers(cfg, w, hash) == Approvers(cfg, w, hash);
  }

  /** Any two finalized hashes share at least a third of the validators as approvers. */
  lemma FinalizedShareApprovers(cfg: Config, peers: set<PeerId>, steps: seq<Step>, h1: BlockHash, h2: BlockHash)
    requires cfg.quorum == DefaultQuorum(|cfg.validators|) && OnlyNodePackets(steps)
    requires FinalizedSomewhere(Run(cfg, Initial(peers), steps), h1)
    requires FinalizedSomewhere(Run(cfg, Initial(peers), steps), h2)
    ensures var w := Run(cfg, Initial(peers), steps);
            |Approvers(cfg, w, h1) * Approvers(cfg, w, h2)| >= (|cfg.validators| - 1) / 3 + 1
  {
    FinalizedImpliesQuorum(cfg, peers, steps, h1);
    FinalizedImpliesQuorum(cfg, peers, steps, h2);
    var w := Run(cfg, Initial(peers), steps);
    SubsetSize(Approvers(cfg, w, h1), cfg.validators);
    DefaultQuorumsOverlap(cfg.validators, Approvers(cfg, w, h1), Approvers(cfg, w, h2));
  }

  /** Who can come to approve what in one step: the approver of an explicit call, or
      a validator node that was handed a validly signed proposal by another one. */
  lemma ApprovalOrigin(cfg: Config, w: World, step: Step, v: PeerId, hash: BlockHash)
    requires (v, hash) in Next(cfg, w, step).approved && (v, hash) !in w.approved
    ensures v in cfg.validators
    ensures (step.Approve? && step.approver == v && step.hash == hash)
         || (step.Deliver? && step.node == v && step.index < |w.sent| &&
             var p := w.sent[step.index];
             p.ptype.Proposal? && p.hash == hash && p.proposer in cfg.validators && p.proposer != v &&
             Verifies(p.proposer, hash, p.signature) && v in w.nodes && hash !in w.nodes[v].proposals)
  {
  }

  // ---------------------------------------------------------------------------
  // Faulty participants

  /** An injected packet carries a signature its sender could have: none, one by a
      faulty peer, or one that was made before. */
  predicate Obtainable(faulty: set<PeerId>, w: World, p: Packet) {
    p.signature.Signed? ==>
      var s := (p.signature.signer, p.signature.over);
      s.0 in faulty || s in w.approved || s in w.proposed
  }

  predicate AllObtainable(faulty: set<PeerId>, w: World) {
    forall p :: p in w.injected ==> Obtainable(faulty, w, p)
  }

  predicate Unforged(cfg: Config, faulty: set<PeerId>, peers: set<PeerId>, steps: seq<Step>) {
    forall i :: 0 <= i < |steps| && steps[i].Inject? ==>
      Obtainable(faulty, At(cfg, Initial(peers), steps, i), steps[i].packet)
  }

  function HonestEndorsers(cfg: Config, w: World, faulty: set<PeerId>, hash: BlockHash): set<PeerId> {
    set v | v in cfg.validators && v !in faulty && ((v, hash) in w.approved || (v, hash) in w.proposed)
  }

  lemma {:induction false} InjectedObtainable(cfg: Config, faulty: set<PeerId>, peers: set<PeerId>, steps: seq<Step>)
    requires cfg.quorum >= 1 && Unforged(cfg, faulty, peers, steps)
    ensures AllObtainable(faulty, Run(cfg, Initial(peers), steps))
    decreases |steps|
  {
    if steps != [] {
      var before := steps[..|steps| - 1];
      forall i | 0 <= i < |before| ensures before[..i] == steps[..i] {}
      assert Unforged(cfg, faulty, peers, before) by {
        forall i | 0 <= i < |before| && before[i].Inject?
          ensures Obtainable(faulty, At(cfg, Initial(peers), before, i), before[i].packet)
        {
          assert before[..i] == steps[..i];
        }
      }
      InjectedObtainable(cfg, faulty, peers, before);
      var b, w, last := Run(cfg, Initial(peers), before), Run(cfg, Initial(peers), steps), steps[|steps| - 1];
      RunSound(cfg, peers, before);
      NextSound(cfg, b, last);
      assert last.Inject? ==> Obtainable(faulty, At(cfg, Initial(peers), steps, |before|), last.packet);
      assert w.injected <= b.injected + if last.Inject? then {last.packet} else {};
      assert AllObtainable(faulty, b);
    }
  }

  lemma CertifiedImpliesHonestQuorum(cfg: Config, faulty: set<PeerId>, w: World, hash: BlockHash)
    requires AllObtainable(faulty, w) && Certified(cfg, w, hash)
    ensures |HonestEndorsers(cfg, w, faulty, hash)| >= cfg.quorum - |cfg.validators * faulty|
  {
    var backers := Backers(cfg, w, hash);
    forall v | v in backers - faulty ensures v in HonestEndorsers(cfg, w, faulty, hash) {
      if (v, hash) !in w.approved {
        var p :| p in w.injected && IsApprovalOf(p, v, hash);
        assert Obtainable(faulty, w, p);
      }
    }
    SubsetSize(backers - faulty, HonestEndorsers(cfg, w, faulty, hash));
    SubsetSize(backers * faulty, cfg.validators * faulty);
    assert backers == (backers - faulty) + backers * faulty;
  }

  /** With faulty validators that send anything but cannot forge signatures: a finalized
      hash was signed, as proposer or approver, by all but the faulty part of a quorum,
      or it is not certified and somebody injected its finalization. */
  lemma FinalizedImpliesHonestQuorum(cfg: Config, faulty: set<PeerId>, peers: set<PeerId>, steps: seq<Step>, hash: BlockHash)
    requires cfg.quorum >= 1 && Unforged(cfg, faulty, peers, steps)
    requires FinalizedSomewhere(Run(cfg, Initial(peers), steps), hash)
    ensures var w := Run(cfg, Initial(peers), steps);
            if Certified(cfg, w, hash)
            then |HonestEndorsers(cfg, w, faulty, hash)| >= cfg.quorum - |cfg.validators * faulty|
            else FinalizationInjected(w, hash)
  {
    var w := Run(cfg, Initial(peers), steps);
    RunSound(cfg, peers, steps);
    InjectedObtainable(cfg, faulty, peers, steps);
    var x :| x in w.nodes && hash in w.nodes[x].finalized;
    assert Founded(cfg, w, hash);
    if Certified(cfg, w, hash) {
      CertifiedImpliesHonestQuorum(cfg, faulty, w, hash);
    }
  }

  /** The documented bound, f faulty among 3f+1: some honest validator signed both of any
      two certified hashes, whatever finalizations were injected. */
  lemma HonestOverlap(cfg: Config, f: nat, faulty: set<PeerId>, peers: set<PeerId>, steps: seq<Step>,
                      h1: BlockHash, h2: BlockHash)
    requires |cfg.validators| == 3 * f + 1 && |faulty| <= f && cfg.quorum == DefaultQuorum(|cfg.validators|)
    requires Unforged(cfg, faulty, peers, steps)
    requires var w := Run(cfg, Initial(peers), steps); Certified(cfg, w, h1) && Certified(cfg, w, h2)
    ensures var w := Run(cfg, Initial(peers), steps);
            HonestEndorsers(cfg, w, faulty, h1) * HonestEndorsers(cfg, w, faulty, h2) != {}
  {
    var w := Run(cfg, Initial(peers), steps);
    InjectedObtainable(cfg, faulty, peers, steps);
    CertifiedImpliesHonestQuorum(cfg, faulty, w, h1);
    CertifiedImpliesHonestQuorum(cfg, faulty, w, h2);
    var e1, e2 := HonestEndorsers(cfg, w, faulty, h1), HonestEndorsers(cfg, w, faulty, h2);
    var honest := cfg.validators - faulty;
    var bad := cfg.validators * faulty;
    SubsetSize(bad, faulty);
    assert cfg.validators == honest + bad;
    OverlapSize(honest, e1, e2);
  }

  // ---------------------------------------------------------------------------
  // Silent participants

  /** Approvals only by auto-approval, proposals only in one name, and no packet is handled
      by a silent validator. */
  predicate Passive(steps: seq<Step>, leader: PeerId, silent: set<PeerId>) {
    forall i :: 0 <= i < |steps| ==> PassiveStep(steps[i], leader, silent)
  }

  predicate PassiveStep(step: Step, leader: PeerId, silent: set<PeerId>) {
    match step
    case Propose(_, l, _, _, _) => l == leader
    case Approve(_, _, _, _) => false
    case Finalize(_, _, _) => true
    case Deliver(x, _, _) => x !in silent
    case Inject(_) => false
  }

  ghost predicate OnlyOthersApprove(cfg: Config, w: World, leader: PeerId, silent: set<PeerId>) {
    && (forall p :: p in w.sent && p.ptype.Proposal? ==> p.proposer == leader)
    && (forall a :: a in w.approved ==> a.0 in cfg.validators - silent - {leader})
  }

  lemma NoNewProposals(cfg: Config, w: World, step: Step)
    requires !step.Inject? && !step.Propose?
    ensures forall p :: p in Next(cfg, w, step).sent && p.ptype.Proposal? ==> p in w.sent
  {
  }

  lemma PassiveKeeps(cfg: Config, w: World, step: Step, leader: PeerId, silent: set<PeerId>)
    requires OnlyOthersApprove(cfg, w, leader, silent) && PassiveStep(step, leader, silent)
    ensures OnlyOthersApprove(cfg, Next(cfg, w, step), leader, silent)
  {
    var w' := Next(cfg, w, step);
    if !step.Propose? {
      NoNewProposals(cfg, w, step);
    }
    forall a | a in w'.approved ensures a.0 in cfg.validators - silent - {leader} {
      if a !in w.approved {
        ApprovalOrigin(cfg, w, step, a.0, a.1);
        assert w.sent[step.index] in w.sent;
      }
    }
  }

  lemma {:induction false} PassiveRun(cfg: Config, peers: set<PeerId>, steps: seq<Step>, leader: PeerId, silent: set<PeerId>)
    requires Passive(steps, leader, silent)
    ensures OnlyOthersApprove(cfg, Run(cfg, Initial(peers), steps), leader, silent)
    decreases |steps|
  {
    if steps != [] {
      var before := steps[..|steps| - 1];
      PassiveRun(cfg, peers, before, leader, silent);
      PassiveKeeps(cfg, Run(cfg, Initial(peers), before), steps[|steps| - 1], leader, silent);
    }
  }

  /** When the validators that are neither silent nor the proposer make no quorum, nothing
      is ever finalized at any node, in no run. */
  lemma SilenceBlocks(cfg: Config, peers: set<PeerId>, steps: seq<Step>, leader: PeerId, silent: set<PeerId>, hash: BlockHash)
    requires cfg.quorum >= 1 && Passive(steps, leader, silent)
    requires |cfg.validators - silent - {leader}| < cfg.quorum
    ensures !FinalizedSomewhere(Run(cfg, Initial(peers), steps), hash)
  {
    var w := Run(cfg, Initial(peers), steps);
    if FinalizedSomewhere(w, hash) {
      PassiveRun(cfg, peers, steps, leader, silent);
      FinalizedImpliesQuorum(cfg, peers, steps, hash);
      SubsetSize(Approvers(cfg, w, hash), cfg.validators - silent - {leader});
    }
  }

  /** The documented bound fails for progress without any malice: f silent validators among
      3f + 1 are enough, because the proposer does not approve. */
  lemma DocumentedProgressFails(cfg: Config, f: nat, peers: set<PeerId>, steps: seq<Step>, leader: PeerId,
                                silent: set<PeerId>, hash: BlockHash)
    requires f >= 1 && |cfg.validators| == 3 * f + 1 && cfg.quorum == DefaultQuorum(|cfg.validators|)
    requires leader in cfg.validators && silent <= cfg.validators - {leader} && |silent| == f
    requires Passive(steps, leader, silent)
    ensures !FinalizedSomewhere(Run(cfg, Initial(peers), steps), hash)
  {
    assert |cfg.validators - silent| == |cfg.validators| - f;
    assert |cfg.validators - silent - {leader}| == |cfg.validators - silent| - 1;
    SilenceBlocks(cfg, peers, steps, leader, silent, hash);
  }

  // ---------------------------------------------------------------------------
  // Exactly when every finalized hash is certified

  /** Some step handed node `x` a finalization of `hash`. */
  ghost predicate FinalizationDelivered(cfg: Config, peers: set<PeerId>, steps: seq<Step>, x: PeerId, hash: BlockHash) {
    exists i :: 0 <= i < |steps| && DeliveredAt(cfg, peers, steps, x, hash, i)
  }

  predicate DeliveredAt(cfg: Config, peers: set<PeerId>, steps: seq<Step>, x: PeerId, hash: BlockHash, i: nat)
    requires i < |steps|
  {
    DeliversFinalization(At(cfg, Initial(peers), steps, i), steps[i], x, hash)
  }

  predicate DeliversFinalization(w: World, step: Step, x: PeerId, hash: BlockHash) {
    step.Deliver? && step.node == x && x in w.nodes && step.index < |w.sent| &&
    w.sent[step.index].ptype.Finalization? && w.sent[step.index].hash == hash
  }

  /** A handler never forgets a finalized hash, and it finalizes a new one either on
      a quorum in its own state or because the packet said so. */
  ghost predicate FinalizesOnQuorum(cfg: Config, s: NodeState, o: Outcome) {
    && s.finalized <= o.state.finalized
    && forall h :: h in o.state.finalized - s.finalized ==> HasReachedQuorum(o.state, h, cfg.quorum)
  }

  lemma ApproveFinalizesOnQuorum(cfg: Config, s: NodeState, hash: BlockHash, approver: PeerId, io: Io)
    ensures FinalizesOnQuorum(cfg, s, ApproveProposal(cfg, s, hash, approver, io))
  {
  }

  lemma ProposalFinalizesOnQuorum(cfg: Config, x: PeerId, s: NodeState, p: Packet, io: Io)
    ensures FinalizesOnQuorum(cfg, s, HandleProposal(cfg, x, s, p, io))
  {
    var s1 := AddProposal(s, p, io.proposalStored).0;
    ApproveFinalizesOnQuorum(cfg, s1, p.hash, x, io);
    assert s1.finalized == s.finalized && s1.approvals == s.approvals;
  }

  lemma ApprovalFinalizesOnQuorum(cfg: Config, s: NodeState, p: Packet, io: Io)
    ensures FinalizesOnQuorum(cfg, s, HandleApproval(cfg, s, p, io))
  {
  }

  lemma MessageFinalizesOnQuorum(cfg: Config, x: PeerId, s: NodeState, p: Packet, io: Io)
    ensures s.finalized <= HandleMessage(cfg, x, s, p, io).state.finalized
    ensures !p.ptype.Finalization? ==> FinalizesOnQuorum(cfg, s, HandleMessage(cfg, x, s, p, io))
    ensures p.ptype.Finalization? ==> HandleMessage(cfg, x, s, p, io).state.finalized == s.finalized + {p.hash}
  {
    match p.ptype
    case Proposal => ProposalFinalizesOnQuorum(cfg, x, s, p, io);
    case Approval => ApprovalFinalizesOnQuorum(cfg, s, p, io);
    case Finalization =>
    case OtherType(_) =>
  }

  /** What one step does to the finalized hashes of node `x`. */
  lemma StepFinalizes(cfg: Config, w: World, step: Step, x: PeerId)
    requires x in w.nodes
    ensures var w' := Next(cfg, w, step);
            && w'.nodes.Keys == w.nodes.Keys
            && w.nodes[x].finalized <= w'.nodes[x].finalized
            && (forall h :: h in w'.nodes[x].finalized - w.nodes[x].finalized ==>
                  HasReachedQuorum(w'.nodes[x], h, cfg.quorum) || DeliversFinalization(w, step, x, h))
            && (forall h :: DeliversFinalization(w, step, x, h) ==> h in w'.nodes[x].finalized)
  {
    match step
    case Propose(_, leader, hash, data, io) =>
    case Approve(y, approver, hash, io) =>
      if y in w.nodes { ApproveFinalizesOnQuorum(cfg, w.nodes[y], hash, approver, io); }
    case Finalize(_, hash, io) =>
    case Deliver(y, i, io) =>
      if y in w.nodes && i < |w.sent| { MessageFinalizesOnQuorum(cfg, y, w.nodes[y], w.sent[i], io); }
    case Inject(p) =>
  }

  lemma {:induction false} RunKeepsPeers(cfg: Config, peers: set<PeerId>, steps: seq<Step>)
    ensures Run(cfg, Initial(peers), steps).nodes.Keys == peers
    decreases |steps|
  {
    if steps != [] {
      RunKeepsPeers(cfg, peers, steps[..|steps| - 1]);
      assert Next(cfg, Run(cfg, Initial(peers), steps[..|steps| - 1]), steps[|steps| - 1]).nodes.Keys == peers;
    }
  }

  lemma DeliveredInPrefix(cfg: Config, peers: set<PeerId>, steps: seq<Step>, x: PeerId, hash: BlockHash, i: nat)
    requires i < |steps| - 1
    ensures DeliveredAt(cfg, peers, steps, x, hash, i) <==> DeliveredAt(cfg, peers, steps[..|steps| - 1], x, hash, i)
  {
    assert steps[..|steps| - 1][..i] == steps[..i];
  }

  lemma DeliveryPrefix(cfg: Config, peers: set<PeerId>, steps: seq<Step>, x: PeerId, hash: BlockHash)
    requires steps != []
    ensures var before, last := steps[..|steps| - 1], steps[|steps| - 1];
            FinalizationDelivered(cfg, peers, steps, x, hash) <==>
            FinalizationDelivered(cfg, peers, before, x, hash) ||
            DeliversFinalization(Run(cfg, Initial(peers), before), last, x, hash)
  {
    var n := |steps| - 1;
    forall i | 0 <= i < n
      ensures DeliveredAt(cfg, peers, steps, x, hash, i) <==> DeliveredAt(cfg, peers, steps[..n], x, hash, i)
    {
      DeliveredInPrefix(cfg, peers, steps, x, hash, i);
    }
    assert DeliveredAt(cfg, peers, steps, x, hash, n) <==>
           DeliversFinalization(Run(cfg, Initial(peers), steps[..n]), steps[n], x, hash);
  }

  /** A node finalizes a hash because it is certified or because it was told to; and
      it always does what it is told. */
  lemma {:induction false} WhyFinalized(cfg: Config, peers: set<PeerId>, steps: seq<Step>, x: PeerId, hash: BlockHash)
    requires cfg.quorum >= 1 && x in peers
    ensures var w := Run(cfg, Initial(peers), steps);
            && x in w.nodes
            && (hash in w.nodes[x].finalized ==>
                  Certified(cfg, w, hash) || FinalizationDelivered(cfg, peers, steps, x, hash))
            && (FinalizationDelivered(cfg, peers, steps, x, hash) ==> hash in w.nodes[x].finalized)
    decreases |steps|
  {
    RunKeepsPeers(cfg, peers, steps);
    if steps != [] {
      var before, last := steps[..|steps| - 1], steps[|steps| - 1];
      var b, w := Run(cfg, Initial(peers), before), Run(cfg, Initial(peers), steps);
      WhyFinalized(cfg, peers, before, x, hash);
      RunSound(cfg, peers, before);
      NextSound(cfg, b, last);
      StepFinalizes(cfg, b, last, x);
      CertificatesPersist(cfg, b, w, hash);
      DeliveryPrefix(cfg, peers, steps, x, hash);
      if hash in w.nodes[x].finalized && hash !in b.nodes[x].finalized && !DeliversFinalization(b, last, x, hash) {
        QuorumCertifies(cfg, w, w.nodes[x], hash);
      }
    }
  }

  /** Every hash finalized at a node is certified. */
  ghost predicate AllCertified(cfg: Config, w: World) {
    forall x, h :: x in w.nodes && h in w.nodes[x].finalized ==> Certified(cfg, w, h)
  }

  /** Every finalization handed to a node was for a hash that is certified. */
  ghost predicate DeliveredCertified(cfg: Config, peers: set<PeerId>, steps: seq<Step>, w: World) {
    forall x, h :: x in peers && FinalizationDelivered(cfg, peers, steps, x, h) ==> Certified(cfg, w, h)
  }

  /** Over any run, with any injected packets: every finalized hash is certified by a
      quorum exactly when every finalization that was delivered was for a certified
      hash. Nothing else in the protocol needs the senders to be honest. */
  lemma CertifiedExactlyWhen(cfg: Config, peers: set<PeerId>, steps: seq<Step>)
    requires cfg.quorum >= 1
    ensures var w := Run(cfg, Initial(peers), steps);
            AllCertified(cfg, w) <==> DeliveredCertified(cfg, peers, steps, w)
  {
    var w := Run(cfg, Initial(peers), steps);
    RunKeepsPeers(cfg, peers, steps);
    if AllCertified(cfg, w) {
      forall x, h | x in peers && FinalizationDelivered(cfg, peers, steps, x, h) ensures Certified(cfg, w, h) {
        WhyFinalized(cfg, peers, steps, x, h);
      }
    }
    if DeliveredCertified(cfg, peers, steps, w) {
      forall x, h | x in w.nodes && h in w.nodes[x].finalized ensures Certified(cfg, w, h) {
        WhyFinalized(cfg, peers, steps, x, h);
      }
    }
  }

  /** The guard that the handler of finalizations lacks: a finalization is believed only
      when its hash is certified at that moment. */
  ghost predicate Guarded(cfg: Config, w: World, step: Step) {
    forall x, h :: DeliversFinalization(w, step, x, h) ==> Certified(cfg, w, h)
  }

  /** Handing over a finalization makes no new backers. */
  lemma SameBackers(cfg: Config, w: World, step: Step, x: PeerId, hash: BlockHash)
    requires DeliversFinalization(w, step, x, hash)
    ensures Certified(cfg, Next(cfg, w, step), hash) ==> Certified(cfg, w, hash)
  {
    var w' := Next(cfg, w, step);
    assert w'.approved == w.approved && w'.injected == w.injected;
    assert Backers(cfg, w', hash) == Backers(cfg, w, hash);
  }

  lemma GuardedStep(cfg: Config, w: World, step: Step)
    requires cfg.quorum >= 1 && Sound(cfg, w) && AllCertified(cfg, w)
    ensures AllCertified(cfg, Next(cfg, w, step)) <==> Guarded(cfg, w, step)
  {
    var w' := Next(cfg, w, step);
    NextSound(cfg, w, step);
    if Guarded(cfg, w, step) {
      forall x, h | x in w'.nodes && h in w'.nodes[x].finalized ensures Certified(cfg, w', h) {
        assert x in w.nodes;
        StepFinalizes(cfg, w, step, x);
        CertificatesPersist(cfg, w, w', h);
        if h !in w.nodes[x].finalized && !DeliversFinalization(w, step, x, h) {
          QuorumCertifies(cfg, w', w'.nodes[x], h);
        }
      }
    }
    if AllCertified(cfg, w') {
      forall x, h | DeliversFinalization(w, step, x, h) ensures Certified(cfg, w, h) {
        StepFinalizes(cfg, w, step, x);
        SameBackers(cfg, w, step, x, h);
      }
    }
  }

  ghost predicate CertifiedAt(cfg: Config, peers: set<PeerId>, steps: seq<Step>, n: nat)
    requires n <= |steps|
  {
    AllCertified(cfg, At(cfg, Initial(peers), steps, n))
  }

  ghost predicate GuardedAt(cfg: Config, peers: set<PeerId>, steps: seq<Step>, n: nat)
    requires n < |steps|
  {
    Guarded(cfg, At(cfg, Initial(peers), steps, n), steps[n])
  }

  lemma GuardedNext(cfg: Config, peers: set<PeerId>, steps: seq<Step>, n: nat)
    requires cfg.quorum >= 1 && n < |steps| && CertifiedAt(cfg, peers, steps, n)
    ensures CertifiedAt(cfg, peers, steps, n + 1) <==> GuardedAt(cfg, peers, steps, n)
  {
    assert steps[..n + 1][..n] == steps[..n];
    RunSound(cfg, peers, steps[..n]);
    GuardedStep(cfg, At(cfg, Initial(peers), steps, n), steps[n]);
  }

  lemma StartCertified(cfg: Config, peers: set<PeerId>, steps: seq<Step>)
    ensures CertifiedAt(cfg, peers, steps, 0)
  {
    assert steps[..0] == [];
  }

  /** At every moment of a run all finalized hashes are certified exactly when each
      finalization delivered in it was for a hash certified when it was delivered. */
  lemma GuardedExactlyWhen(cfg: Config, peers: set<PeerId>, steps: seq<Step>)
    requires cfg.quorum >= 1
    ensures (forall n :: 0 <= n <= |steps| ==> CertifiedAt(cfg, peers, steps, n)) <==>
            (forall n :: 0 <= n < |steps| ==> GuardedAt(cfg, peers, steps, n))
  {
    var holds := (n: nat) => n <= |steps| && CertifiedAt(cfg, peers, steps, n);
    var step := (n: nat) => n < |steps| && GuardedAt(cfg, peers, steps, n);
    StartCertified(cfg, peers, steps);
    forall n | 0 <= n < |steps| && holds(n) ensures holds(n + 1) <==> step(n) {
      GuardedNext(cfg, peers, steps, n);
    }
    AlwaysExactly(holds, step, |steps|);
    assert forall n :: 0 <= n <= |steps| ==> holds(n) == CertifiedAt(cfg, peers, steps, n);
    assert forall n :: 0 <= n < |steps| ==> step(n) == GuardedAt(cfg, peers, steps, n);
  }

  /** One faulty validator of four is within the documented bound, yet its unsigned
      finalization alone finalizes a hash that nobody signed. */
  lemma DocumentedToleranceFails(hash: BlockHash)
    ensures var peers := {"a", "b", "c", "d"};
            var cfg := Config(peers, DefaultQuorum(4));
            var steps := [Inject(FinalizationPacket(hash)), Deliver("a", 0, ALL_OK)];
            var w := Run(cfg, Initial(peers), steps);
            && Unforged(cfg, {"d"}, peers, steps)
            && FinalizedSomewhere(w, hash) && Backers(cfg, w, hash) == {} && !Certified(cfg, w, hash)
  {
    var peers := {"a", "b", "c", "d"};
    var cfg := Config(peers, DefaultQuorum(4));
    var steps := [Inject(FinalizationPacket(hash)), Deliver("a", 0, ALL_OK)];
    assert steps[..1] == [Inject(FinalizationPacket(hash))];
    assert steps[..1][..0] == [] && steps[..0] == [];
    assert Run(cfg, Initial(peers), []) == Initial(peers);
    var w1 := Run(cfg, Initial(peers), steps[..1]);
    assert w1 == Next(cfg, Initial(peers), steps[0]);
    var w := Run(cfg, Initial(peers), steps);
    assert w == Next(cfg, w1, steps[1]);
    assert "a" in w.nodes && hash in w.nodes["a"].finalized;
    assert w.approved == {} && w.injected == {FinalizationPacket(hash)};
  }
}
