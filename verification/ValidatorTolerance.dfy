/** The leader-driven consensus when packets that no node sent are delivered too. */
module ValidatorTolerance {
  import opened Common
  import opened ConsensusSpec
  import opened ValidatorSafety
  import Spec = ValidatorSpec

  /** A step of a node, or a packet put on the wire by somebody else. */
  datatype Move = Act(step: Step) | Inject(packet: Packet)

  /** The world, the signatures its nodes made, and the hashes led so far. */
  datatype Scene = Scene(world: World, made: set<(PeerId, BlockHash)>, led: set<BlockHash>)

  function Announced(cfg: Config, w: World, step: Step): seq<Packet> {
    if step.node !in w.nodes then []
    else
      match step
      case Propose(x, hash, data, io) => Spec.ProposeBlock(x, w.nodes[x], hash, data, io).sent
      case Process(x, io) => Spec.Process(cfg, x, w.nodes[x], io).sent
      case _ => []
  }

  function Signatures(sent: seq<Packet>): set<(PeerId, BlockHash)> {
    set p | p in sent && p.signature.Signed? :: (p.signature.signer, p.signature.over)
  }

  /** The packet that a step takes from the inbox. */
  predicate Takes(w: World, step: Step) {
    step.Process? && step.node in w.nodes && w.nodes[step.node].inbox != []
  }

  function LedIn(cfg: Config, w: World, step: Step): set<BlockHash> {
    if Takes(w, step) && Leads(cfg, w, step, w.nodes[step.node].inbox[0].hash) then {w.nodes[step.node].inbox[0].hash}
    else {}
  }

  function NextScene(cfg: Config, s: Scene, m: Move): Scene {
    match m
    case Act(step) =>
      Scene(Next(cfg, s.world, step), s.made + Signatures(Announced(cfg, s.world, step)), s.led + LedIn(cfg, s.world, step))
    case Inject(p) => s.(world := s.world.(sent := s.world.sent + [p]))
  }

  function RunScene(cfg: Config, peers: set<PeerId>, moves: seq<Move>): Scene
    decreases |moves|
  {
    if moves == [] then Scene(Initial(peers), {}, {})
    else NextScene(cfg, RunScene(cfg, peers, moves[..|moves| - 1]), moves[|moves| - 1])
  }

  // ---------------------------------------------------------------------------
  // Exactly when everything finalized was led

  /** Every hash finalized anywhere was led on a quorum before. */
  ghost predicate AllLed(s: Scene) {
    forall h :: FinalizedSomewhere(s.world, h) ==> h in s.led
  }

  /** In this step a node handles a finalization of the hash. */
  predicate Told(w: World, step: Step, hash: BlockHash) {
    Takes(w, step) && w.nodes[step.node].inbox[0].ptype.Finalization? && w.nodes[step.node].inbox[0].hash == hash
  }

  /** The guard that the handler of finalizations lacks: the hash was led. */
  ghost predicate Guarded(cfg: Config, s: Scene, m: Move) {
    m.Act? ==> forall h :: Told(s.world, m.step, h) ==> h in s.led + LedIn(cfg, s.world, m.step)
  }

  lemma HandleFinalizes(cfg: Config, x: PeerId, leader: PeerId, s: NodeState, p: Packet, io: Io)
    ensures var s' := Spec.Handle(cfg, x, leader, s, p, io).0;
            && s.finalized <= s'.finalized <= s.finalized + {p.hash}
            && (p.ptype.Finalization? ==> p.hash in s'.finalized)
            && (p.hash in s'.finalized - s.finalized && !p.ptype.Finalization? ==>
                  leader == x && HasReachedQuorum(s', p.hash, cfg.quorum))
  {
  }

  /** What a step does to the finalized hashes of the world. */
  lemma StepFinalizes(cfg: Config, w: World, step: Step, hash: BlockHash)
    ensures FinalizedSomewhere(w, hash) ==> FinalizedSomewhere(Next(cfg, w, step), hash)
    ensures Told(w, step, hash) ==> FinalizedSomewhere(Next(cfg, w, step), hash)
    ensures FinalizedSomewhere(Next(cfg, w, step), hash) && !FinalizedSomewhere(w, hash) ==>
              Told(w, step, hash) || hash in LedIn(cfg, w, step)
  {
    var w' := Next(cfg, w, step);
    if step.node in w.nodes {
      var x, n := step.node, w.nodes[step.node];
      if Takes(w, step) {
        HandleFinalizes(cfg, x, n.leader, n.state, n.inbox[0], step.io);
      }
      assert n.state.finalized <= w'.nodes[x].state.finalized by {
        if step.Propose? {
          ProposeExplained(cfg, n, x, step.hash, step.data, step.io);
        }
      }
      if y :| y in w.nodes && hash in w.nodes[y].state.finalized {
        assert y in w'.nodes && hash in w'.nodes[y].state.finalized;
      }
      if Told(w, step, hash) {
        assert x in w'.nodes && hash in w'.nodes[x].state.finalized;
      }
      if y :| y in w'.nodes && hash in w'.nodes[y].state.finalized {
        assert y in w.nodes && (y != x ==> w'.nodes[y] == w.nodes[y]);
        if step.Propose? {
          ProposeExplained(cfg, n, x, step.hash, step.data, step.io);
        }
      }
    }
  }

  lemma GuardedMove(cfg: Config, s: Scene, m: Move)
    requires AllLed(s)
    ensures AllLed(NextScene(cfg, s, m)) <==> Guarded(cfg, s, m)
  {
    var s' := NextScene(cfg, s, m);
    match m
    case Inject(_) =>
      forall h | FinalizedSomewhere(s'.world, h) ensures h in s'.led {
        assert FinalizedSomewhere(s.world, h);
      }
    case Act(step) =>
      if Guarded(cfg, s, m) {
        forall h | FinalizedSomewhere(s'.world, h) ensures h in s'.led {
          StepFinalizes(cfg, s.world, step, h);
        }
      }
      if AllLed(s') {
        forall h | Told(s.world, step, h) ensures h in s.led + LedIn(cfg, s.world, step) {
          StepFinalizes(cfg, s.world, step, h);
        }
      }
  }

  ghost predicate AllLedAt(cfg: Config, peers: set<PeerId>, moves: seq<Move>, n: nat)
    requires n <= |moves|
  {
    AllLed(RunScene(cfg, peers, moves[..n]))
  }

  ghost predicate GuardedAt(cfg: Config, peers: set<PeerId>, moves: seq<Move>, n: nat)
    requires n < |moves|
  {
    Guarded(cfg, RunScene(cfg, peers, moves[..n]), moves[n])
  }

  /** Whatever is injected: at every moment of a run everything finalized was led on a
      quorum, exactly when each finalization a node handled was of a hash led by then. */
  lemma LedExactlyWhen(cfg: Config, peers: set<PeerId>, moves: seq<Move>)
    ensures (forall n :: 0 <= n <= |moves| ==> AllLedAt(cfg, peers, moves, n)) <==>
            (forall n :: 0 <= n < |moves| ==> GuardedAt(cfg, peers, moves, n))
  {
    var holds := (n: nat) => n <= |moves| && AllLedAt(cfg, peers, moves, n);
    var step := (n: nat) => n < |moves| && GuardedAt(cfg, peers, moves, n);
    assert moves[..0] == [];
    forall n | 0 <= n < |moves| && holds(n) ensures holds(n + 1) <==> step(n) {
      assert moves[..n + 1][..n] == moves[..n];
      GuardedMove(cfg, RunScene(cfg, peers, moves[..n]), moves[n]);
    }
    AlwaysExactly(holds, step, |moves|);
    assert forall n :: 0 <= n <= |moves| ==> holds(n) == AllLedAt(cfg, peers, moves, n);
    assert forall n :: 0 <= n < |moves| ==> step(n) == GuardedAt(cfg, peers, moves, n);
  }

  // ---------------------------------------------------------------------------
  // What leading means with faulty participants

  /** The signature is one of a faulty peer, or one that a node made. */
  predicate Obtainable(faulty: set<PeerId>, made: set<(PeerId, BlockHash)>, p: Packet) {
    p.signature.Signed? ==> p.signature.signer in faulty || (p.signature.signer, p.signature.over) in made
  }

  predicate UnforgedAt(cfg: Config, faulty: set<PeerId>, peers: set<PeerId>, moves: seq<Move>, n: nat)
    requires n < |moves|
  {
    moves[n].Inject? ==> Obtainable(faulty, RunScene(cfg, peers, moves[..n]).made, moves[n].packet)
  }

  predicate Unforged(cfg: Config, faulty: set<PeerId>, peers: set<PeerId>, moves: seq<Move>) {
    forall n :: 0 <= n < |moves| ==> UnforgedAt(cfg, faulty, peers, moves, n)
  }

  ghost predicate ApprovalsGenuine(cfg: Config, faulty: set<PeerId>, made: set<(PeerId, BlockHash)>, s: NodeState) {
    forall h, v :: h in s.approvals && v in s.approvals[h] ==> v in cfg.validators && (v in faulty || (v, h) in made)
  }

  ghost predicate NodeGenuine(cfg: Config, faulty: set<PeerId>, made: set<(PeerId, BlockHash)>, n: Spec.Node) {
    && ApprovalsGenuine(cfg, faulty, made, n.state)
    && forall p :: p in n.inbox ==> Obtainable(faulty, made, p) && Spec.VerifySignature(cfg, p)
  }

  ghost predicate Genuine(cfg: Config, faulty: set<PeerId>, s: Scene) {
    && (forall x :: x in s.world.nodes ==> NodeGenuine(cfg, faulty, s.made, s.world.nodes[x]))
    && (forall p :: p in s.world.sent ==> Obtainable(faulty, s.made, p))
  }

  lemma AnnouncedObtainable(faulty: set<PeerId>, made: set<(PeerId, BlockHash)>, sent: seq<Packet>)
    ensures forall p :: p in sent ==> Obtainable(faulty, made + Signatures(sent), p)
  {
  }

  lemma HandleGenuine(cfg: Config, faulty: set<PeerId>, made: set<(PeerId, BlockHash)>, x: PeerId, leader: PeerId,
                      s: NodeState, p: Packet, io: Io)
    requires ApprovalsGenuine(cfg, faulty, made, s) && Obtainable(faulty, made, p) && Spec.VerifySignature(cfg, p)
    ensures var (s', sent) := Spec.Handle(cfg, x, leader, s, p, io);
            ApprovalsGenuine(cfg, faulty, made + Signatures(sent), s')
  {
    match p.ptype
    case Proposal =>
      var s1 := AddProposal(s, p, io.proposalStored).0;
      assert s1.approvals == s.approvals;
      if Spec.HandleProposal(cfg, x, leader, s, p, io).1 != [] {
        var q := ApprovalPacket(x, p.hash);
        assert Spec.HandleProposal(cfg, x, leader, s, p, io).1 == [q] && q in [q];
        assert (x, p.hash) in Signatures([q]);
      }
    case Approval =>
    case Finalization =>
    case OtherType(_) =>
  }

  /** Taking one packet, or proposing, at one node. */
  lemma NodeStaysGenuine(cfg: Config, faulty: set<PeerId>, s: Scene, step: Step)
    requires Genuine(cfg, faulty, s) && step.node in s.world.nodes
    ensures var s' := NextScene(cfg, s, Act(step));
            step.node in s'.world.nodes && NodeGenuine(cfg, faulty, s'.made, s'.world.nodes[step.node])
  {
    var x, n := step.node, s.world.nodes[step.node];
    assert NodeGenuine(cfg, faulty, s.made, n);
    match step
    case Elect(_, _) =>
    case Propose(_, hash, data, io) => ProposeExplained(cfg, n, x, hash, data, io);
    case Receive(_, i) =>
      assert i < |s.world.sent| ==> s.world.sent[i] in s.world.sent;
    case Process(_, io) =>
      if n.inbox != [] {
        assert n.inbox[0] in n.inbox;
        HandleGenuine(cfg, faulty, s.made, x, n.leader, n.state, n.inbox[0], io);
        assert forall p :: p in n.inbox[1..] ==> p in n.inbox;
      }
  }

  lemma SentByStep(cfg: Config, w: World, step: Step)
    ensures Next(cfg, w, step).sent == w.sent + Announced(cfg, w, step)
    ensures forall y :: y in w.nodes && y != step.node ==> y in Next(cfg, w, step).nodes && Next(cfg, w, step).nodes[y] == w.nodes[y]
    ensures Next(cfg, w, step).nodes.Keys == w.nodes.Keys
  {
    assert w.sent + [] == w.sent;
  }

  lemma MoveKeepsGenuine(cfg: Config, faulty: set<PeerId>, s: Scene, m: Move)
    requires Genuine(cfg, faulty, s) && (m.Inject? ==> Obtainable(faulty, s.made, m.packet))
    ensures Genuine(cfg, faulty, NextScene(cfg, s, m))
  {
    var s' := NextScene(cfg, s, m);
    if m.Act? {
      SentByStep(cfg, s.world, m.step);
      AnnouncedObtainable(faulty, s.made, Announced(cfg, s.world, m.step));
      forall x | x in s'.world.nodes ensures NodeGenuine(cfg, faulty, s'.made, s'.world.nodes[x]) {
        if x == m.step.node {
          NodeStaysGenuine(cfg, faulty, s, m.step);
        } else {
          assert NodeGenuine(cfg, faulty, s.made, s.world.nodes[x]);
        }
      }
    }
  }

  lemma {:induction false} RunGenuine(cfg: Config, faulty: set<PeerId>, peers: set<PeerId>, moves: seq<Move>, n: nat)
    requires Unforged(cfg, faulty, peers, moves) && n <= |moves|
    ensures Genuine(cfg, faulty, RunScene(cfg, peers, moves[..n]))
  {
    if n > 0 {
      RunGenuine(cfg, faulty, peers, moves, n - 1);
      assert moves[..n][..n - 1] == moves[..n - 1] && UnforgedAt(cfg, faulty, peers, moves, n - 1);
      MoveKeepsGenuine(cfg, faulty, RunScene(cfg, peers, moves[..n - 1]), moves[n - 1]);
    }
  }

  /** The validators whose own node signed the hash. */
  function Signers(cfg: Config, faulty: set<PeerId>, made: set<(PeerId, BlockHash)>, hash: BlockHash): set<PeerId> {
    set v | v in cfg.validators && v !in faulty && (v, hash) in made
  }

  lemma QuorumSigned(cfg: Config, faulty: set<PeerId>, made: set<(PeerId, BlockHash)>, s: NodeState, hash: BlockHash)
    requires ApprovalsGenuine(cfg, faulty, made, s) && HasReachedQuorum(s, hash, cfg.quorum)
    ensures |Signers(cfg, faulty, made, hash)| >= cfg.quorum - |cfg.validators * faulty|
  {
    var approvers := ApprovalsFor(s, hash).Keys;
    assert |approvers| == |ApprovalsFor(s, hash)|;
    assert approvers == (approvers - faulty) + approvers * faulty;
    SubsetSize(approvers - faulty, Signers(cfg, faulty, made, hash));
    SubsetSize(approvers * faulty, cfg.validators * faulty);
  }

  lemma LeadingQuorum(cfg: Config, s: Scene, step: Step, hash: BlockHash)
    requires Leads(cfg, s.world, step, hash)
    ensures var w' := NextScene(cfg, s, Act(step)).world;
            step.node in w'.nodes && HasReachedQuorum(w'.nodes[step.node].state, hash, cfg.quorum)
  {
  }

  /** With faulty participants that send anything but cannot forge signatures, a hash is led
      only when all but the faulty part of a quorum signed it. */
  lemma LedHonestly(cfg: Config, faulty: set<PeerId>, peers: set<PeerId>, moves: seq<Move>, n: nat, hash: BlockHash)
    requires Unforged(cfg, faulty, peers, moves) && n < |moves| && moves[n].Act?
    requires Leads(cfg, RunScene(cfg, peers, moves[..n]).world, moves[n].step, hash)
    ensures |Signers(cfg, faulty, RunScene(cfg, peers, moves[..n + 1]).made, hash)| >= cfg.quorum - |cfg.validators * faulty|
  {
    var s, y := RunScene(cfg, peers, moves[..n]), moves[n].step.node;
    RunGenuine(cfg, faulty, peers, moves, n);
    assert moves[..n + 1][..n] == moves[..n];
    LeadingQuorum(cfg, s, moves[n].step, hash);
    NodeStaysGenuine(cfg, faulty, s, moves[n].step);
    var s' := NextScene(cfg, s, moves[n]);
    QuorumSigned(cfg, faulty, s'.made, s'.world.nodes[y].state, hash);
  }

  // ---------------------------------------------------------------------------
  // The guard is needed

  lemma RunSnoc(cfg: Config, peers: set<PeerId>, moves: seq<Move>, m: Move)
    ensures RunScene(cfg, peers, moves + [m]) == NextScene(cfg, RunScene(cfg, peers, moves), m)
  {
    assert (moves + [m])[..|moves|] == moves;
  }

  lemma UnforgedSnoc(cfg: Config, faulty: set<PeerId>, peers: set<PeerId>, moves: seq<Move>, m: Move)
    requires Unforged(cfg, faulty, peers, moves)
    requires m.Act? || Obtainable(faulty, RunScene(cfg, peers, moves).made, m.packet)
    ensures Unforged(cfg, faulty, peers, moves + [m])
  {
    var all := moves + [m];
    forall n | 0 <= n < |all| ensures UnforgedAt(cfg, faulty, peers, all, n) {
      if n < |moves| {
        assert all[..n] == moves[..n] && all[n] == moves[n] && UnforgedAt(cfg, faulty, peers, moves, n);
      } else {
        assert all[..n] == moves;
      }
    }
  }

  /** Node `x` has nothing to do and knows nothing of the hash from `v`. */
  predicate Waits(w: World, x: PeerId, v: PeerId, hash: BlockHash) {
    x in w.nodes && w.nodes[x].inbox == [] && (v, hash) !in w.nodes[x].processed
  }

  /** The finalization is put on the wire, received and handled. */
  lemma InjectedFinalization(cfg: Config, s: Scene, v: PeerId, hash: BlockHash, x: PeerId)
    requires v in cfg.validators && Waits(s.world, x, v, hash)
    ensures var s1 := NextScene(cfg, s, Inject(Spec.SignedFinalization(v, hash)));
            var s2 := NextScene(cfg, s1, Act(Receive(x, |s.world.sent|)));
            var s3 := NextScene(cfg, s2, Act(Process(x, ALL_OK)));
            && FinalizedSomewhere(s3.world, hash) && s3.made == s.made
            && (!HasReachedQuorum(s.world.nodes[x].state, hash, cfg.quorum) ==> s3.led == s.led)
  {
    var f := Spec.SignedFinalization(v, hash);
    var s1 := NextScene(cfg, s, Inject(f));
    var s2 := NextScene(cfg, s1, Act(Receive(x, |s.world.sent|)));
    var s3 := NextScene(cfg, s2, Act(Process(x, ALL_OK)));
    assert s1.world.sent[|s.world.sent|] == f;
    assert s2.world.nodes[x].inbox == [f] && s2.world.nodes[x].state == s.world.nodes[x].state;
    assert x in s3.world.nodes && hash in s3.world.nodes[x].state.finalized;
    assert Announced(cfg, s2.world, Process(x, ALL_OK)) == [];
  }

  /** Approval and finalization of a validator carry one signature. So wherever a run has
      come to, a single signature of one validator on a hash, made by its own node as an
      approval or by a faulty participant, lets a waiting node finalize it. */
  lemma OneSignatureSuffices(cfg: Config, faulty: set<PeerId>, peers: set<PeerId>, moves: seq<Move>, v: PeerId, hash: BlockHash,
                             x: PeerId) returns (all: seq<Move>)
    requires Unforged(cfg, faulty, peers, moves) && v in cfg.validators
    requires v in faulty || (v, hash) in RunScene(cfg, peers, moves).made
    requires Waits(RunScene(cfg, peers, moves).world, x, v, hash)
    ensures moves <= all && Unforged(cfg, faulty, peers, all)
    ensures var s, s' := RunScene(cfg, peers, moves), RunScene(cfg, peers, all);
            && FinalizedSomewhere(s'.world, hash) && s'.made == s.made
            && (!HasReachedQuorum(s.world.nodes[x].state, hash, cfg.quorum) ==> s'.led == s.led)
  {
    var f := Spec.SignedFinalization(v, hash);
    var k := |RunScene(cfg, peers, moves).world.sent|;
    var m1 := moves + [Inject(f)];
    var m2 := m1 + [Act(Receive(x, k))];
    all := m2 + [Act(Process(x, ALL_OK))];
    UnforgedSnoc(cfg, faulty, peers, moves, Inject(f));
    UnforgedSnoc(cfg, faulty, peers, m1, Act(Receive(x, k)));
    UnforgedSnoc(cfg, faulty, peers, m2, Act(Process(x, ALL_OK)));
    RunSnoc(cfg, peers, moves, Inject(f));
    RunSnoc(cfg, peers, m1, Act(Receive(x, k)));
    RunSnoc(cfg, peers, m2, Act(Process(x, ALL_OK)));
    InjectedFinalization(cfg, RunScene(cfg, peers, moves), v, hash, x);
  }

  /** Four faultless validators: one proposes and one approves. That is enough for a node to
      finalize what nobody led. */
  lemma ToleranceFails(hash: BlockHash, data: Bytes) returns (moves: seq<Move>)
    ensures var peers := {"a", "b", "c", "d"};
            var cfg := Config(peers, DefaultQuorum(4));
            var s := RunScene(cfg, peers, moves);
            && Unforged(cfg, {}, peers, moves)
            && FinalizedSomewhere(s.world, hash) && s.led == {} && s.made == {("a", hash + data), ("b", hash)}
  {
    var peers := {"a", "b", "c", "d"};
    var cfg := Config(peers, DefaultQuorum(4));
    var proposed := Proposing(cfg, peers, hash, data);
    var approved := Approving(cfg, peers, proposed, hash, data);
    moves := OneSignatureSuffices(cfg, {}, peers, approved, "b", hash, "c");
  }

  /** The world after "a" proposed to a "b" that takes it as leader. */
  predicate Proposed(s: Scene, hash: BlockHash, data: Bytes) {
    && s.world.sent == [Spec.SignedProposal("a", hash, data)]
    && s.led == {} && s.made == {("a", hash + data)}
    && "b" in s.world.nodes && s.world.nodes["b"] == Spec.NEW_NODE.(leader := "a")
    && "c" in s.world.nodes && s.world.nodes["c"] == Spec.NEW_NODE
  }

  lemma Proposing(cfg: Config, peers: set<PeerId>, hash: BlockHash, data: Bytes) returns (moves: seq<Move>)
    requires peers == {"a", "b", "c", "d"}
    ensures Unforged(cfg, {}, peers, moves) && Proposed(RunScene(cfg, peers, moves), hash, data)
  {
    var elect, propose := Act(Elect("b", "a")), Act(Propose("a", hash, data, ALL_OK));
    moves := [elect] + [propose];
    UnforgedSnoc(cfg, {}, peers, [], elect);
    UnforgedSnoc(cfg, {}, peers, [elect], propose);
    RunSnoc(cfg, peers, [], elect);
    RunSnoc(cfg, peers, [elect], propose);
    assert [] + [elect] == [elect];
    ProposingScene(cfg, peers, hash, data);
  }

  lemma ProposingScene(cfg: Config, peers: set<PeerId>, hash: BlockHash, data: Bytes)
    requires peers == {"a", "b", "c", "d"}
    ensures var s1 := NextScene(cfg, Scene(Initial(peers), {}, {}), Act(Elect("b", "a")));
            Proposed(NextScene(cfg, s1, Act(Propose("a", hash, data, ALL_OK))), hash, data)
  {
    var p := Spec.SignedProposal("a", hash, data);
    var s1 := NextScene(cfg, Scene(Initial(peers), {}, {}), Act(Elect("b", "a")));
    assert s1.world.nodes["a"] == Spec.NEW_NODE && s1.world.sent == [] && s1.made == {} && s1.led == {};
    assert Announced(cfg, s1.world, Propose("a", hash, data, ALL_OK)) == [p] && Signatures([p]) == {("a", hash + data)};
  }

  lemma Approving(cfg: Config, peers: set<PeerId>, before: seq<Move>, hash: BlockHash, data: Bytes) returns (moves: seq<Move>)
    requires Unforged(cfg, {}, peers, before) && Proposed(RunScene(cfg, peers, before), hash, data)
    requires "a" in cfg.validators && "b" in cfg.validators
    ensures Unforged(cfg, {}, peers, moves)
    ensures var s := RunScene(cfg, peers, moves);
            s.led == {} && s.made == {("a", hash + data), ("b", hash)} &&
            "c" in s.world.nodes && s.world.nodes["c"] == Spec.NEW_NODE
  {
    var receive, process := Act(Receive("b", 0)), Act(Process("b", ALL_OK));
    var m1 := before + [receive];
    moves := m1 + [process];
    UnforgedSnoc(cfg, {}, peers, before, receive);
    UnforgedSnoc(cfg, {}, peers, m1, process);
    RunSnoc(cfg, peers, before, receive);
    RunSnoc(cfg, peers, m1, process);
    ApprovingScene(cfg, RunScene(cfg, peers, before), hash, data);
  }

  lemma ApprovingScene(cfg: Config, s: Scene, hash: BlockHash, data: Bytes)
    requires Proposed(s, hash, data) && "a" in cfg.validators && "b" in cfg.validators
    ensures var s2 := NextScene(cfg, NextScene(cfg, s, Act(Receive("b", 0))), Act(Process("b", ALL_OK)));
            && s2.led == {} && s2.made == {("a", hash + data), ("b", hash)}
            && "c" in s2.world.nodes && s2.world.nodes["c"] == Spec.NEW_NODE
  {
    var p, q := Spec.SignedProposal("a", hash, data), ApprovalPacket("b", hash);
    var s1 := NextScene(cfg, s, Act(Receive("b", 0)));
    assert s1.world.nodes["b"].inbox == [p];
    assert Announced(cfg, s1.world, Process("b", ALL_OK)) == [q] && Signatures([q]) == {("b", hash)};
  }
}
