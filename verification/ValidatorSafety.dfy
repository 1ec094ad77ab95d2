/** Runs of the leader-driven consensus. Leaders are elected at each node on its own,
    at any time; packets are those nodes broadcast, delivered in any order and any
    number of times. */
module ValidatorSafety {
  import opened Common
  import opened ConsensusSpec
  import Spec = ValidatorSpec

  datatype World = World(nodes: map<PeerId, Spec.Node>, sent: seq<Packet>)

  datatype Step =
    | Elect(node: PeerId, leader: PeerId)
    | Propose(node: PeerId, hash: BlockHash, data: Bytes, io: Io)
    | Receive(node: PeerId, index: nat)
    | Process(node: PeerId, io: Io)

  function Initial(peers: set<PeerId>): World {
    World(map p | p in peers :: Spec.NEW_NODE, [])
  }

  function Put(w: World, x: PeerId, e: Spec.Effect): World {
    World(w.nodes[x := e.node], w.sent + e.sent)
  }

  function Next(cfg: Config, w: World, step: Step): World {
    if step.node !in w.nodes then w
    else
      var x, n := step.node, w.nodes[step.node];
      match step
      case Elect(_, leader) => w.(nodes := w.nodes[x := n.(leader := leader)])
      case Propose(_, hash, data, io) => Put(w, x, Spec.ProposeBlock(x, n, hash, data, io))
      case Receive(_, i) => if i >= |w.sent| then w else w.(nodes := w.nodes[x := Spec.Receive(cfg, n, w.sent[i])])
      case Process(_, io) => Put(w, x, Spec.Process(cfg, x, n, io))
  }

  function Run(cfg: Config, peers: set<PeerId>, steps: seq<Step>): World
    decreases |steps|
  {
    if steps == [] then Initial(peers)
    else Next(cfg, Run(cfg, peers, steps[..|steps| - 1]), steps[|steps| - 1])
  }

  // ---------------------------------------------------------------------------
  // What a step shows

  /** In this step validator `v` accepts a proposal of `hash` from the node it takes as
      leader at that moment, and sends its approval. */
  predicate Accepts(cfg: Config, w: World, step: Step, v: PeerId, hash: BlockHash) {
    && step.Process? && step.node == v && v in w.nodes && v in cfg.validators && w.nodes[v].inbox != []
    && w.nodes[v].inbox[0].ptype.Proposal? && w.nodes[v].inbox[0].hash == hash
    && w.nodes[v].inbox[0].proposer == w.nodes[v].leader
    && ApprovalPacket(v, hash) in Spec.Process(cfg, v, w.nodes[v], step.io).sent
  }

  /** In this step a node that takes itself as leader finalizes `hash` on a quorum of
      approvals of its own. */
  predicate Leads(cfg: Config, w: World, step: Step, hash: BlockHash) {
    && step.Process? && step.node in w.nodes
    && var y, n := step.node, w.nodes[step.node];
       var n' := Spec.Process(cfg, y, n, step.io).node;
       && n.leader == y
       && hash !in n.state.finalized && hash in n'.state.finalized
       && HasReachedQuorum(n'.state, hash, cfg.quorum)
  }

  ghost predicate FinalizedSomewhere(w: World, hash: BlockHash) {
    exists x :: x in w.nodes && hash in w.nodes[x].state.finalized
  }

  // ---------------------------------------------------------------------------
  // Approvals come from accepting validators

  ghost predicate StateFrom(cfg: Config, s: NodeState, acc: set<(PeerId, BlockHash)>) {
    forall h, v :: h in s.approvals && v in s.approvals[h] ==> v in cfg.validators && (v, h) in acc
  }

  ghost predicate PacketFrom(cfg: Config, p: Packet, acc: set<(PeerId, BlockHash)>) {
    p.ptype.Approval? && p.validator in cfg.validators ==> (p.validator, p.hash) in acc
  }

  ghost predicate InboxFrom(cfg: Config, w: World, n: Spec.Node) {
    forall p :: p in n.inbox ==> p in w.sent && Spec.VerifySignature(cfg, p)
  }

  ghost predicate Inv(cfg: Config, w: World, acc: set<(PeerId, BlockHash)>) {
    && (forall x :: x in w.nodes ==> StateFrom(cfg, w.nodes[x].state, acc) && InboxFrom(cfg, w, w.nodes[x]))
    && (forall p :: p in w.sent ==> PacketFrom(cfg, p, acc))
    && (forall p :: p in w.sent && p.ptype.Finalization? ==> FinalizedSomewhere(w, p.hash))
  }

  function AcceptedIn(cfg: Config, w: World, step: Step): set<(PeerId, BlockHash)> {
    if step.Process? && step.node in w.nodes && w.nodes[step.node].inbox != [] &&
       Accepts(cfg, w, step, step.node, w.nodes[step.node].inbox[0].hash)
    then {(step.node, w.nodes[step.node].inbox[0].hash)} else {}
  }

  /** What handling one queued packet does: its approvals and packets are accounted
      for, and a new finalization is led or was told. */
  lemma HandleExplained(cfg: Config, x: PeerId, leader: PeerId, s: NodeState, p: Packet, io: Io, acc: set<(PeerId, BlockHash)>)
    requires StateFrom(cfg, s, acc) && PacketFrom(cfg, p, acc) && Spec.VerifySignature(cfg, p)
    ensures var (s', sent) := Spec.Handle(cfg, x, leader, s, p, io);
            var acc' := acc + if x in cfg.validators && ApprovalPacket(x, p.hash) in sent then {(x, p.hash)} else {};
            && StateFrom(cfg, s', acc')
            && (forall q :: q in sent ==> PacketFrom(cfg, q, acc'))
            && (forall q :: q in sent && q.ptype.Finalization? ==> q.hash in s'.finalized)
            && s.finalized <= s'.finalized
            && (p.ptype.Approval? ==> sent == [] || sent == [Spec.SignedFinalization(x, p.hash)])
            && forall h :: h in s'.finalized - s.finalized ==>
                 (p.ptype.Finalization? && h == p.hash) || (leader == x && HasReachedQuorum(s', h, cfg.quorum))
  {
    match p.ptype
    case Proposal =>
      var s1 := AddProposal(s, p, io.proposalStored).0;
      assert s1.approvals == s.approvals && s1.finalized == s.finalized;
      if Spec.HandleProposal(cfg, x, leader, s, p, io).1 != [] {
        assert Spec.HandleProposal(cfg, x, leader, s, p, io).1 == [ApprovalPacket(x, p.hash)];
      }
    case Approval =>
    case Finalization =>
    case OtherType(_) =>
  }

  /** A processing step, seen from its node. */
  lemma ProcessExplained(cfg: Config, w: World, step: Step, acc: set<(PeerId, BlockHash)>)
    requires Inv(cfg, w, acc) && step.Process? && step.node in w.nodes && w.nodes[step.node].inbox != []
    ensures var x, n := step.node, w.nodes[step.node];
            var e := Spec.Process(cfg, x, n, step.io);
            var acc' := acc + AcceptedIn(cfg, w, step);
            && StateFrom(cfg, e.node.state, acc') && InboxFrom(cfg, w, e.node)
            && (forall q :: q in e.sent ==> PacketFrom(cfg, q, acc'))
            && (forall q :: q in e.sent && q.ptype.Finalization? ==> q.hash in e.node.state.finalized)
            && n.state.finalized <= e.node.state.finalized
            && forall h :: h in e.node.state.finalized - n.state.finalized ==>
                 Leads(cfg, w, step, h) || FinalizedSomewhere(w, h)
  {
    var x, n := step.node, w.nodes[step.node];
    var p := n.inbox[0];
    assert p in w.sent && PacketFrom(cfg, p, acc) && Spec.VerifySignature(cfg, p);
    HandleExplained(cfg, x, n.leader, n.state, p, step.io, acc);
    var sent := Spec.Process(cfg, x, n, step.io).sent;
    assert ApprovalPacket(x, p.hash) in sent && x in cfg.validators ==> Accepts(cfg, w, step, x, p.hash);
  }

  lemma ProposeExplained(cfg: Config, n: Spec.Node, x: PeerId, hash: BlockHash, data: Bytes, io: Io)
    ensures var e := Spec.ProposeBlock(x, n, hash, data, io);
            && e.node.state.approvals == n.state.approvals && e.node.state.finalized == n.state.finalized
            && e.node.inbox == n.inbox
            && (forall p :: p in e.sent ==> p.ptype.Proposal?)
  {
  }

  lemma PutKeepsInv(cfg: Config, w: World, x: PeerId, e: Spec.Effect, acc: set<(PeerId, BlockHash)>, acc': set<(PeerId, BlockHash)>)
    requires Inv(cfg, w, acc) && acc <= acc' && x in w.nodes
    requires StateFrom(cfg, e.node.state, acc') && InboxFrom(cfg, w, e.node)
    requires forall p :: p in e.sent ==> PacketFrom(cfg, p, acc')
    requires forall p :: p in e.sent && p.ptype.Finalization? ==> p.hash in e.node.state.finalized
    requires w.nodes[x].state.finalized <= e.node.state.finalized
    ensures Inv(cfg, Put(w, x, e), acc')
    ensures forall h :: FinalizedSomewhere(w, h) ==> FinalizedSomewhere(Put(w, x, e), h)
  {
    var w' := Put(w, x, e);
    forall h | FinalizedSomewhere(w, h) ensures FinalizedSomewhere(w', h) {
      var y :| y in w.nodes && h in w.nodes[y].state.finalized;
      assert y in w'.nodes && h in w'.nodes[y].state.finalized;
    }
    forall p | p in w'.sent && p.ptype.Finalization? ensures FinalizedSomewhere(w', p.hash) {
      if p !in w.sent {
        assert x in w'.nodes && p.hash in w'.nodes[x].state.finalized;
      }
    }
    forall p | p in w'.sent ensures PacketFrom(cfg, p, acc') {
      assert p in w.sent ==> PacketFrom(cfg, p, acc);
    }
    forall y | y in w'.nodes ensures StateFrom(cfg, w'.nodes[y].state, acc') && InboxFrom(cfg, w', w'.nodes[y]) {
      if y != x {
        assert StateFrom(cfg, w.nodes[y].state, acc) && InboxFrom(cfg, w, w.nodes[y]);
      }
    }
  }

  lemma NextKeepsInv(cfg: Config, w: World, step: Step, acc: set<(PeerId, BlockHash)>)
    requires Inv(cfg, w, acc)
    ensures Inv(cfg, Next(cfg, w, step), acc + AcceptedIn(cfg, w, step))
    ensures forall h :: FinalizedSomewhere(w, h) ==> FinalizedSomewhere(Next(cfg, w, step), h)
  {
    var acc' := acc + AcceptedIn(cfg, w, step);
    if step.node in w.nodes {
      var x, n := step.node, w.nodes[step.node];
      assert StateFrom(cfg, n.state, acc) && InboxFrom(cfg, w, n);
      match step
      case Elect(_, leader) =>
        PutKeepsInv(cfg, w, x, Spec.Effect(n.(leader := leader), []), acc, acc');
        assert w.sent + [] == w.sent;
      case Propose(_, hash, data, io) =>
        ProposeExplained(cfg, n, x, hash, data, io);
        PutKeepsInv(cfg, w, x, Spec.ProposeBlock(x, n, hash, data, io), acc, acc');
      case Receive(_, i) =>
        if i < |w.sent| {
          PutKeepsInv(cfg, w, x, Spec.Effect(Spec.Receive(cfg, n, w.sent[i]), []), acc, acc');
          assert w.sent + [] == w.sent;
        }
      case Process(_, io) =>
        if n.inbox != [] {
          ProcessExplained(cfg, w, step, acc);
        }
        PutKeepsInv(cfg, w, x, Spec.Process(cfg, x, n, io), acc, acc');
    }
  }

  /** A hash finalized nowhere before is led. */
  lemma NewFinalizationLed(cfg: Config, w: World, step: Step, acc: set<(PeerId, BlockHash)>, hash: BlockHash)
    requires Inv(cfg, w, acc)
    requires !FinalizedSomewhere(w, hash) && FinalizedSomewhere(Next(cfg, w, step), hash)
    ensures Leads(cfg, w, step, hash) && step.node in Next(cfg, w, step).nodes
  {
    var w' := Next(cfg, w, step);
    var y :| y in w'.nodes && hash in w'.nodes[y].state.finalized;
    assert y in w.nodes ==> hash !in w.nodes[y].state.finalized;
    var x, n := step.node, w.nodes[step.node];
    match step
    case Elect(_, leader) =>
    case Propose(_, h, data, io) => ProposeExplained(cfg, n, x, h, data, io);
    case Receive(_, i) =>
    case Process(_, io) =>
      if n.inbox != [] {
        ProcessExplained(cfg, w, step, acc);
      }
  }

  // ---------------------------------------------------------------------------
  // Whole runs

  /** Step `j` of the run is where `v` accepted `hash`. */
  predicate AcceptedAt(cfg: Config, peers: set<PeerId>, steps: seq<Step>, j: nat, v: PeerId, hash: BlockHash)
    requires j < |steps|
  {
    Accepts(cfg, Run(cfg, peers, steps[..j]), steps[j], v, hash)
  }

  ghost predicate AcceptedBefore(cfg: Config, peers: set<PeerId>, steps: seq<Step>, k: nat, v: PeerId, hash: BlockHash)
    requires k <= |steps|
  {
    exists j :: 0 <= j < k && AcceptedAt(cfg, peers, steps, j, v, hash)
  }

  function AcceptedInRun(cfg: Config, peers: set<PeerId>, steps: seq<Step>): set<(PeerId, BlockHash)>
    decreases |steps|
  {
    if steps == [] then {}
    else
      var before := steps[..|steps| - 1];
      AcceptedInRun(cfg, peers, before) + AcceptedIn(cfg, Run(cfg, peers, before), steps[|steps| - 1])
  }

  lemma {:induction false} RunInv(cfg: Config, peers: set<PeerId>, steps: seq<Step>)
    ensures Inv(cfg, Run(cfg, peers, steps), AcceptedInRun(cfg, peers, steps))
    decreases |steps|
  {
    if steps != [] {
      var before := steps[..|steps| - 1];
      RunInv(cfg, peers, before);
      NextKeepsInv(cfg, Run(cfg, peers, before), steps[|steps| - 1], AcceptedInRun(cfg, peers, before));
    }
  }

  lemma {:induction false} AcceptedInRunAt(cfg: Config, peers: set<PeerId>, steps: seq<Step>, k: nat, v: PeerId, hash: BlockHash)
    requires k <= |steps| && (v, hash) in AcceptedInRun(cfg, peers, steps[..k])
    ensures AcceptedBefore(cfg, peers, steps, k, v, hash)
    decreases k
  {
    if k > 0 {
      assert steps[..k][..k - 1] == steps[..k - 1];
      if (v, hash) in AcceptedInRun(cfg, peers, steps[..k - 1]) {
        AcceptedInRunAt(cfg, peers, steps, k - 1, v, hash);
      } else {
        assert AcceptedAt(cfg, peers, steps, k - 1, v, hash);
      }
    }
  }

  /** The step at which `hash` is first finalized anywhere: a node that takes itself as
      leader does it, holding a quorum of approvals by distinct validators, each of
      which had accepted a proposal of the hash from the node it then took as leader. */
  ghost predicate FirstFinalization(cfg: Config, peers: set<PeerId>, steps: seq<Step>, k: nat, hash: BlockHash)
    requires k < |steps|
  {
    var w, w' := Run(cfg, peers, steps[..k]), Run(cfg, peers, steps[..k + 1]);
    && !FinalizedSomewhere(w, hash)
    && Leads(cfg, w, steps[k], hash)
    && steps[k].node in w'.nodes
    && var approvers := ApprovalsFor(w'.nodes[steps[k].node].state, hash).Keys;
       && |approvers| >= cfg.quorum && approvers <= cfg.validators
       && forall v :: v in approvers ==> AcceptedBefore(cfg, peers, steps, k, v, hash)
  }

  lemma FirstFinalizationAt(cfg: Config, peers: set<PeerId>, steps: seq<Step>, k: nat, hash: BlockHash)
    requires k < |steps|
    requires !FinalizedSomewhere(Run(cfg, peers, steps[..k]), hash)
    requires FinalizedSomewhere(Run(cfg, peers, steps[..k + 1]), hash)
    ensures FirstFinalization(cfg, peers, steps, k, hash)
  {
    var w, w' := Run(cfg, peers, steps[..k]), Run(cfg, peers, steps[..k + 1]);
    assert steps[..k + 1][..k] == steps[..k];
    assert w' == Next(cfg, w, steps[k]);
    var acc := AcceptedInRun(cfg, peers, steps[..k]);
    RunInv(cfg, peers, steps[..k]);
    NewFinalizationLed(cfg, w, steps[k], acc, hash);
    LedOnAccepted(cfg, w, steps[k], acc, hash);
    var approvers := ApprovalsFor(w'.nodes[steps[k].node].state, hash).Keys;
    assert |approvers| == |ApprovalsFor(w'.nodes[steps[k].node].state, hash)|;
    forall v | v in approvers ensures AcceptedBefore(cfg, peers, steps, k, v, hash) {
      AcceptedInRunAt(cfg, peers, steps, k, v, hash);
    }
  }

  /** Proposals finalize nothing, so a step that leads handles an approval, or a
      finalization it was told of. */
  lemma LeadsHandles(cfg: Config, w: World, step: Step, hash: BlockHash)
    requires Leads(cfg, w, step, hash)
    ensures w.nodes[step.node].inbox != []
    ensures var p := w.nodes[step.node].inbox[0];
            p.ptype.Approval? || (p.ptype.Finalization? && p.hash == hash)
  {
  }

  lemma LeadsAcceptsNothing(cfg: Config, w: World, step: Step, acc: set<(PeerId, BlockHash)>, hash: BlockHash)
    requires Inv(cfg, w, acc) && Leads(cfg, w, step, hash) && !FinalizedSomewhere(w, hash)
    ensures AcceptedIn(cfg, w, step) == {}
  {
    LeadsHandles(cfg, w, step, hash);
    assert InboxFrom(cfg, w, w.nodes[step.node]);
    assert w.nodes[step.node].inbox[0] in w.sent;
  }

  lemma ApproversAccepted(cfg: Config, w: World, x: PeerId, acc: set<(PeerId, BlockHash)>, hash: BlockHash)
    requires Inv(cfg, w, acc) && x in w.nodes
    ensures forall v :: v in ApprovalsFor(w.nodes[x].state, hash) ==> v in cfg.validators && (v, hash) in acc
  {
    assert StateFrom(cfg, w.nodes[x].state, acc);
  }

  /** The step that leads a finalization accepts nothing new itself. */
  lemma LedOnAccepted(cfg: Config, w: World, step: Step, acc: set<(PeerId, BlockHash)>, hash: BlockHash)
    requires Inv(cfg, w, acc) && Leads(cfg, w, step, hash) && !FinalizedSomewhere(w, hash)
    requires step.node in Next(cfg, w, step).nodes
    ensures var w' := Next(cfg, w, step);
            forall v :: v in ApprovalsFor(w'.nodes[step.node].state, hash) ==> v in cfg.validators && (v, hash) in acc
  {
    LeadsAcceptsNothing(cfg, w, step, acc, hash);
    NextKeepsInv(cfg, w, step, acc);
    assert acc + AcceptedIn(cfg, w, step) == acc;
    ApproversAccepted(cfg, Next(cfg, w, step), step.node, acc, hash);
  }

  /** Over every run: whatever is finalized anywhere was first finalized that way. */
  lemma {:induction false} FinalizedLedFirst(cfg: Config, peers: set<PeerId>, steps: seq<Step>, hash: BlockHash) returns (k: nat)
    requires FinalizedSomewhere(Run(cfg, peers, steps), hash)
    ensures k < |steps| && FirstFinalization(cfg, peers, steps, k, hash)
  {
    k := |steps|;
    assert steps[..k] == steps;
    while FinalizedSomewhere(Run(cfg, peers, steps[..k]), hash)
      invariant k <= |steps|
      invariant k < |steps| ==> FinalizedSomewhere(Run(cfg, peers, steps[..k + 1]), hash)
      decreases k
    {
      assert k > 0 by { assert steps[..0] == []; }
      k := k - 1;
    }
    FirstFinalizationAt(cfg, peers, steps, k, hash);
  }
}
