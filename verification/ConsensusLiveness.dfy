/** One proposal among n validators, some of which may be silent, when nothing else fails
    and approvals are only the automatic ones: how many packets are sent, that delivery
    quiesces, and exactly when every live node ends up with the hash finalized. */
module ConsensusLiveness {
  import opened Common
  import opened ConsensusSpec
  import opened ConsensusRuns
  import Outcomes = ConsensusOutcomes

  /** `origin` proposes in the name of `leader`; normally they are one node, but the
      protocol does not require it. Validators that are not `live` never act. */
  datatype Round = Round(validators: set<PeerId>, live: set<PeerId>, leader: PeerId, origin: PeerId,
                         hash: BlockHash, data: Bytes)
  {
    function Cfg(): Config { Config(validators, DefaultQuorum(|validators|)) }

    ghost predicate Valid() { leader in validators && live <= validators && origin in live }

    /** The nodes that approve automatically: neither the named proposer nor the node
        that already holds the proposal. */
    function AutoApprovers(): set<PeerId> { live - {leader, origin} }

    function Proposal(): Packet { ProposalPacket(leader, hash, data) }

    function Start(): World {
      Next(Cfg(), Initial(live), Propose(origin, leader, hash, data, ALL_OK))
    }
  }

  type Delivery = (nat, PeerId)

  function Deliveries(r: Round, ds: seq<Delivery>): World
    decreases |ds|
  {
    if ds == [] then r.Start()
    else
      var last := ds[|ds| - 1];
      Next(r.Cfg(), Deliveries(r, ds[..|ds| - 1]), Deliver(last.1, last.0, ALL_OK))
  }

  // ---------------------------------------------------------------------------
  // What a node shows of the round

  /** Whether the node holds the proposal, whose approvals it has, whether it has
      finalized the hash. */
  datatype View = View(has: bool, approvers: set<PeerId>, fin: bool)

  datatype Net = Net(views: map<PeerId, View>, sent: seq<Packet>)

  function ViewOf(r: Round, s: NodeState): View {
    View(r.hash in s.proposals, ApprovalsFor(s, r.hash).Keys, r.hash in s.finalized)
  }

  function NetOf(r: Round, w: World): Net {
    Net(map x | x in w.nodes :: ViewOf(r, w.nodes[x]), w.sent)
  }

  /** Recording an approval, and the finalization that may follow. */
  function Count(r: Round, v: View, approver: PeerId): (View, seq<Packet>) {
    var approvers := v.approvers + {approver};
    if |approvers| >= r.Cfg().quorum && !v.fin then (View(v.has, approvers, true), [FinalizationPacket(r.hash)])
    else (v.(approvers := approvers), [])
  }

  function See(r: Round, x: PeerId, v: View, p: Packet): (View, seq<Packet>) {
    match p.ptype
    case Proposal =>
      if v.has then (v, [])
      else if x == r.leader then (v.(has := true), [])
      else
        var (v1, sent) := Count(r, v.(has := true), x);
        (v1, [ApprovalPacket(x, r.hash)] + sent)
    case Approval => Count(r, v, p.validator)
    case Finalization => if v.fin then (v, []) else (v.(fin := true), [FinalizationPacket(r.hash)])
    case OtherType(_) => (v, [])
  }

  /** The packets a round can contain. */
  predicate RoundPacket(r: Round, p: Packet) {
    || p == r.Proposal()
    || p == FinalizationPacket(r.hash)
    || (p.ptype.Approval? && p.validator in r.live && p == ApprovalPacket(p.validator, r.hash))
  }

  lemma CountExact(r: Round, s: NodeState, approver: PeerId)
    requires approver in r.live
    ensures var s1 := AddApproval(s, ApprovalPacket(approver, r.hash), true).0;
            var o := FinalizeIfQuorum(r.Cfg(), s1, r.hash, ALL_OK);
            (ViewOf(r, o.state), o.sent) == Count(r, ViewOf(r, s), approver)
  {
    var s1 := AddApproval(s, ApprovalPacket(approver, r.hash), true).0;
    assert ApprovalsFor(s1, r.hash).Keys == ApprovalsFor(s, r.hash).Keys + {approver};
    assert |ApprovalsFor(s1, r.hash)| == |ApprovalsFor(s1, r.hash).Keys|;
  }

  lemma SeeExact(r: Round, x: PeerId, s: NodeState, p: Packet)
    requires r.Valid() && x in r.live && RoundPacket(r, p)
    ensures var o := HandleMessage(r.Cfg(), x, s, p, ALL_OK);
            (ViewOf(r, o.state), o.sent) == See(r, x, ViewOf(r, s), p)
  {
    match p.ptype
    case Proposal =>
      var s1 := AddProposal(s, p, true).0;
      assert ApprovalsFor(s1, r.hash) == ApprovalsFor(s, r.hash);
      assert ViewOf(r, s1) == ViewOf(r, s).(has := true);
      CountExact(r, s1, x);
    case Approval => CountExact(r, s, p.validator);
    case Finalization =>
    case OtherType(_) =>
  }

  function NetNext(r: Round, n: Net, d: Delivery): Net {
    if d.0 >= |n.sent| || d.1 !in n.views then n
    else
      var (v, sent) := See(r, d.1, n.views[d.1], n.sent[d.0]);
      Net(n.views[d.1 := v], n.sent + sent)
  }

  lemma NetOfApply(r: Round, w: World, x: PeerId, o: Outcome)
    requires x in w.nodes
    ensures NetOf(r, Apply(w, x, o)) == Net(NetOf(r, w).views[x := ViewOf(r, o.state)], w.sent + o.sent)
  {
  }

  lemma NetNextExact(r: Round, w: World, d: Delivery)
    requires r.Valid() && w.nodes.Keys == r.live && forall p :: p in w.sent ==> RoundPacket(r, p)
    ensures NetOf(r, Next(r.Cfg(), w, Deliver(d.1, d.0, ALL_OK))) == NetNext(r, NetOf(r, w), d)
  {
    if d.0 < |w.sent| && d.1 in w.nodes {
      SeeExact(r, d.1, w.nodes[d.1], w.sent[d.0]);
      NetOfApply(r, w, d.1, HandleMessage(r.Cfg(), d.1, w.nodes[d.1], w.sent[d.0], ALL_OK));
    }
  }

  // ---------------------------------------------------------------------------
  // The invariant

  function Approved(r: Round, n: Net): set<PeerId>
    requires n.views.Keys == r.live
  {
    set v | v in r.AutoApprovers() && n.views[v].has
  }

  function FinalizedAt(r: Round, n: Net): set<PeerId>
    requires n.views.Keys == r.live
  {
    set x | x in r.live && n.views[x].fin
  }

  predicate ViewInv(r: Round, approved: set<PeerId>, x: PeerId, v: View) {
    && v.approvers <= approved
    && (x in approved ==> x in v.approvers)
    && (|v.approvers| >= r.Cfg().quorum ==> v.fin)
  }

  /** One proposal, and then one packet per approver and per finalizer. */
  predicate Counted(r: Round, n: Net)
    requires n.views.Keys == r.live
  {
    |n.sent| == 1 + |Approved(r, n)| + |FinalizedAt(r, n)|
  }

  predicate PacketsInv(r: Round, n: Net)
    requires n.views.Keys == r.live
  {
    && n.sent != [] && n.sent[0] == r.Proposal()
    && (forall p :: p in n.sent ==> RoundPacket(r, p) && (p.ptype.Approval? ==> p.validator in Approved(r, n)))
    && (forall v :: v in Approved(r, n) ==> ApprovalPacket(v, r.hash) in n.sent)
    && (FinalizedAt(r, n) != {} ==> FinalizationPacket(r.hash) in n.sent)
    && (FinalizationPacket(r.hash) in n.sent ==> |Approved(r, n)| >= r.Cfg().quorum)
  }

  predicate ViewsInv(r: Round, n: Net)
    requires n.views.Keys == r.live
  {
    && (r.origin in r.live ==> n.views[r.origin].has)
    && forall x :: x in r.live ==> ViewInv(r, Approved(r, n), x, n.views[x])
  }

  predicate Inv(r: Round, n: Net) {
    n.views.Keys == r.live && Counted(r, n) && PacketsInv(r, n) && ViewsInv(r, n)
  }

  // ---------------------------------------------------------------------------
  // One delivery

  /** How a delivery changes the round: node `x` now shows `view`; it may have become
      an approver, a finalizer, or both. */
  datatype Change = Change(x: PeerId, view: View, approves: bool, finalizes: bool) {
    function Sent(r: Round): seq<Packet> {
      (if approves then [ApprovalPacket(x, r.hash)] else []) + (if finalizes then [FinalizationPacket(r.hash)] else [])
    }

    function Of(r: Round, n: Net): Net { Net(n.views[x := view], n.sent + Sent(r)) }

    function Approvers(r: Round, n: Net): set<PeerId>
      requires n.views.Keys == r.live
    {
      Approved(r, n) + if approves then {x} else {}
    }

    /** The flags say what the new view shows. */
    predicate Tells(r: Round, n: Net)
      requires n.views.Keys == r.live
    {
      && x in r.live
      && (n.views[x].has ==> view.has)
      && view.fin == (n.views[x].fin || finalizes) && (finalizes ==> !n.views[x].fin)
      && (approves <==> x in r.AutoApprovers() && view.has && !n.views[x].has)
    }

    predicate Fits(r: Round, n: Net)
      requires n.views.Keys == r.live
    {
      && Tells(r, n)
      && ViewInv(r, Approvers(r, n), x, view)
      && (finalizes ==> |view.approvers| >= r.Cfg().quorum || FinalizationPacket(r.hash) in n.sent)
    }
  }

  lemma ChangedSets(r: Round, n: Net, c: Change)
    requires n.views.Keys == r.live && c.Tells(r, n)
    ensures c.Of(r, n).views.Keys == r.live
    ensures Approved(r, c.Of(r, n)) == c.Approvers(r, n)
    ensures FinalizedAt(r, c.Of(r, n)) == FinalizedAt(r, n) + if c.finalizes then {c.x} else {}
  {
    var n' := c.Of(r, n);
    assert n'.views.Keys == r.live;
    forall v ensures v in Approved(r, n') <==> v in c.Approvers(r, n) {
      if v != c.x && v in r.live { assert n'.views[v] == n.views[v]; }
    }
    forall v ensures v in FinalizedAt(r, n') <==> v in FinalizedAt(r, n) || (c.finalizes && v == c.x) {
      if v != c.x && v in r.live { assert n'.views[v] == n.views[v]; }
    }
  }

  lemma ChangedViews(r: Round, n: Net, c: Change)
    requires Inv(r, n) && c.Fits(r, n)
    ensures c.Of(r, n).views.Keys == r.live && ViewsInv(r, c.Of(r, n)) && Counted(r, c.Of(r, n))
  {
    ChangedSets(r, n, c);
    forall y | y in r.live ensures ViewInv(r, c.Approvers(r, n), y, c.Of(r, n).views[y]) {
      assert y != c.x ==> ViewInv(r, Approved(r, n), y, n.views[y]);
    }
  }

  lemma SentContains(r: Round, n: Net, c: Change)
    ensures forall p :: p in c.Of(r, n).sent ==> p in n.sent || p in c.Sent(r)
    ensures forall p :: p in n.sent ==> p in c.Of(r, n).sent
    ensures c.approves ==> ApprovalPacket(c.x, r.hash) in c.Of(r, n).sent
    ensures c.finalizes ==> FinalizationPacket(r.hash) in c.Of(r, n).sent
  {
    var sent := c.Of(r, n).sent;
    assert c.approves ==> sent[|n.sent|] == ApprovalPacket(c.x, r.hash);
    assert c.finalizes ==> sent[|sent| - 1] == FinalizationPacket(r.hash);
  }

  lemma ChangedPackets(r: Round, n: Net, c: Change)
    requires Inv(r, n) && c.Fits(r, n)
    ensures c.Of(r, n).views.Keys == r.live && PacketsInv(r, c.Of(r, n))
  {
    ChangedSets(r, n, c);
    SentContains(r, n, c);
    SubsetSize(c.view.approvers, c.Approvers(r, n));
    SubsetSize(Approved(r, n), c.Approvers(r, n));
    var n' := c.Of(r, n);
    forall p | p in n'.sent ensures RoundPacket(r, p) && (p.ptype.Approval? ==> p.validator in Approved(r, n')) {
      assert p in n.sent ==> RoundPacket(r, p);
    }
  }

  lemma ChangeKeepsInv(r: Round, n: Net, c: Change)
    requires Inv(r, n) && c.Fits(r, n)
    ensures Inv(r, c.Of(r, n))
  {
    ChangedViews(r, n, c);
    ChangedPackets(r, n, c);
  }

  lemma NoChange(n: Net, x: PeerId)
    requires x in n.views
    ensures Net(n.views[x := n.views[x]], n.sent + []) == n
  {
  }

  lemma ProposalKeepsInv(r: Round, n: Net, d: Delivery)
    requires r.Valid() && Inv(r, n) && d.1 in r.live && d.0 < |n.sent| && n.sent[d.0] == r.Proposal()
    ensures Inv(r, NetNext(r, n, d))
  {
    var x, v := d.1, n.views[d.1];
    assert ViewInv(r, Approved(r, n), x, v);
    if v.has {
      NoChange(n, x);
    } else if x == r.leader {
      ChangeKeepsInv(r, n, Change(x, v.(has := true), false, false));
    } else {
      var approvers := v.approvers + {x};
      var finalizes := |approvers| >= r.Cfg().quorum && !v.fin;
      ChangeKeepsInv(r, n, Change(x, View(true, approvers, v.fin || finalizes), true, finalizes));
    }
  }

  lemma NextByApproval(r: Round, n: Net, d: Delivery) returns (c: Change)
    requires d.1 in n.views && d.0 < |n.sent| && n.sent[d.0].ptype.Approval?
    ensures c.Of(r, n) == NetNext(r, n, d)
    ensures var v := n.views[d.1];
            var approvers := v.approvers + {n.sent[d.0].validator};
            var finalizes := |approvers| >= r.Cfg().quorum && !v.fin;
            c == Change(d.1, View(v.has, approvers, v.fin || finalizes), false, finalizes)
  {
    var v := n.views[d.1];
    var approvers := v.approvers + {n.sent[d.0].validator};
    var finalizes := |approvers| >= r.Cfg().quorum && !v.fin;
    c := Change(d.1, View(v.has, approvers, v.fin || finalizes), false, finalizes);
  }

  lemma ApprovalKeepsInv(r: Round, n: Net, d: Delivery)
    requires r.Valid() && Inv(r, n) && d.1 in r.live && d.0 < |n.sent| && n.sent[d.0].ptype.Approval?
    ensures Inv(r, NetNext(r, n, d))
  {
    var c := NextByApproval(r, n, d);
    assert ViewInv(r, Approved(r, n), d.1, n.views[d.1]);
    ChangeKeepsInv(r, n, c);
  }

  lemma FinalizationKeepsInv(r: Round, n: Net, d: Delivery)
    requires r.Valid() && Inv(r, n) && d.1 in r.live && d.0 < |n.sent| && n.sent[d.0] == FinalizationPacket(r.hash)
    ensures Inv(r, NetNext(r, n, d))
  {
    var x, v := d.1, n.views[d.1];
    assert ViewInv(r, Approved(r, n), x, v);
    if v.fin {
      NoChange(n, x);
    } else {
      ChangeKeepsInv(r, n, Change(x, v.(fin := true), false, true));
    }
  }

  lemma DeliveryKeepsInv(r: Round, n: Net, d: Delivery)
    requires r.Valid() && Inv(r, n)
    ensures Inv(r, NetNext(r, n, d))
  {
    if d.0 < |n.sent| && d.1 in n.views {
      var p := n.sent[d.0];
      assert RoundPacket(r, p);
      match p.ptype
      case Proposal => ProposalKeepsInv(r, n, d);
      case Approval => ApprovalKeepsInv(r, n, d);
      case Finalization => FinalizationKeepsInv(r, n, d);
      case OtherType(_) =>
    }
  }

  lemma StartInv(r: Round)
    requires r.Valid()
    ensures Inv(r, NetOf(r, r.Start()))
  {
    var n := NetOf(r, r.Start());
    assert n.sent == [r.Proposal()];
    assert n.views[r.origin].has;
    assert Approved(r, n) == {} && FinalizedAt(r, n) == {};
  }

  /** The round as the views show it. */
  function NetRun(r: Round, ds: seq<Delivery>): Net
    decreases |ds|
  {
    if ds == [] then NetOf(r, r.Start())
    else NetNext(r, NetRun(r, ds[..|ds| - 1]), ds[|ds| - 1])
  }

  lemma ExactStep(r: Round, w: World, n: Net, d: Delivery)
    requires r.Valid() && w.nodes.Keys == r.live && NetOf(r, w) == n && Inv(r, n)
    ensures var w' := Next(r.Cfg(), w, Deliver(d.1, d.0, ALL_OK));
            NetOf(r, w') == NetNext(r, n, d) && Inv(r, NetNext(r, n, d)) && w'.nodes.Keys == r.live
  {
    NetNextExact(r, w, d);
    DeliveryKeepsInv(r, n, d);
    SameKeys(r, Next(r.Cfg(), w, Deliver(d.1, d.0, ALL_OK)));
  }

  lemma SameKeys(r: Round, w: World)
    ensures NetOf(r, w).views.Keys == w.nodes.Keys
  {
  }

  /** The views follow the real network, packet for packet. */
  lemma {:induction false} NetRunExact(r: Round, ds: seq<Delivery>)
    requires r.Valid()
    ensures NetOf(r, Deliveries(r, ds)) == NetRun(r, ds)
    ensures Inv(r, NetRun(r, ds))
    ensures Deliveries(r, ds).nodes.Keys == r.live
    decreases |ds|
  {
    if ds == [] {
      StartInv(r);
      SameKeys(r, r.Start());
    } else {
      var before, last := ds[..|ds| - 1], ds[|ds| - 1];
      NetRunExact(r, before);
      ExactStep(r, Deliveries(r, before), NetRun(r, before), last);
    }
  }

  /** A delivery that takes place: of a packet already sent, to an existing node. */
  predicate Possible(n: Net, d: Delivery) {
    d.0 < |n.sent| && d.1 in n.views
  }

  /** The deliveries that took place, without repetitions. */
  function Done(r: Round, ds: seq<Delivery>): set<Delivery>
    decreases |ds|
  {
    if ds == [] then {}
    else
      var before, last := ds[..|ds| - 1], ds[|ds| - 1];
      Done(r, before) + if Possible(NetRun(r, before), last) then {last} else {}
  }

  ghost predicate AllDone(n: Net, done: set<Delivery>) {
    forall d: Delivery :: Possible(n, d) ==> d in done
  }

  /** Every packet has reached every live node. */
  ghost predicate Quiescent(r: Round, ds: seq<Delivery>) {
    AllDone(NetRun(r, ds), Done(r, ds))
  }

  lemma OneMore(r: Round, ds: seq<Delivery>, d: Delivery)
    ensures NetRun(r, ds + [d]) == NetNext(r, NetRun(r, ds), d)
    ensures Done(r, ds + [d]) == Done(r, ds) + if Possible(NetRun(r, ds), d) then {d} else {}
  {
    assert (ds + [d])[..|ds|] == ds;
  }

  // ---------------------------------------------------------------------------
  // At most 2n packets

  lemma PacketCount(r: Round, n: Net)
    requires r.Valid() && Inv(r, n)
    ensures |n.sent| <= 2 * |r.live|
  {
    SubsetSize(Approved(r, n), r.live - {r.origin});
    SubsetSize(FinalizedAt(r, n), r.live);
  }

  /** One proposal, at most one approval of each live node but the proposer, at most one
      finalization of each live node. */
  lemma PacketBound(r: Round, ds: seq<Delivery>)
    requires r.Valid()
    ensures |Deliveries(r, ds).sent| <= 2 * |r.live|
  {
    NetRunExact(r, ds);
    PacketCount(r, NetRun(r, ds));
  }

  // ---------------------------------------------------------------------------
  // What was delivered stays absorbed

  /** The view already shows the effect of packet `p`. */
  predicate Absorbed(v: View, p: Packet) {
    match p.ptype
    case Proposal => v.has
    case Approval => p.validator in v.approvers
    case Finalization => v.fin
    case OtherType(_) => true
  }

  predicate ViewGrows(v: View, v': View) {
    (v.has ==> v'.has) && v.approvers <= v'.approvers && (v.fin ==> v'.fin)
  }

  lemma SeeAbsorbs(r: Round, x: PeerId, v: View, p: Packet)
    ensures ViewGrows(v, See(r, x, v, p).0) && Absorbed(See(r, x, v, p).0, p)
  {
  }

  predicate DoneAbsorbed(n: Net, done: set<Delivery>) {
    forall d :: d in done ==> Possible(n, d) && Absorbed(n.views[d.1], n.sent[d.0])
  }

  lemma NextAbsorbs(r: Round, n: Net, d: Delivery, done: set<Delivery>)
    requires DoneAbsorbed(n, done)
    ensures DoneAbsorbed(NetNext(r, n, d), done + if Possible(n, d) then {d} else {})
  {
    if Possible(n, d) {
      SeeAbsorbs(r, d.1, n.views[d.1], n.sent[d.0]);
    }
  }

  lemma {:induction false} AlwaysAbsorbed(r: Round, ds: seq<Delivery>)
    ensures DoneAbsorbed(NetRun(r, ds), Done(r, ds))
    decreases |ds|
  {
    if ds != [] {
      AlwaysAbsorbed(r, ds[..|ds| - 1]);
      NextAbsorbs(r, NetRun(r, ds[..|ds| - 1]), ds[|ds| - 1], Done(r, ds[..|ds| - 1]));
    }
  }

  /** Handling a packet again changes nothing at all: not the node, not the network. */
  lemma AbsorbedIsIgnored(r: Round, x: PeerId, s: NodeState, p: Packet)
    requires r.Valid() && x in r.live && RoundPacket(r, p) && Absorbed(ViewOf(r, s), p)
    requires |ApprovalsFor(s, r.hash)| >= r.Cfg().quorum ==> r.hash in s.finalized
    ensures HandleMessage(r.Cfg(), x, s, p, ALL_OK).state == s
    ensures HandleMessage(r.Cfg(), x, s, p, ALL_OK).sent == []
    ensures HandleMessage(r.Cfg(), x, s, p, ALL_OK).approved == {}
  {
  }

  lemma ApplyNothing(w: World, x: PeerId, o: Outcome)
    requires x in w.nodes && o.state == w.nodes[x] && o.sent == [] && o.approved == {}
    ensures Apply(w, x, o) == w
  {
    assert w.nodes[x := w.nodes[x]] == w.nodes;
  }

  lemma ApproversFinalized(r: Round, n: Net, x: PeerId, s: NodeState)
    requires Inv(r, n) && x in n.views && n.views[x] == ViewOf(r, s)
    ensures |ApprovalsFor(s, r.hash)| >= r.Cfg().quorum ==> r.hash in s.finalized
  {
    assert ViewInv(r, Approved(r, n), x, n.views[x]);
    assert |ApprovalsFor(s, r.hash)| == |ApprovalsFor(s, r.hash).Keys|;
  }

  predicate Ignores(o: Outcome, s: NodeState) {
    o.state == s && o.sent == [] && o.approved == {}
  }

  lemma AbsorbedAtNode(r: Round, w: World, n: Net, d: Delivery)
    requires r.Valid() && w.nodes.Keys == r.live && NetOf(r, w) == n && Inv(r, n)
    requires Possible(n, d) && Absorbed(n.views[d.1], n.sent[d.0])
    ensures d.0 < |w.sent| && d.1 in w.nodes
    ensures Ignores(HandleMessage(r.Cfg(), d.1, w.nodes[d.1], w.sent[d.0], ALL_OK), w.nodes[d.1])
  {
    var s := w.nodes[d.1];
    ApproversFinalized(r, n, d.1, s);
    AbsorbedIsIgnored(r, d.1, s, w.sent[d.0]);
  }

  lemma IgnoredDelivery(cfg: Config, w: World, x: PeerId, i: nat)
    requires x in w.nodes && i < |w.sent|
    requires Ignores(HandleMessage(cfg, x, w.nodes[x], w.sent[i], ALL_OK), w.nodes[x])
    ensures Next(cfg, w, Deliver(x, i, ALL_OK)) == w
  {
    ApplyNothing(w, x, HandleMessage(cfg, x, w.nodes[x], w.sent[i], ALL_OK));
  }

  /** A packet that reached a node before is ignored when it arrives again. */
  lemma RedeliveryIgnored(r: Round, ds: seq<Delivery>, d: Delivery)
    requires r.Valid() && d in Done(r, ds)
    ensures Deliveries(r, ds + [d]) == Deliveries(r, ds)
  {
    NetRunExact(r, ds);
    AlwaysAbsorbed(r, ds);
    AbsorbedAtNode(r, Deliveries(r, ds), NetRun(r, ds), d);
    IgnoredDelivery(r.Cfg(), Deliveries(r, ds), d.1, d.0);
    assert (ds + [d])[..|ds|] == ds;
  }

  // ---------------------------------------------------------------------------
  // Delivery quiesces

  function AllPairs(k: nat, xs: set<PeerId>): set<Delivery> {
    set i: nat, x | 0 <= i < k && x in xs :: (i, x)
  }

  function Row(i: nat, xs: set<PeerId>): set<Delivery> {
    set x | x in xs :: (i, x)
  }

  lemma {:induction false} PairCount(k: nat, xs: set<PeerId>)
    ensures |AllPairs(k, xs)| == k * |xs|
  {
    if k != 0 {
      PairCount(k - 1, xs);
      var row := Row(k - 1, xs);
      RowSize(k - 1, xs);
      assert AllPairs(k, xs) == AllPairs(k - 1, xs) + row;
      assert AllPairs(k - 1, xs) !! row;
      assert (k - 1) * |xs| + |xs| == k * |xs|;
    }
  }

  lemma {:induction false} RowSize(i: nat, xs: set<PeerId>)
    ensures |Row(i, xs)| == |xs|
  {
    if xs != {} {
      var y :| y in xs;
      RowSize(i, xs - {y});
      assert Row(i, xs) == Row(i, xs - {y}) + {(i, y)};
    }
  }

  /** 2n packets to n nodes, less the deliveries already made. */
  function Remaining(r: Round, ds: seq<Delivery>): int {
    2 * |r.live| * |r.live| - |Done(r, ds)|
  }

  lemma DoneArePairs(r: Round, n: Net, done: set<Delivery>)
    requires n.views.Keys == r.live && DoneAbsorbed(n, done)
    ensures done <= AllPairs(|n.sent|, r.live)
  {
    forall d | d in done ensures d in AllPairs(|n.sent|, r.live) {
      assert d == (d.0, d.1) && d.0 < |n.sent| && d.1 in r.live;
    }
  }

  lemma DoneCount(r: Round, n: Net, done: set<Delivery>)
    requires n.views.Keys == r.live && DoneAbsorbed(n, done) && |n.sent| <= 2 * |r.live|
    ensures |done| <= 2 * |r.live| * |r.live|
  {
    DoneArePairs(r, n, done);
    SubsetSize(done, AllPairs(|n.sent|, r.live));
    PairCount(|n.sent|, r.live);
    TimesMonotone(|n.sent|, 2 * |r.live|, |r.live|);
  }

  lemma RemainingNonNegative(r: Round, ds: seq<Delivery>)
    requires r.Valid()
    ensures Remaining(r, ds) >= 0
  {
    NetRunExact(r, ds);
    AlwaysAbsorbed(r, ds);
    PacketCount(r, NetRun(r, ds));
    DoneCount(r, NetRun(r, ds), Done(r, ds));
  }

  lemma TimesMonotone(a: nat, b: nat, c: nat)
    requires a <= b
    ensures a * c <= b * c
  {
  }

  /** The measure is never negative; every delivery of a packet to a node it had not
      reached lowers it by one, and nothing raises it. */
  lemma Progress(r: Round, ds: seq<Delivery>, d: Delivery)
    requires r.Valid()
    ensures Remaining(r, ds) >= 0
    ensures var fresh' := Possible(NetRun(r, ds), d) && d !in Done(r, ds);
            Remaining(r, ds + [d]) == Remaining(r, ds) - if fresh' then 1 else 0
  {
    RemainingNonNegative(r, ds);
    OneMore(r, ds, d);
    assert d in Done(r, ds) ==> Done(r, ds) + {d} == Done(r, ds);
  }

  /** Outside quiescence some delivery is still to be made. */
  lemma NextDelivery(n: Net, done: set<Delivery>) returns (d: Delivery)
    requires !AllDone(n, done)
    ensures Possible(n, d) && d !in done
  {
    d :| Possible(n, d) && d !in done;
  }

  /** From any point of a round, some further deliveries lead to quiescence. */
  lemma Quiesces(r: Round, ds: seq<Delivery>) returns (all: seq<Delivery>)
    requires r.Valid()
    ensures ds <= all && Quiescent(r, all)
    decreases Remaining(r, ds)
  {
    if Quiescent(r, ds) {
      all := ds;
    } else {
      var d := NextDelivery(NetRun(r, ds), Done(r, ds));
      Progress(r, ds, d);
      all := Quiesces(r, ds + [d]);
    }
  }

  // ---------------------------------------------------------------------------
  // What quiescence means

  lemma AllApprove(r: Round, n: Net, done: set<Delivery>)
    requires r.Valid() && Inv(r, n) && DoneAbsorbed(n, done) && AllDone(n, done)
    ensures Approved(r, n) == r.AutoApprovers()
    ensures forall x :: x in r.live ==> n.views[x].approvers == r.AutoApprovers()
  {
    forall x | x in r.live ensures n.views[x].has {
      assert Possible(n, (0, x));
    }
    assert Approved(r, n) == r.AutoApprovers();
    forall x | x in r.live ensures n.views[x].approvers == r.AutoApprovers() {
      assert ViewInv(r, Approved(r, n), x, n.views[x]);
      forall v | v in r.AutoApprovers() ensures v in n.views[x].approvers {
        var p := ApprovalPacket(v, r.hash);
        assert p in n.sent;
        var i :| 0 <= i < |n.sent| && n.sent[i] == p;
        assert Possible(n, (i, x));
      }
    }
  }

  lemma AllOrNoneFinalize(r: Round, n: Net, done: set<Delivery>)
    requires r.Valid() && Inv(r, n) && DoneAbsorbed(n, done) && AllDone(n, done)
    ensures FinalizedAt(r, n) == if |r.AutoApprovers()| >= r.Cfg().quorum then r.live else {}
    ensures |n.sent| == 1 + |r.AutoApprovers()| + |FinalizedAt(r, n)|
  {
    AllApprove(r, n, done);
    forall x | x in r.live && |r.AutoApprovers()| >= r.Cfg().quorum ensures n.views[x].fin {
      assert ViewInv(r, Approved(r, n), x, n.views[x]);
    }
  }

  predicate FinalizedIn(r: Round, ds: seq<Delivery>, x: PeerId) {
    x in Deliveries(r, ds).nodes && r.hash in Deliveries(r, ds).nodes[x].finalized
  }

  lemma FinalizedInView(r: Round, w: World, n: Net, x: PeerId)
    requires NetOf(r, w) == n && Inv(r, n) && x in r.live
    ensures x in w.nodes && (r.hash in w.nodes[x].finalized <==> x in FinalizedAt(r, n))
  {
    SameKeys(r, w);
  }

  /** Once everything is delivered, every live node has finalized the hash when the
      automatic approvers make a quorum, and no node has when they do not; each
      auto-approver sent one approval, each finalizer one finalization. */
  lemma QuiescentFinalization(r: Round, ds: seq<Delivery>)
    requires r.Valid() && Quiescent(r, ds)
    ensures forall x :: x in r.live ==>
      (FinalizedIn(r, ds, x) <==> |r.AutoApprovers()| >= DefaultQuorum(|r.validators|))
    ensures |Deliveries(r, ds).sent| == 1 + |r.AutoApprovers()| +
      if |r.AutoApprovers()| >= DefaultQuorum(|r.validators|) then |r.live| else 0
  {
    NetRunExact(r, ds);
    AlwaysAbsorbed(r, ds);
    var w, n := Deliveries(r, ds), NetRun(r, ds);
    AllOrNoneFinalize(r, n, Done(r, ds));
    forall x | x in r.live
      ensures FinalizedIn(r, ds, x) <==> |r.AutoApprovers()| >= DefaultQuorum(|r.validators|)
    {
      FinalizedInView(r, w, n, x);
    }
  }

  /** With silent validators: a leader that proposes itself gets its hash finalized exactly
      when the live nodes besides it make a quorum of all validators. */
  lemma LiveQuorumNeeded(r: Round, ds: seq<Delivery>, silent: nat)
    requires r.Valid() && r.origin == r.leader && Quiescent(r, ds) && silent == |r.validators - r.live|
    ensures forall x :: x in r.live ==>
      (FinalizedIn(r, ds, x) <==> |r.validators| - 1 - silent >= DefaultQuorum(|r.validators|))
  {
    QuiescentFinalization(r, ds);
    assert r.AutoApprovers() == r.live - {r.leader};
    assert r.validators == r.live + (r.validators - r.live);
  }

  /** So of 3f + 1 validators at most f - 1 may be silent, one fewer than documented. */
  lemma SilentTolerance(r: Round, ds: seq<Delivery>, f: nat, silent: nat)
    requires r.Valid() && r.origin == r.leader && Quiescent(r, ds)
    requires |r.validators| == 3 * f + 1 && silent == |r.validators - r.live|
    ensures forall x :: x in r.live ==> (FinalizedIn(r, ds, x) <==> silent < f)
  {
    LiveQuorumNeeded(r, ds, silent);
  }

  /** A leader that proposes itself needs four nodes: three faultless ones never
      finalize, because the proposer does not approve. */
  lemma FourNodesNeeded(r: Round, ds: seq<Delivery>)
    requires r.Valid() && r.live == r.validators && r.origin == r.leader && Quiescent(r, ds)
    ensures forall x :: x in r.validators ==> (FinalizedIn(r, ds, x) <==> |r.validators| >= 4)
  {
    LiveQuorumNeeded(r, ds, 0);
  }

  /** A proposal issued in the leader's name by another node needs seven. */
  lemma SevenNodesNeeded(r: Round, ds: seq<Delivery>)
    requires r.Valid() && r.live == r.validators && r.origin != r.leader && Quiescent(r, ds)
    ensures forall x :: x in r.validators ==> (FinalizedIn(r, ds, x) <==> |r.validators| >= 7)
  {
    QuiescentFinalization(r, ds);
    assert |r.validators - {r.leader}| == |r.validators| - 1;
    assert r.AutoApprovers() == r.validators - {r.leader} - {r.origin};
  }

  /** The bound of 2n is reached exactly when the hash is finalized; otherwise only
      the proposal and the approvals were sent. */
  lemma PacketsAtQuiescence(r: Round, ds: seq<Delivery>)
    requires r.Valid() && r.live == r.validators && r.origin == r.leader && Quiescent(r, ds)
    ensures |Deliveries(r, ds).sent| == if |r.validators| >= 4 then 2 * |r.validators| else |r.validators|
  {
    QuiescentFinalization(r, ds);
    assert r.AutoApprovers() == r.validators - {r.leader};
  }

  // ---------------------------------------------------------------------------
  // What the nodes then hold

  /** Whatever a node holds under the hash is the proposal of the round. */
  ghost predicate HoldsOnlyIt(r: Round, w: World) {
    forall x :: x in w.nodes && r.hash in w.nodes[x].proposals ==> w.nodes[x].proposals[r.hash] == r.Proposal()
  }

  lemma HandledProposals(cfg: Config, x: PeerId, s: NodeState, p: Packet, io: Io, h: BlockHash)
    ensures var s' := HandleMessage(cfg, x, s, p, io).state;
            h in s'.proposals ==>
              (h in s.proposals && s'.proposals[h] == s.proposals[h]) || (p.ptype.Proposal? && p.hash == h && s'.proposals[h] == p)
  {
    if p.ptype.Proposal? {
      Outcomes.HandleProposalExactly(cfg, x, s, p, io);
    } else if p.ptype.Approval? {
      Outcomes.HandleApprovalKeeps(cfg, s, p, io);
    }
  }

  lemma DeliveryHolds(r: Round, w: World, d: Delivery)
    requires HoldsOnlyIt(r, w) && forall p :: p in w.sent ==> RoundPacket(r, p)
    ensures HoldsOnlyIt(r, Next(r.Cfg(), w, Deliver(d.1, d.0, ALL_OK)))
  {
    if d.1 in w.nodes && d.0 < |w.sent| {
      HandledProposals(r.Cfg(), d.1, w.nodes[d.1], w.sent[d.0], ALL_OK, r.hash);
      assert w.sent[d.0] in w.sent;
    }
  }

  lemma {:induction false} AlwaysHoldsOnlyIt(r: Round, ds: seq<Delivery>)
    requires r.Valid()
    ensures HoldsOnlyIt(r, Deliveries(r, ds))
    decreases |ds|
  {
    if ds == [] {
      Outcomes.ProposeExactly(r.Cfg(), EMPTY_STATE, r.leader, r.hash, r.data, ALL_OK);
    } else {
      var before := ds[..|ds| - 1];
      AlwaysHoldsOnlyIt(r, before);
      NetRunExact(r, before);
      DeliveryHolds(r, Deliveries(r, before), ds[|ds| - 1]);
    }
  }

  /** Once everything is delivered, every live node holds the proposed block: its data, under
      its hash, signed by the leader. */
  lemma DataReachesAll(r: Round, ds: seq<Delivery>, x: PeerId)
    requires r.Valid() && Quiescent(r, ds) && x in r.live
    ensures var w := Deliveries(r, ds);
            x in w.nodes && r.hash in w.nodes[x].proposals &&
            Outcomes.IsProposal(w.nodes[x].proposals[r.hash], r.leader, r.hash, r.data)
  {
    var n := NetRun(r, ds);
    NetRunExact(r, ds);
    AlwaysAbsorbed(r, ds);
    AlwaysHoldsOnlyIt(r, ds);
    assert Possible(n, (0, x)) && (0, x) in Done(r, ds);
    assert n.views[x].has;
  }
}
