/** Every ledger reached by validated additions: its graph is a forest in which each edge
    raises the index by one, and each nonce counts the transactions of its sender. */
module LedgerRuns {
  import opened Common
  import opened Encoding
  import opened Types
  import opened Accounts
  import opened LedgerSpec
  import HeaderChain

  // ---------------------------------------------------------------------------
  // The shape of the graph

  predicate VertexOk(vertices: Vertices, h: Digest)
    requires h in vertices
  {
    h != ZERO_HASH && vertices[h].hash == h && Placed(vertices, vertices[h])
  }

  predicate EdgeOk(vertices: Vertices, e: Edge) {
    e.1 in vertices && vertices[e.1].index > 0 && vertices[e.1].previousHash == e.0
  }

  /** Hash links lead to known blocks of the next lower index, and edges follow them. */
  predicate Linked(l: View) {
    && (forall h :: h in l.vertices ==> VertexOk(l.vertices, h))
    && (forall e :: e in l.edges ==> EdgeOk(l.vertices, e))
  }

  /** In `blocks` a hash stands for one header only, and none is zero. */
  ghost predicate Unambiguous(sha: Sha, blocks: set<Block>) {
    forall b, c :: b in blocks && c in blocks ==> SameHashSameHeader(sha, b, c)
  }

  ghost predicate SameHashSameHeader(sha: Sha, b: Block, c: Block) {
    var g, h := b.HashedFields(), c.HashedFields();
    HeaderChain.BlockHash(sha, g) != ZERO_HASH &&
    (HeaderChain.BlockHash(sha, g) == HeaderChain.BlockHash(sha, h) ==> g == h)
  }

  /** Nonzero hashes are ambiguous only if SHA-256 is broken. */
  lemma AmbiguityIsCollision(sha: Sha, b: Block, c: Block)
    requires !SameHashSameHeader(sha, b, c) && HeaderChain.BlockHash(sha, b.HashedFields()) != ZERO_HASH
    ensures IsCollision(sha, (HeaderChain.EncodeHeader(b.HashedFields()), HeaderChain.EncodeHeader(c.HashedFields())))
  {
    var g, h := b.HashedFields(), c.HashedFields();
    if HeaderChain.EncodeHeader(g) == HeaderChain.EncodeHeader(h) {
      HeaderChain.HeaderInjective(g, h);
    }
  }

  ghost predicate Known(sha: Sha, blocks: set<Block>, vertices: Vertices) {
    forall h :: h in vertices ==>
      vertices[h] in blocks && vertices[h].hash == HeaderChain.BlockHash(sha, vertices[h].HashedFields())
  }

  ghost predicate Sound(sha: Sha, blocks: set<Block>, l: View) {
    Linked(l) && Known(sha, blocks, l.vertices)
  }

  lemma Recurrence(sha: Sha, blocks: set<Block>, l: View, b: Block)
    requires Unambiguous(sha, blocks) && Sound(sha, blocks, l) && b in blocks
    requires b.hash == HeaderChain.BlockHash(sha, b.HashedFields())
    ensures b.hash != ZERO_HASH
    ensures b.hash in l.vertices ==> l.vertices[b.hash].HashedFields() == b.HashedFields()
  {
    assert SameHashSameHeader(sha, b, b);
    if b.hash in l.vertices {
      assert VertexOk(l.vertices, b.hash);
      assert SameHashSameHeader(sha, b, l.vertices[b.hash]);
    }
  }

  /** Vertices may be overwritten, but their headers stay. */
  predicate HeadersStay(past: Vertices, present: Vertices) {
    forall h :: h in past ==> h in present && present[h].HashedFields() == past[h].HashedFields()
  }

  lemma StillPlaced(past: Vertices, present: Vertices, b: Block)
    requires HeadersStay(past, present) && Placed(past, b)
    ensures Placed(present, b)
  {
    if b.index > 0 {
      assert present[b.previousHash].HashedFields() == past[b.previousHash].HashedFields();
    }
  }

  lemma PutKeepsLinks(l: View, b: Block, vertices: Vertices)
    requires Linked(l) && Placed(l.vertices, b) && b.hash != ZERO_HASH
    requires b.hash in l.vertices ==> l.vertices[b.hash].HashedFields() == b.HashedFields()
    requires vertices == PutVertex(l.vertices, b)
    ensures HeadersStay(l.vertices, vertices) && Linked(l.(vertices := vertices))
  {
    assert HeadersStay(l.vertices, vertices);
    forall h | h in vertices ensures VertexOk(vertices, h) {
      if h != b.hash {
        assert VertexOk(l.vertices, h);
      }
      StillPlaced(l.vertices, vertices, vertices[h]);
    }
    forall e | e in l.edges ensures EdgeOk(vertices, e) {
      assert EdgeOk(l.vertices, e);
      assert vertices[e.1].HashedFields() == l.vertices[e.1].HashedFields();
    }
  }

  /** The edge goes from the previous hash to the block and raises the index by one. */
  predicate Raises(l: View, e: Edge) {
    && e.0 in l.vertices && e.1 in l.vertices
    && l.vertices[e.1].previousHash == e.0 && l.vertices[e.1].index == l.vertices[e.0].index + 1
  }

  lemma EdgesRaiseIndex(l: View, e: Edge)
    requires Linked(l) && e in l.edges
    ensures Raises(l, e)
  {
    assert EdgeOk(l.vertices, e) && VertexOk(l.vertices, e.1);
  }

  lemma {:induction false} PathRaisesIndex(l: View, p: seq<Digest>)
    requires Linked(l) && IsPath(l.edges, p) && p[0] in l.vertices
    ensures p[|p| - 1] in l.vertices && l.vertices[p[|p| - 1]].index == l.vertices[p[0]].index + |p| - 1
    decreases |p|
  {
    if |p| > 1 {
      var front := p[..|p| - 1];
      PathRaisesIndex(l, front);
      assert (p[|p| - 2], p[|p| - 2 + 1]) in l.edges;
      EdgesRaiseIndex(l, (p[|p| - 2], p[|p| - 1]));
    }
  }

  /** A forest: at most one way into a vertex, and no way back. */
  lemma Forest(l: View)
    requires Linked(l)
    ensures forall e, f :: e in l.edges && f in l.edges && e.1 == f.1 ==> e == f
    ensures forall p, h :: h in l.vertices && Connects(l.edges, p, h, h) ==> p == [h]
  {
    forall e, f | e in l.edges && f in l.edges && e.1 == f.1 ensures e == f {
      EdgesRaiseIndex(l, e);
      EdgesRaiseIndex(l, f);
    }
    forall p, h | h in l.vertices && Connects(l.edges, p, h, h) ensures p == [h] {
      PathRaisesIndex(l, p);
    }
  }

  lemma NoWayBack(l: View, b: Block)
    requires Linked(l) && b.hash in l.vertices && l.vertices[b.hash].index == b.index > 0 && Placed(l.vertices, b)
    ensures !HasPath(l.edges, b.hash, b.previousHash)
  {
    if p :| Connects(l.edges, p, b.hash, b.previousHash) {
      PathRaisesIndex(l, p);
    }
  }

  lemma NewEdge(l: View, b: Block)
    requires Linked(l) && b.hash in l.vertices && l.vertices[b.hash].HashedFields() == b.HashedFields() && b.index > 0
    ensures Linked(l.(edges := l.edges + {(b.previousHash, b.hash)}))
  {
    assert l.vertices[b.hash].HashedFields().index == b.HashedFields().index;
    assert EdgeOk(l.vertices, (b.previousHash, b.hash));
  }

  /** What adding a validated block does, when nothing is wrong but the storage. */
  lemma NextStep(l: View, b: Block, io: Io)
    requires Linked(l) && Placed(l.vertices, b) && b.index > 0 && b.hash != ZERO_HASH
    requires b.hash in l.vertices ==> l.vertices[b.hash].HashedFields() == b.HashedFields()
    ensures b.previousHash != ZERO_HASH
    ensures var (l', failed) := AddBlock(l, b, io);
            && (failed == None || failed == Some(StorageFailed))
            && (io == WORKING ==> failed == None)
            && (failed == None ==> l'.vertices == PutVertex(l.vertices, b) &&
                                   l'.edges == l.edges + {(b.previousHash, b.hash)})
            && l'.accounts == ApplyAll(l.accounts, b.transactions, b.validatorID)
            && (l'.vertices == l.vertices || l'.vertices == PutVertex(l.vertices, b))
            && HeadersStay(l.vertices, l'.vertices) && Linked(l')
  {
    assert VertexOk(l.vertices, b.previousHash);
    var l2 := l.(accounts := ApplyAll(l.accounts, b.transactions, b.validatorID),
                 vertices := PutVertex(l.vertices, b));
    PutKeepsLinks(l, b, l2.vertices);
    StillPlaced(l.vertices, l2.vertices, b);
    NoWayBack(l2, b);
    NewEdge(l2, b);
  }

  lemma GenesisStep(l: View, b: Block, io: Io)
    requires Linked(l) && Placed(l.vertices, b) && b.index == 0 && b.hash != ZERO_HASH
    requires b.hash in l.vertices ==> l.vertices[b.hash].HashedFields() == b.HashedFields()
    ensures var (l', failed) := AddBlock(l, b, io);
            && (failed == None || failed == Some(StorageFailed))
            && (io == WORKING ==> failed == None)
            && (l'.accounts == l.accounts || l'.accounts == CreditAll(l.accounts, b.transactions))
            && (failed == None ==> l'.accounts == CreditAll(l.accounts, b.transactions))
            && (l'.vertices == l.vertices || l'.vertices == PutVertex(l.vertices, b))
            && (failed == None ==> l'.vertices == PutVertex(l.vertices, b)) && l'.edges == l.edges
            && HeadersStay(l.vertices, l'.vertices) && Linked(l')
  {
    PutKeepsLinks(l, b, PutVertex(l.vertices, b));
  }

  // ---------------------------------------------------------------------------
  // Runs

  /** A call of Blockchain.AddBlock: the block, the clock and the storage at that time. */
  datatype Event = Event(block: Block, now: int64, io: Io)

  ghost function Step(sha: Sha, l: View, e: Event): View {
    if Validate(sha, l, e.block, e.now).Some? then l else AddBlock(l, e.block, e.io).0
  }

  ghost function Run(sha: Sha, l: View, events: seq<Event>): View {
    if events == [] then l else Step(sha, Run(sha, l, events[..|events| - 1]), events[|events| - 1])
  }

  predicate From(events: seq<Event>, blocks: set<Block>) {
    forall i :: 0 <= i < |events| ==> events[i].block in blocks
  }

  /** One call keeps the ledger sound, however the storage behaves, and its cycle check
      and predecessor lookup never fail. */
  lemma StepSound(sha: Sha, blocks: set<Block>, l: View, e: Event)
    requires Unambiguous(sha, blocks) && Sound(sha, blocks, l) && e.block in blocks
    ensures Sound(sha, blocks, Step(sha, l, e)) && HeadersStay(l.vertices, Step(sha, l, e).vertices)
    ensures Validate(sha, l, e.block, e.now).None? ==>
              var failed := AddBlock(l, e.block, e.io).1;
              (failed == None || failed == Some(StorageFailed)) && (e.io == WORKING ==> failed == None)
  {
    var b := e.block;
    if Validate(sha, l, b, e.now).None? {
      ValidatesExactly(sha, l, b, e.now);
      Recurrence(sha, blocks, l, b);
      if b.index > 0 {
        NextStep(l, b, e.io);
      } else {
        GenesisStep(l, b, e.io);
      }
    }
  }

  /** Blockchain.AddBlock does to the ledger what a step does. With working storage it returns
      no error exactly for a valid block, wherever in the graph it belongs, and the block is
      then the head; after any error the head is what it was. */
  lemma ExtendExactly(sha: Sha, blocks: set<Block>, c: Chain, e: Event)
    requires Unambiguous(sha, blocks) && Sound(sha, blocks, c.ledger) && e.block in blocks
    ensures var (c', failed) := Extend(sha, c, e.block, e.now, e.io);
            && c'.ledger == Step(sha, c.ledger, e)
            && c'.head == (if failed.None? then Some(e.block) else c.head)
            && (failed.None? ==> Valid(sha, c.ledger, e.block, e.now))
            && (e.io == WORKING ==> (failed.None? <==> Valid(sha, c.ledger, e.block, e.now)))
            && (!Valid(sha, c.ledger, e.block, e.now) ==> c' == c)
  {
    ValidatesExactly(sha, c.ledger, e.block, e.now);
    StepSound(sha, blocks, c.ledger, e);
  }

  lemma {:induction false} RunSound(sha: Sha, blocks: set<Block>, l: View, events: seq<Event>)
    requires Unambiguous(sha, blocks) && Sound(sha, blocks, l) && From(events, blocks)
    ensures Sound(sha, blocks, Run(sha, l, events))
  {
    if events != [] {
      var front := events[..|events| - 1];
      RunSound(sha, blocks, l, front);
      StepSound(sha, blocks, Run(sha, l, front), events[|events| - 1]);
    }
  }

  /** From an empty ledger or any sound one, whatever is submitted: the graph is a forest
      whose edges follow the hash links and raise the index by one, and a validated block
      never runs into the cycle check after its transactions were applied. */
  lemma RunIsForest(sha: Sha, blocks: set<Block>, l0: View, events: seq<Event>, next: Event)
    requires Unambiguous(sha, blocks) && Sound(sha, blocks, l0) && From(events, blocks) && next.block in blocks
    ensures var l := Run(sha, l0, events);
            && (forall e :: e in l.edges ==> Raises(l, e))
            && (forall e, f :: e in l.edges && f in l.edges && e.1 == f.1 ==> e == f)
            && (forall p, h :: h in l.vertices && Connects(l.edges, p, h, h) ==> p == [h])
            && (Validate(sha, l, next.block, next.now).None? ==> AddBlock(l, next.block, next.io).1 != Some(CreatesCycle))
  {
    var l := Run(sha, l0, events);
    RunSound(sha, blocks, l0, events);
    forall e | e in l.edges ensures Raises(l, e) {
      EdgesRaiseIndex(l, e);
    }
    Forest(l);
    StepSound(sha, blocks, l, next);
  }

  // ---------------------------------------------------------------------------
  // The walk back to genesis

  /** The blocks the walk of setup visits, the given one first. */
  function Lineage(l: View, b: Block): (r: seq<Block>)
    requires Linked(l) && Placed(l.vertices, b)
    ensures |r| == b.index + 1
    decreases b.index
  {
    if b.previousHash == ZERO_HASH then
      PreviousKnown(l, b);
      [b]
    else
      PreviousKnown(l, b);
      [b] + Lineage(l, l.vertices[b.previousHash])
  }

  /** The walk of setup from any block of any graph ends within `n` steps: at a block
      without a predecessor, or at one whose predecessor is missing. */
  predicate Ends(vertices: Vertices, b: Block, n: nat)
    decreases n
  {
    b.previousHash == ZERO_HASH || b.previousHash !in vertices || (n > 0 && Ends(vertices, vertices[b.previousHash], n - 1))
  }

  /** Where it ends; nothing if a predecessor is missing. */
  function WalkBack(vertices: Vertices, b: Block, n: nat): Option<Block>
    requires Ends(vertices, b, n)
    decreases n
  {
    if b.previousHash == ZERO_HASH then Some(b)
    else if b.previousHash !in vertices then None
    else WalkBack(vertices, vertices[b.previousHash], n - 1)
  }

  ghost predicate WalkEndsFrom(vertices: Vertices, b: Block) { exists n :: Ends(vertices, b, n) }

  ghost predicate WalksEnd(l: View) {
    forall h :: IsSink(l, h) ==> WalkEndsFrom(l.vertices, l.vertices[h])
  }

  lemma {:induction false} LinkedWalkEnds(l: View, b: Block)
    requires Linked(l) && Placed(l.vertices, b)
    ensures Ends(l.vertices, b, b.index)
    decreases b.index
  {
    PreviousKnown(l, b);
    if b.index > 0 {
      LinkedWalkEnds(l, l.vertices[b.previousHash]);
    }
  }

  lemma LinkedWalksEnd(l: View)
    requires Linked(l)
    ensures WalksEnd(l)
  {
    forall h | IsSink(l, h) ensures WalkEndsFrom(l.vertices, l.vertices[h]) {
      assert VertexOk(l.vertices, h);
      LinkedWalkEnds(l, l.vertices[h]);
    }
  }

  /** In a linked ledger the walk ends at the last block of the lineage. */
  lemma {:induction false} WalkFollowsLineage(l: View, b: Block, n: nat)
    requires Linked(l) && Placed(l.vertices, b) && Ends(l.vertices, b, n)
    ensures WalkBack(l.vertices, b, n) == Some(Lineage(l, b)[b.index])
    decreases n
  {
    PreviousKnown(l, b);
    if b.index > 0 {
      WalkFollowsLineage(l, l.vertices[b.previousHash], n - 1);
    }
  }

  lemma PreviousKnown(l: View, b: Block)
    requires Linked(l) && Placed(l.vertices, b)
    ensures b.previousHash == ZERO_HASH <==> b.index == 0
    ensures b.index > 0 ==>
              Placed(l.vertices, l.vertices[b.previousHash]) && l.vertices[b.previousHash].hash == b.previousHash
  {
    if b.index > 0 {
      assert VertexOk(l.vertices, b.previousHash);
    }
  }

  /** The walk ends after `index` steps at a genesis block, and what it visits is a chain
      of valid hashes in the sense of HeaderChain. */
  lemma {:induction false} WalkReachesGenesis(sha: Sha, blocks: set<Block>, l: View, b: Block)
    requires Sound(sha, blocks, l) && b.hash in l.vertices && l.vertices[b.hash] == b
    ensures Placed(l.vertices, b)
    ensures var r := Lineage(l, b);
            r[0] == b && r[|r| - 1].index == 0 && r[|r| - 1].previousHash == ZERO_HASH && HeaderChain.IsChain(sha, r)
    decreases b.index
  {
    assert VertexOk(l.vertices, b.hash);
    PreviousKnown(l, b);
    if b.index > 0 {
      var previous := l.vertices[b.previousHash];
      WalkReachesGenesis(sha, blocks, l, previous);
      ChainBefore(sha, b, Lineage(l, previous));
    }
  }

  lemma ChainBefore(sha: Sha, b: Block, rest: seq<Block>)
    requires HeaderChain.IsChain(sha, rest) && b.hash == HeaderChain.BlockHash(sha, b.HashedFields())
    requires b.previousHash == rest[0].hash && b.previousHash != ZERO_HASH
    ensures HeaderChain.IsChain(sha, [b] + rest) && ([b] + rest)[|rest|] == rest[|rest| - 1]
  {
    var r := [b] + rest;
    forall i | 0 <= i < |r| - 1 ensures r[i].previousHash != ZERO_HASH && r[i].previousHash == r[i + 1].hash {
      if i > 0 {
        assert rest[i - 1].previousHash == rest[i - 1 + 1].hash;
      }
    }
  }

  // ---------------------------------------------------------------------------
  // Nonces

  /** The transactions that reached the accounts through applyBlock. */
  ghost function Applied(sha: Sha, l: View, events: seq<Event>): seq<Transaction> {
    if events == [] then []
    else
      var front, last := events[..|events| - 1], events[|events| - 1];
      Applied(sha, l, front) + AppliedBy(sha, Run(sha, l, front), last)
  }

  ghost function AppliedBy(sha: Sha, l: View, e: Event): seq<Transaction> {
    if Validate(sha, l, e.block, e.now).None? && e.block.index > 0 then e.block.transactions else []
  }

  lemma {:induction false} SentConcat(x: Address, a: seq<Transaction>, b: seq<Transaction>)
    ensures Sent(x, a + b) == Sent(x, a) + Sent(x, b)
  {
    if b == [] {
      assert a + b == a;
    } else {
      assert (a + b)[..|a + b| - 1] == a + b[..|b| - 1];
      SentConcat(x, a, b[..|b| - 1]);
    }
  }

  /** On the nonces a call has the effect of the transactions it applies. */
  lemma StepNonce(sha: Sha, blocks: set<Block>, l: View, e: Event)
    requires Unambiguous(sha, blocks) && Sound(sha, blocks, l) && e.block in blocks
    ensures Step(sha, l, e).accounts.nonces == ApplyAll(l.accounts, AppliedBy(sha, l, e), e.block.validatorID).nonces
  {
    var b := e.block;
    if Validate(sha, l, b, e.now).None? {
      ValidatesExactly(sha, l, b, e.now);
      Recurrence(sha, blocks, l, b);
      if b.index > 0 {
        NextStep(l, b, e.io);
      } else {
        GenesisStep(l, b, e.io);
        CreditKeepsNonces(l.accounts, b.transactions);
      }
    }
  }

  lemma CountOn(a: Accounts, txs: seq<Transaction>, validator: Address, after: Accounts, x: Address, n: uint64,
                before: seq<Transaction>, all: seq<Transaction>)
    requires after.nonces == ApplyAll(a, txs, validator).nonces && a.Nonce(x) == Advance(n, Sent(x, before))
    requires all == before + txs
    ensures after.Nonce(x) == Advance(n, Sent(x, all))
  {
    CountApplied(a, txs, validator, after, x);
    CountMore(a.Nonce(x), after.Nonce(x), x, n, before, txs);
  }

  lemma CountApplied(a: Accounts, txs: seq<Transaction>, validator: Address, after: Accounts, x: Address)
    requires after.nonces == ApplyAll(a, txs, validator).nonces
    ensures after.Nonce(x) == Advance(a.Nonce(x), Sent(x, txs))
  {
    NonceCounts(a, txs, validator, x);
  }

  lemma CountMore(m: uint64, r: uint64, x: Address, n: uint64, before: seq<Transaction>, txs: seq<Transaction>)
    requires m == Advance(n, Sent(x, before)) && r == Advance(m, Sent(x, txs))
    ensures r == Advance(n, Sent(x, before + txs))
  {
    SentConcat(x, before, txs);
    AdvanceTwice(n, Sent(x, before), Sent(x, txs));
  }

  /** A sender's nonce has gone up once for each of its transactions in applied
      non-genesis blocks. */
  lemma {:induction false} NonceIsCount(sha: Sha, blocks: set<Block>, l: View, events: seq<Event>, x: Address)
    requires Unambiguous(sha, blocks) && Sound(sha, blocks, l) && From(events, blocks)
    ensures Run(sha, l, events).accounts.Nonce(x) == Advance(l.accounts.Nonce(x), Sent(x, Applied(sha, l, events)))
  {
    if events != [] {
      var front, last := events[..|events| - 1], events[|events| - 1];
      var before, applied := Run(sha, l, front), AppliedBy(sha, Run(sha, l, front), last);
      NonceIsCount(sha, blocks, l, front, x);
      RunSound(sha, blocks, l, front);
      StepNonce(sha, blocks, before, last);
      CountOn(before.accounts, applied, last.block.validatorID, Run(sha, l, events).accounts, x,
              l.accounts.Nonce(x), Applied(sha, l, front), Applied(sha, l, events));
    }
  }

  /** No nonce reaches the limit of its 64 bits. */
  ghost predicate NoncesFit(sha: Sha, l: View, events: seq<Event>) {
    forall x :: NonceFits(sha, l, events, x)
  }

  ghost predicate NonceFits(sha: Sha, l: View, events: seq<Event>, x: Address) {
    l.accounts.Nonce(x) + Sent(x, Applied(sha, l, events)) < TWO64 - 1
  }

  lemma {:induction false} AppliedGrows(sha: Sha, l: View, events: seq<Event>, i: nat, x: Address)
    requires i <= |events|
    ensures Sent(x, Applied(sha, l, events[..i])) <= Sent(x, Applied(sha, l, events))
    ensures i < |events| ==>
              Sent(x, Applied(sha, l, events[..i])) + Sent(x, AppliedBy(sha, Run(sha, l, events[..i]), events[i])) <=
              Sent(x, Applied(sha, l, events))
    decreases |events|
  {
    if i == |events| {
      assert events[..i] == events;
    } else {
      var front, last := events[..|events| - 1], events[|events| - 1];
      SentConcat(x, Applied(sha, l, front), AppliedBy(sha, Run(sha, l, front), last));
      AppliedGrows(sha, l, front, i, x);
      assert front[..i] == events[..i];
    }
  }

  /** Validation pins the nonce of every transaction of a non-genesis block. */
  lemma PinnedNonce(sha: Sha, l: View, e: Event, k: nat)
    requires k < |AppliedBy(sha, l, e)| && l.accounts.Nonce(AppliedBy(sha, l, e)[k].sender) < TWO64 - 1
    ensures var tx := AppliedBy(sha, l, e)[k];
            tx.nonce == l.accounts.Nonce(tx.sender) + 1 && Sent(tx.sender, AppliedBy(sha, l, e)) > 0
  {
    ValidatesExactly(sha, l, e.block, e.now);
    assert Payable(l.accounts, e.block.transactions[k]);
    SentExactly(e.block.transactions[k].sender, e.block.transactions);
  }

  lemma ExactNonce(sha: Sha, blocks: set<Block>, l: View, events: seq<Event>, i: nat, x: Address)
    requires Unambiguous(sha, blocks) && Sound(sha, blocks, l) && From(events, blocks)
    requires i <= |events| && NonceFits(sha, l, events, x)
    ensures Run(sha, l, events[..i]).accounts.Nonce(x) == l.accounts.Nonce(x) + Sent(x, Applied(sha, l, events[..i]))
    ensures Run(sha, l, events[..i]).accounts.Nonce(x) < TWO64 - 1
  {
    AppliedGrows(sha, l, events, i, x);
    NonceIsCount(sha, blocks, l, events[..i], x);
    AdvanceExact(l.accounts.Nonce(x), Sent(x, Applied(sha, l, events[..i])));
  }

  /** After an applied block the nonce of each of its senders is above what the block used. */
  lemma NonceAdvances(sha: Sha, blocks: set<Block>, l: View, events: seq<Event>, i: nat, j: nat, x: Address)
    requires Unambiguous(sha, blocks) && Sound(sha, blocks, l) && From(events, blocks)
    requires i < j <= |events| && NonceFits(sha, l, events, x)
    ensures Run(sha, l, events[..i]).accounts.Nonce(x) + Sent(x, AppliedBy(sha, Run(sha, l, events[..i]), events[i])) <=
            Run(sha, l, events[..j]).accounts.Nonce(x)
  {
    ExactNonce(sha, blocks, l, events, i, x);
    ExactNonce(sha, blocks, l, events, j, x);
    AppliedGrows(sha, l, events[..j], i, x);
    assert events[..j][..i] == events[..i];
  }

  /** No (sender, nonce) pair occurs in two applied blocks. */
  lemma NoDoubleSpend(sha: Sha, blocks: set<Block>, l: View, events: seq<Event>, i: nat, j: nat, m: nat, n: nat)
    requires Unambiguous(sha, blocks) && Sound(sha, blocks, l) && From(events, blocks) && NoncesFit(sha, l, events)
    requires i < j < |events|
    requires m < |AppliedBy(sha, Run(sha, l, events[..i]), events[i])|
    requires n < |AppliedBy(sha, Run(sha, l, events[..j]), events[j])|
    ensures var s := AppliedBy(sha, Run(sha, l, events[..i]), events[i])[m];
            var t := AppliedBy(sha, Run(sha, l, events[..j]), events[j])[n];
            s.sender == t.sender ==> s.nonce < t.nonce
  {
    var li, lj := Run(sha, l, events[..i]), Run(sha, l, events[..j]);
    var s, t := AppliedBy(sha, li, events[i])[m], AppliedBy(sha, lj, events[j])[n];
    if s.sender == t.sender {
      assert NonceFits(sha, l, events, s.sender);
      ExactNonce(sha, blocks, l, events, i, s.sender);
      ExactNonce(sha, blocks, l, events, j, s.sender);
      PinnedNonce(sha, li, events[i], m);
      PinnedNonce(sha, lj, events[j], n);
      NonceAdvances(sha, blocks, l, events, i, j, s.sender);
    }
  }

  lemma {:induction false} RunKeepsHeaders(sha: Sha, blocks: set<Block>, l: View, events: seq<Event>, i: nat)
    requires Unambiguous(sha, blocks) && Sound(sha, blocks, l) && From(events, blocks) && i <= |events|
    ensures HeadersStay(Run(sha, l, events[..i]).vertices, Run(sha, l, events).vertices)
    decreases |events|
  {
    if i == |events| {
      assert events[..i] == events;
    } else {
      var front, last := events[..|events| - 1], events[|events| - 1];
      assert front[..i] == events[..i];
      RunKeepsHeaders(sha, blocks, l, front, i);
      RunSound(sha, blocks, l, front);
      StepSound(sha, blocks, Run(sha, l, front), last);
    }
  }

  lemma StillValidPlace(sha: Sha, l: View, later: View, b: Block, now: int64, afterwards: int64)
    requires Valid(sha, l, b, now) && HeadersStay(l.vertices, later.vertices) && now <= afterwards
    ensures Valid(sha, later, b, afterwards) <==> TransactionsValid(later.accounts, b)
  {
    StillPlaced(l.vertices, later.vertices, b);
    if b.index > 0 {
      assert later.vertices[b.previousHash].HashedFields().timestamp == l.vertices[b.previousHash].HashedFields().timestamp;
    }
  }

  /** A block that was validated once is validated again, at any later point of the run,
      exactly when it is a genesis block or has no transactions. */
  lemma ReAddedExactly(sha: Sha, blocks: set<Block>, l: View, events: seq<Event>, i: nat, now: int64)
    requires Unambiguous(sha, blocks) && Sound(sha, blocks, l) && From(events, blocks) && NoncesFit(sha, l, events)
    requires i < |events| && events[i].now <= now
    requires Validate(sha, Run(sha, l, events[..i]), events[i].block, events[i].now).None?
    ensures Validate(sha, Run(sha, l, events), events[i].block, now).None? <==>
            events[i].block.index == 0 || events[i].block.transactions == []
  {
    var b, li, later := events[i].block, Run(sha, l, events[..i]), Run(sha, l, events);
    RunKeepsHeaders(sha, blocks, l, events, i);
    ValidatesExactly(sha, li, b, events[i].now);
    ValidatesExactly(sha, later, b, now);
    StillValidPlace(sha, li, later, b, events[i].now, now);
    if b.index > 0 && b.transactions != [] {
      UsedNonce(sha, blocks, l, events, i);
    }
  }

  /** An accepted non-empty block that comes back changes nothing. */
  lemma ReAddedUnchanged(sha: Sha, blocks: set<Block>, l: View, events: seq<Event>, i: nat, now: int64, io: Io)
    requires Unambiguous(sha, blocks) && Sound(sha, blocks, l) && From(events, blocks) && NoncesFit(sha, l, events)
    requires i < |events| && events[i].now <= now && events[i].block.index > 0 && events[i].block.transactions != []
    requires Validate(sha, Run(sha, l, events[..i]), events[i].block, events[i].now).None?
    ensures Step(sha, Run(sha, l, events), Event(events[i].block, now, io)) == Run(sha, l, events)
  {
    ReAddedExactly(sha, blocks, l, events, i, now);
  }

  lemma OldNonce(a: Accounts, tx: Transaction)
    requires tx.nonce <= a.Nonce(tx.sender) < TWO64 - 1
    ensures !Payable(a, tx)
  {
  }

  lemma UsedNonce(sha: Sha, blocks: set<Block>, l: View, events: seq<Event>, i: nat)
    requires Unambiguous(sha, blocks) && Sound(sha, blocks, l) && From(events, blocks) && NoncesFit(sha, l, events)
    requires i < |events| && AppliedBy(sha, Run(sha, l, events[..i]), events[i]) != []
    ensures var tx := AppliedBy(sha, Run(sha, l, events[..i]), events[i])[0]; !Payable(Run(sha, l, events).accounts, tx)
  {
    var li := Run(sha, l, events[..i]);
    var tx := AppliedBy(sha, li, events[i])[0];
    assert NonceFits(sha, l, events, tx.sender);
    assert events[..|events|] == events;
    ExactNonce(sha, blocks, l, events, i, tx.sender);
    ExactNonce(sha, blocks, l, events, |events|, tx.sender);
    PinnedNonce(sha, li, events[i], 0);
    NonceAdvances(sha, blocks, l, events, i, |events|, tx.sender);
    OldNonce(Run(sha, l, events).accounts, tx);
  }

  // ---------------------------------------------------------------------------
  // Supply

  /** What a call adds to the supply: the drifts of a block, or the allocations of a
      genesis block that was stored. */
  ghost function Minted(sha: Sha, l: View, e: Event): int {
    if Validate(sha, l, e.block, e.now).Some? then 0
    else if e.block.index > 0 then Drifts(l.accounts, e.block.transactions, e.block.validatorID)
    else if e.io.vertex && e.io.block then Amounts(e.block.transactions) + CreditDrifts(l.accounts, e.block.transactions)
    else 0
  }

  lemma StepSupply(sha: Sha, blocks: set<Block>, l: View, e: Event)
    requires Unambiguous(sha, blocks) && Sound(sha, blocks, l) && e.block in blocks
    ensures Supply(Step(sha, l, e).accounts.balances) == Supply(l.accounts.balances) + Minted(sha, l, e)
  {
    var b := e.block;
    if Validate(sha, l, b, e.now).None? {
      ValidatesExactly(sha, l, b, e.now);
      Recurrence(sha, blocks, l, b);
      if b.index > 0 {
        NextStep(l, b, e.io);
        SupplyDrift(l.accounts, b.transactions, b.validatorID);
      } else {
        GenesisSupply(l.accounts, b.transactions);
      }
    }
  }

  /** What the call at position `i` of a run adds. */
  ghost function MintedAt(sha: Sha, l: View, events: seq<Event>, i: nat): int
    requires i < |events|
  {
    Minted(sha, Run(sha, l, events[..i]), events[i])
  }

  ghost function MintedInAll(sha: Sha, l: View, events: seq<Event>): int {
    if events == [] then 0
    else MintedInAll(sha, l, events[..|events| - 1]) + MintedAt(sha, l, events, |events| - 1)
  }

  /** Over any run, whatever overflows, the supply changes by exactly what the calls minted. */
  lemma {:induction false} RunSupply(sha: Sha, blocks: set<Block>, l: View, events: seq<Event>)
    requires Unambiguous(sha, blocks) && Sound(sha, blocks, l) && From(events, blocks)
    ensures Supply(Run(sha, l, events).accounts.balances) == Supply(l.accounts.balances) + MintedInAll(sha, l, events)
  {
    if events != [] {
      var front, last := events[..|events| - 1], events[|events| - 1];
      RunSupply(sha, blocks, l, front);
      RunSound(sha, blocks, l, front);
      StepSupply(sha, blocks, Run(sha, l, front), last);
    }
  }

  /** An accepted block does not overflow; a refused one may say anything. */
  ghost predicate AcceptedFits(sha: Sha, l: View, e: Event) {
    Validate(sha, l, e.block, e.now).None? ==>
      var txs := e.block.transactions;
      if e.block.index > 0 then NoOverflow(l.accounts, txs, e.block.validatorID)
      else forall i :: 0 <= i < |txs| ==> AllocatedAt(l.accounts, txs, i)
  }

  /** Then a call mints its shortfalls or allocations, and never a negative amount. */
  lemma FittingMints(sha: Sha, l: View, e: Event)
    requires AcceptedFits(sha, l, e)
    ensures var txs := e.block.transactions;
            Minted(sha, l, e) ==
            if Validate(sha, l, e.block, e.now).Some? then 0
            else if e.block.index > 0 then Shortfalls(l.accounts, txs, e.block.validatorID)
            else if e.io.vertex && e.io.block then Amounts(txs) else 0
  {
    if Validate(sha, l, e.block, e.now).None? {
      if e.block.index > 0 {
        SupplyDrift(l.accounts, e.block.transactions, e.block.validatorID);
        SupplyChange(l.accounts, e.block.transactions, e.block.validatorID);
      } else {
        GenesisSupply(l.accounts, e.block.transactions);
      }
    }
  }

  ghost predicate FitsAtEvent(sha: Sha, l: View, events: seq<Event>, i: nat)
    requires i < |events|
  {
    AcceptedFits(sha, Run(sha, l, events[..i]), events[i])
  }

  ghost predicate NeverOverflows(sha: Sha, l: View, events: seq<Event>) {
    forall i :: 0 <= i < |events| ==> FitsAtEvent(sha, l, events, i)
  }

  ghost predicate MintsNothingAt(sha: Sha, l: View, events: seq<Event>, i: nat)
    requires i < |events|
  {
    MintedAt(sha, l, events, i) == 0
  }

  lemma SameInFront(sha: Sha, l: View, events: seq<Event>, i: nat)
    requires i < |events| - 1
    ensures MintsNothingAt(sha, l, events, i) == MintsNothingAt(sha, l, events[..|events| - 1], i)
    ensures FitsAtEvent(sha, l, events, i) == FitsAtEvent(sha, l, events[..|events| - 1], i)
  {
    assert events[..|events| - 1][..i] == events[..i];
  }

  lemma MintedByLast(sha: Sha, l: View, events: seq<Event>)
    requires events != [] && NeverOverflows(sha, l, events)
    ensures NeverOverflows(sha, l, events[..|events| - 1])
    ensures MintedInAll(sha, l, events) == MintedInAll(sha, l, events[..|events| - 1]) + MintedAt(sha, l, events, |events| - 1)
    ensures MintedAt(sha, l, events, |events| - 1) >= 0
  {
    var last := |events| - 1;
    assert FitsAtEvent(sha, l, events, last);
    FittingMints(sha, Run(sha, l, events[..last]), events[last]);
    forall i | 0 <= i < last ensures FitsAtEvent(sha, l, events[..last], i) {
      SameInFront(sha, l, events, i);
    }
  }

  lemma NothingByLast(sha: Sha, l: View, events: seq<Event>)
    requires events != []
    ensures var front := events[..|events| - 1];
            (forall i :: 0 <= i < |events| ==> MintsNothingAt(sha, l, events, i)) <==>
            (forall i :: 0 <= i < |front| ==> MintsNothingAt(sha, l, front, i)) && MintedAt(sha, l, events, |events| - 1) == 0
  {
    var front := events[..|events| - 1];
    forall i | 0 <= i < |front| ensures MintsNothingAt(sha, l, events, i) == MintsNothingAt(sha, l, front, i) {
      SameInFront(sha, l, events, i);
    }
    assert MintsNothingAt(sha, l, events, |events| - 1) <==> MintedAt(sha, l, events, |events| - 1) == 0;
  }

  lemma {:induction false} NothingMinted(sha: Sha, l: View, events: seq<Event>)
    requires NeverOverflows(sha, l, events)
    ensures MintedInAll(sha, l, events) >= 0
    ensures MintedInAll(sha, l, events) == 0 <==> forall i :: 0 <= i < |events| ==> MintsNothingAt(sha, l, events, i)
  {
    if events != [] {
      var front := events[..|events| - 1];
      MintedByLast(sha, l, events);
      NothingMinted(sha, l, front);
      NothingByLast(sha, l, events);
    }
  }

  /** A run whose accepted blocks do not overflow conserves the supply exactly when none of
      its calls mints anything. */
  lemma RunConservesExactly(sha: Sha, blocks: set<Block>, l: View, events: seq<Event>)
    requires Unambiguous(sha, blocks) && Sound(sha, blocks, l) && From(events, blocks) && NeverOverflows(sha, l, events)
    ensures Supply(Run(sha, l, events).accounts.balances) == Supply(l.accounts.balances) <==>
            forall i :: 0 <= i < |events| ==> MintsNothingAt(sha, l, events, i)
  {
    RunSupply(sha, blocks, l, events);
    NothingMinted(sha, l, events);
  }

  /** If it is accepted, it is a block without repeated pairs and wrapping costs. */
  ghost predicate OnlySpends(sha: Sha, l: View, e: Event) {
    Validate(sha, l, e.block, e.now).None? ==>
      e.block.index > 0 && NoRepeats(e.block.transactions) && AllCostsExact(e.block.transactions)
  }

  lemma StepConserves(sha: Sha, blocks: set<Block>, l: View, e: Event)
    requires Unambiguous(sha, blocks) && Sound(sha, blocks, l) && e.block in blocks
    requires Supply(l.accounts.balances) < HALF64 && OnlySpends(sha, l, e)
    ensures Supply(Step(sha, l, e).accounts.balances) == Supply(l.accounts.balances)
  {
    var b := e.block;
    StepSupply(sha, blocks, l, e);
    if Validate(sha, l, b, e.now).None? {
      ValidatesExactly(sha, l, b, e.now);
      Conserved(l.accounts, b.transactions, b.validatorID);
      SupplyDrift(l.accounts, b.transactions, b.validatorID);
    }
  }

  ghost predicate OnlySpendsAt(sha: Sha, l: View, events: seq<Event>, i: nat)
    requires i < |events|
  {
    OnlySpends(sha, Run(sha, l, events[..i]), events[i])
  }

  lemma SpendsInFront(sha: Sha, l: View, events: seq<Event>)
    requires events != [] && forall i :: 0 <= i < |events| ==> OnlySpendsAt(sha, l, events, i)
    ensures var front := events[..|events| - 1]; forall i :: 0 <= i < |front| ==> OnlySpendsAt(sha, l, front, i)
    ensures OnlySpends(sha, Run(sha, l, events[..|events| - 1]), events[|events| - 1])
  {
    var front := events[..|events| - 1];
    assert OnlySpendsAt(sha, l, events, |events| - 1);
    forall i | 0 <= i < |front| ensures OnlySpendsAt(sha, l, front, i) {
      assert front[..i] == events[..i] && OnlySpendsAt(sha, l, events, i);
    }
  }

  /** From a supply below 2^63, a run that accepts only such blocks, and refuses whatever
      else is submitted, conserves the supply. */
  lemma {:induction false} RunConserves(sha: Sha, blocks: set<Block>, l: View, events: seq<Event>)
    requires Unambiguous(sha, blocks) && Sound(sha, blocks, l) && From(events, blocks)
    requires Supply(l.accounts.balances) < HALF64 && forall i :: 0 <= i < |events| ==> OnlySpendsAt(sha, l, events, i)
    ensures Supply(Run(sha, l, events).accounts.balances) == Supply(l.accounts.balances)
  {
    if events != [] {
      var front, last := events[..|events| - 1], events[|events| - 1];
      SpendsInFront(sha, l, events);
      RunConserves(sha, blocks, l, front);
      RunSound(sha, blocks, l, front);
      StepConserves(sha, blocks, Run(sha, l, front), last);
    }
  }

  // ---------------------------------------------------------------------------
  // Blocks that storage refuses

  lemma {:induction false} AtMostAll(x: Address, txs: seq<Transaction>)
    ensures Sent(x, txs) <= |txs|
  {
    if txs != [] {
      AtMostAll(x, txs[..|txs| - 1]);
    }
  }

  lemma AdvanceMoves(n: uint64, k: nat)
    requires 0 < k < TWO64
    ensures Advance(n, k) != n
  {
    AdvanceModulo(n, k);
  }

  /** Applying transactions always shows in the nonces. */
  lemma AppliedShows(a: Accounts, txs: seq<Transaction>, validator: Address)
    requires 0 < |txs| < TWO64
    ensures ApplyAll(a, txs, validator) != a
  {
    var x := txs[0].sender;
    assert IsSender(x, txs);
    SentExactly(x, txs);
    AtMostAll(x, txs);
    NonceCounts(a, txs, validator, x);
    AdvanceMoves(a.Nonce(x), Sent(x, txs));
  }

  /** When storage refuses a validated block, the accounts are unchanged exactly when it is
      a genesis block or empty. */
  lemma RefusedExactly(sha: Sha, blocks: set<Block>, l: View, e: Event)
    requires Unambiguous(sha, blocks) && Sound(sha, blocks, l) && e.block in blocks && |e.block.transactions| < TWO64
    requires Validate(sha, l, e.block, e.now).None? && AddBlock(l, e.block, e.io).1.Some?
    ensures Step(sha, l, e).accounts == l.accounts <==> e.block.index == 0 || e.block.transactions == []
  {
    var b := e.block;
    ValidatesExactly(sha, l, b, e.now);
    Recurrence(sha, blocks, l, b);
    if b.index > 0 {
      NextStep(l, b, e.io);
      if b.transactions != [] {
        AppliedShows(l.accounts, b.transactions, b.validatorID);
      }
    }
  }

  /** And it stays refused: its transactions are spent, and submitting it again changes
      nothing any more, whatever storage does. */
  lemma RefusedForGood(sha: Sha, blocks: set<Block>, l: View, events: seq<Event>, i: nat, now: int64, io: Io)
    requires Unambiguous(sha, blocks) && Sound(sha, blocks, l) && From(events, blocks) && NoncesFit(sha, l, events)
    requires i < |events| && events[i].now <= now && events[i].block.index > 0
    requires 0 < |events[i].block.transactions| < TWO64
    requires Validate(sha, Run(sha, l, events[..i]), events[i].block, events[i].now).None?
    requires AddBlock(Run(sha, l, events[..i]), events[i].block, events[i].io).1.Some?
    ensures Run(sha, l, events[..i + 1]).accounts != Run(sha, l, events[..i]).accounts
    ensures Step(sha, Run(sha, l, events), Event(events[i].block, now, io)) == Run(sha, l, events)
  {
    RunSound(sha, blocks, l, events[..i]);
    RefusedExactly(sha, blocks, Run(sha, l, events[..i]), events[i]);
    assert events[..i + 1][..i] == events[..i];
    ReAddedUnchanged(sha, blocks, l, events, i, now, io);
  }
}
