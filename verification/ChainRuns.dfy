/** A chain fed by HandleIncomingBlock: one line of blocks, found again by the searches. */
module ChainRuns {
  import opened Common
  import opened Encoding
  import opened Types
  import opened Accounts
  import opened LedgerSpec
  import opened LedgerRuns
  import HeaderChain

  /** The block at each index names the one before it. */
  predicate InLine(blocks: seq<Block>, i: nat)
    requires i < |blocks|
  {
    blocks[i].index == i && (i > 0 ==> blocks[i].previousHash == blocks[i - 1].hash)
  }

  /** The whole graph is `blocks`, in this order, and the last one is the head. */
  ghost predicate Linear(c: Chain, blocks: seq<Block>) {
    && blocks != [] && c.head == Some(blocks[|blocks| - 1])
    && (forall i :: 0 <= i < |blocks| ==> InLine(blocks, i))
    && (forall i :: 0 <= i < |blocks| ==> blocks[i].hash in c.ledger.vertices && c.ledger.vertices[blocks[i].hash] == blocks[i])
    && (forall h :: h in c.ledger.vertices ==> c.ledger.vertices[h] in blocks && c.ledger.vertices[h].hash == h)
    && (forall i :: 0 < i < |blocks| ==> (blocks[i].previousHash, blocks[i].hash) in c.ledger.edges)
    && (forall e :: e in c.ledger.edges ==> e.1 in c.ledger.vertices && c.ledger.vertices[e.1].index > 0 &&
                                            e.0 == c.ledger.vertices[e.1].previousHash)
  }

  /** A ledger that holds one genesis block. */
  function Start(genesis: Block, accounts: Accounts): Chain {
    Chain(View(map[genesis.hash := genesis], {}, accounts), Some(genesis))
  }

  ghost predicate IsGenesis(sha: Sha, b: Block) {
    b.index == 0 && b.previousHash == ZERO_HASH && b.hash == HeaderChain.BlockHash(sha, b.HashedFields())
  }

  ghost function Incoming(sha: Sha, c: Chain, b: Block, now: int64): (c': Chain)
    requires c.head.Some?
    ensures c'.head.Some?
  {
    HandleIncoming(sha, c, b, now, WORKING).0
  }

  /** What the source asks of an incoming block: it is valid, and it names the head. */
  ghost predicate ExtendsHead(sha: Sha, c: Chain, b: Block, now: int64)
    requires c.head.Some?
  {
    Valid(sha, c.ledger, b, now) && b.previousHash == c.head.value.hash
  }

  ghost function RunChain(sha: Sha, c: Chain, events: seq<Event>): (c': Chain)
    requires c.head.Some?
    ensures c'.head.Some?
  {
    if events == [] then c
    else
      var last := events[|events| - 1];
      Incoming(sha, RunChain(sha, c, events[..|events| - 1]), last.block, last.now)
  }

  /** The blocks of the run that were valid extensions of the head when they came, in order. */
  ghost function Accepted(sha: Sha, c: Chain, events: seq<Event>): seq<Block>
    requires c.head.Some?
  {
    if events == [] then []
    else
      var front, last := events[..|events| - 1], events[|events| - 1];
      Accepted(sha, c, front) +
      if ExtendsHead(sha, RunChain(sha, c, front), last.block, last.now) then [last.block] else []
  }

  /** An accepted block follows the head and is new to the graph. */
  lemma AcceptedIsNew(sha: Sha, blocks: set<Block>, c: Chain, line: seq<Block>, b: Block, now: int64)
    requires Unambiguous(sha, blocks) && Sound(sha, blocks, c.ledger) && b in blocks && Linear(c, line)
    requires Validate(sha, c.ledger, b, now).None? && b.previousHash == c.head.value.hash
    ensures Placed(c.ledger.vertices, b) && b.index == |line| && b.hash !in c.ledger.vertices && b.hash != ZERO_HASH
  {
    var last := |line| - 1;
    ValidatesExactly(sha, c.ledger, b, now);
    assert line[last].hash in c.ledger.vertices && InLine(line, last);
    assert VertexOk(c.ledger.vertices, c.head.value.hash);
    Recurrence(sha, blocks, c.ledger, b);
    if b.hash in c.ledger.vertices {
      var twin := c.ledger.vertices[b.hash];
      assert twin.HashedFields().index == b.HashedFields().index;
      var i := SameBlockSameIndex(c, line, b.hash);
    }
  }

  lemma LineGrows(c: Chain, line: seq<Block>, b: Block, c': Chain)
    requires Linear(c, line) && b.index == |line| && b.hash !in c.ledger.vertices && b.previousHash == c.head.value.hash
    requires c'.head == Some(b) && c'.ledger.vertices == PutVertex(c.ledger.vertices, b)
    requires c'.ledger.edges == c.ledger.edges + {(b.previousHash, b.hash)}
    ensures Linear(c', line + [b])
  {
    var line' := line + [b];
    forall i | 0 <= i < |line'|
      ensures InLine(line', i) && line'[i].hash in c'.ledger.vertices && c'.ledger.vertices[line'[i].hash] == line'[i]
    {
      if i < |line| {
        assert InLine(line, i);
      }
    }
  }

  /** With working storage a block that extends the head is added and becomes the head. */
  lemma ExtensionIsAdded(sha: Sha, blocks: set<Block>, c: Chain, line: seq<Block>, b: Block, now: int64)
    requires Unambiguous(sha, blocks) && Sound(sha, blocks, c.ledger) && b in blocks && Linear(c, line)
    requires ExtendsHead(sha, c, b, now)
    ensures var (c', failed) := HandleIncoming(sha, c, b, now, WORKING);
            && failed == None && c'.head == Some(b)
            && c'.ledger.vertices == PutVertex(c.ledger.vertices, b)
            && c'.ledger.edges == c.ledger.edges + {(c.head.value.hash, b.hash)}
            && c'.ledger.accounts == ApplyAll(c.ledger.accounts, b.transactions, b.validatorID)
            && b.hash !in c.ledger.vertices && b.index == |line|
  {
    ValidatesExactly(sha, c.ledger, b, now);
    AcceptedIsNew(sha, blocks, c, line, b, now);
    NextStep(c.ledger, b, WORKING);
  }

  /** A call returns no error exactly for a valid block on the head; a valid block elsewhere
      is no extension, an invalid one reports its first failing check, and neither changes
      anything. */
  lemma IncomingExactly(sha: Sha, blocks: set<Block>, c: Chain, line: seq<Block>, b: Block, now: int64)
    requires Unambiguous(sha, blocks) && Sound(sha, blocks, c.ledger) && b in blocks && Linear(c, line)
    ensures var (c', failed) := HandleIncoming(sha, c, b, now, WORKING);
            && (failed == None <==> ExtendsHead(sha, c, b, now))
            && (failed == None ==> c'.head == Some(b))
            && (Valid(sha, c.ledger, b, now) && b.previousHash != c.head.value.hash ==> failed == Some(NotAnExtension))
            && (!Valid(sha, c.ledger, b, now) ==> failed == Validate(sha, c.ledger, b, now))
            && (failed.Some? ==> c' == c)
  {
    ValidatesExactly(sha, c.ledger, b, now);
    if ExtendsHead(sha, c, b, now) {
      ExtensionIsAdded(sha, blocks, c, line, b, now);
    }
  }

  /** A call either adds the block and grows the line by it, or changes nothing. */
  lemma IncomingKeepsLine(sha: Sha, blocks: set<Block>, c: Chain, line: seq<Block>, b: Block, now: int64)
    requires Unambiguous(sha, blocks) && Sound(sha, blocks, c.ledger) && b in blocks && Linear(c, line)
    ensures Sound(sha, blocks, Incoming(sha, c, b, now).ledger)
    ensures if ExtendsHead(sha, c, b, now) then Linear(Incoming(sha, c, b, now), line + [b]) else Incoming(sha, c, b, now) == c
  {
    IncomingExactly(sha, blocks, c, line, b, now);
    if ExtendsHead(sha, c, b, now) {
      ExtensionIsAdded(sha, blocks, c, line, b, now);
      ValidatesExactly(sha, c.ledger, b, now);
      StepSound(sha, blocks, c.ledger, Event(b, now, WORKING));
      LineGrows(c, line, b, Incoming(sha, c, b, now));
    }
  }

  lemma StartIsLine(sha: Sha, blocks: set<Block>, genesis: Block, accounts: Accounts)
    requires Unambiguous(sha, blocks) && IsGenesis(sha, genesis) && genesis in blocks
    ensures Sound(sha, blocks, Start(genesis, accounts).ledger) && Linear(Start(genesis, accounts), [genesis])
  {
    assert SameHashSameHeader(sha, genesis, genesis);
  }

  /** From one genesis block, after any run, the ledger is the line of genesis and the
      accepted blocks. */
  lemma {:induction false} RunIsLine(sha: Sha, blocks: set<Block>, genesis: Block, accounts: Accounts, events: seq<Event>)
    requires Unambiguous(sha, blocks) && IsGenesis(sha, genesis) && genesis in blocks && From(events, blocks)
    ensures var c := RunChain(sha, Start(genesis, accounts), events);
            Sound(sha, blocks, c.ledger) && Linear(c, [genesis] + Accepted(sha, Start(genesis, accounts), events))
  {
    var c0 := Start(genesis, accounts);
    StartIsLine(sha, blocks, genesis, accounts);
    if events == [] {
      assert [genesis] + [] == [genesis];
    } else {
      var front, last := events[..|events| - 1], events[|events| - 1];
      RunIsLine(sha, blocks, genesis, accounts, front);
      var line := [genesis] + Accepted(sha, c0, front);
      IncomingKeepsLine(sha, blocks, RunChain(sha, c0, front), line, last.block, last.now);
      GrowsBy(genesis, Accepted(sha, c0, front), last.block);
    }
  }

  lemma GrowsBy(genesis: Block, accepted: seq<Block>, b: Block)
    ensures [genesis] + accepted + [b] == [genesis] + (accepted + [b])
    ensures [genesis] + accepted == [genesis] + (accepted + [])
  {
    assert accepted + [] == accepted;
  }

  /** The accounts after the transactions of these blocks, one block after another. */
  function Replay(accounts: Accounts, blocks: seq<Block>): Accounts {
    if blocks == [] then accounts
    else
      var last := blocks[|blocks| - 1];
      ApplyAll(Replay(accounts, blocks[..|blocks| - 1]), last.transactions, last.validatorID)
  }

  /** The accounts, too, are those of the line: the replay of the accepted blocks. */
  lemma {:induction false} AccountsAreReplay(sha: Sha, blocks: set<Block>, genesis: Block, accounts: Accounts, events: seq<Event>)
    requires Unambiguous(sha, blocks) && IsGenesis(sha, genesis) && genesis in blocks && From(events, blocks)
    ensures RunChain(sha, Start(genesis, accounts), events).ledger.accounts ==
            Replay(accounts, Accepted(sha, Start(genesis, accounts), events))
  {
    if events != [] {
      var c0 := Start(genesis, accounts);
      var front, last := events[..|events| - 1], events[|events| - 1];
      var c, accepted := RunChain(sha, c0, front), Accepted(sha, c0, front);
      AccountsAreReplay(sha, blocks, genesis, accounts, front);
      RunIsLine(sha, blocks, genesis, accounts, front);
      IncomingAccounts(sha, blocks, c, [genesis] + accepted, last.block, last.now);
      assert (accepted + [last.block])[..|accepted|] == accepted && accepted + [] == accepted;
    }
  }

  lemma IncomingAccounts(sha: Sha, blocks: set<Block>, c: Chain, line: seq<Block>, b: Block, now: int64)
    requires Unambiguous(sha, blocks) && Sound(sha, blocks, c.ledger) && b in blocks && Linear(c, line)
    ensures Incoming(sha, c, b, now).ledger.accounts ==
            if ExtendsHead(sha, c, b, now) then ApplyAll(c.ledger.accounts, b.transactions, b.validatorID)
            else c.ledger.accounts
  {
    IncomingExactly(sha, blocks, c, line, b, now);
    if ExtendsHead(sha, c, b, now) {
      ExtensionIsAdded(sha, blocks, c, line, b, now);
    }
  }

  // ---------------------------------------------------------------------------
  // Searching a line

  lemma SameBlockSameIndex(c: Chain, line: seq<Block>, h: Digest) returns (i: nat)
    requires Linear(c, line) && h in c.ledger.vertices
    ensures i < |line| && line[i] == c.ledger.vertices[h] && line[i].hash == h && line[i].index == i
  {
    i :| 0 <= i < |line| && line[i] == c.ledger.vertices[h];
    assert InLine(line, i);
  }

  /** The head is the only vertex without successors. */
  lemma HeadIsOnlySink(c: Chain, line: seq<Block>, h: Digest)
    requires Linear(c, line)
    ensures IsSink(c.ledger, h) <==> h == c.head.value.hash
  {
    var n := |line|;
    if h in c.ledger.vertices {
      var i := SameBlockSameIndex(c, line, h);
      if i < n - 1 {
        var e := (line[i + 1].previousHash, line[i + 1].hash);
        assert InLine(line, i + 1) && e in c.ledger.edges && e.0 == h;
        if h == c.head.value.hash {
          DistinctHashes(c, line, i, n - 1);
        }
      } else if e :| e in c.ledger.edges && e.0 == h {
        var j := SameBlockSameIndex(c, line, e.1);
        assert InLine(line, j) && line[j].previousHash == line[j - 1].hash;
        DistinctHashes(c, line, j - 1, n - 1);
      }
    } else {
      assert line[n - 1].hash in c.ledger.vertices;
    }
  }

  lemma DistinctHashes(c: Chain, line: seq<Block>, i: nat, j: nat)
    requires Linear(c, line) && i < |line| && j < |line| && line[i].hash == line[j].hash
    ensures i == j
  {
    assert InLine(line, i) && InLine(line, j);
    assert c.ledger.vertices[line[i].hash] == line[i] && c.ledger.vertices[line[j].hash] == line[j];
  }

  /** GetLatestBlock finds the head, whatever order it searches in. */
  lemma LatestIsHead(c: Chain, line: seq<Block>, r: Option<Block>)
    requires Linear(c, line)
    ensures IsLatest(c.ledger, r) <==> r == c.head
  {
    HeadIsOnlySink(c, line, c.head.value.hash);
    assert c.ledger.vertices[line[|line| - 1].hash] == line[|line| - 1];
    match r
    case None =>
    case Some(b) =>
      if h :| IsSink(c.ledger, h) && b == c.ledger.vertices[h] {
        HeadIsOnlySink(c, line, h);
      }
  }

  /** GetBlockByIndex finds exactly the blocks after genesis, up to the height. */
  lemma ByIndexFinds(c: Chain, line: seq<Block>, index: uint64, r: Option<Block>)
    requires Linear(c, line)
    ensures IsBlockAt(c.ledger, index, r) <==> r == if 1 <= index < |line| then Some(line[index]) else None
    ensures c.head.Some? && c.head.value.index == |line| - 1
  {
    assert InLine(line, |line| - 1);
    if 1 <= index < |line| {
      var e := (line[index].previousHash, line[index].hash);
      assert InLine(line, index) && e in c.ledger.edges;
      assert IsTargetAt(c.ledger, e, index);
    }
    forall e | IsTargetAt(c.ledger, e, index) ensures 1 <= index < |line| && c.ledger.vertices[e.1] == line[index] {
      var i := SameBlockSameIndex(c, line, e.1);
    }
  }

  /** What the searches may return on the line of genesis and the accepted blocks. */
  ghost predicate Searchable(c: Chain, accepted: seq<Block>, latest: Option<Block>, index: uint64, found: Option<Block>) {
    && c.head.Some? && c.head.value.index == |accepted|
    && (IsLatest(c.ledger, latest) <==> latest == c.head)
    && (IsBlockAt(c.ledger, index, found) <==>
        found == if 1 <= index <= |accepted| then Some(accepted[index - 1]) else None)
  }

  lemma LineIsSearchable(c: Chain, genesis: Block, accepted: seq<Block>, latest: Option<Block>, index: uint64, found: Option<Block>)
    requires Linear(c, [genesis] + accepted)
    ensures Searchable(c, accepted, latest, index, found)
  {
    LatestIsHead(c, [genesis] + accepted, latest);
    ByIndexFinds(c, [genesis] + accepted, index, found);
  }

  /** All of it for a run: the height counts the accepted blocks, the latest block is the
      head, and looking up an index gives the block accepted at it and nothing else. */
  lemma RunIsSearchable(sha: Sha, blocks: set<Block>, genesis: Block, accounts: Accounts, events: seq<Event>,
                        latest: Option<Block>, index: uint64, found: Option<Block>)
    requires Unambiguous(sha, blocks) && IsGenesis(sha, genesis) && genesis in blocks && From(events, blocks)
    ensures Searchable(RunChain(sha, Start(genesis, accounts), events), Accepted(sha, Start(genesis, accounts), events),
                       latest, index, found)
  {
    RunIsLine(sha, blocks, genesis, accounts, events);
    LineIsSearchable(RunChain(sha, Start(genesis, accounts), events), genesis,
                     Accepted(sha, Start(genesis, accounts), events), latest, index, found);
  }
}
