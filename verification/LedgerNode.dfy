/** The ledger and the chain as objects, proved against LedgerSpec. */
module LedgerNode {
  import opened Common
  import opened Encoding
  import opened Types
  import opened Accounts
  import opened LedgerSpec
  import opened LedgerRuns
  import Merkle
  import HeaderChain

  class State {
    var balances: map<Address, uint64>
    var nonces: map<Address, uint64>

    ghost function Contents(): Accounts
      reads this
    {
      Accounts(balances, nonces)
    }

    constructor ()
      ensures Contents() == EMPTY
    {
      balances, nonces := map[], map[];
    }

    method GetBalance(x: Address) returns (r: uint64)
      ensures r == Contents().Balance(x)
    {
      r := Get(balances, x, 0);
    }

    method GetNonce(x: Address) returns (r: uint64)
      ensures r == Contents().Nonce(x)
    {
      r := Get(nonces, x, 0);
    }

    method UpdateBalance(x: Address, amount: int64)
      modifies this
      ensures Contents() == old(Contents()).UpdateBalance(x, amount)
    {
      var currentBalance := Get(balances, x, 0);
      var newBalance := Signed(ToInt64(currentBalance) + amount);
      if newBalance < 0 {
        newBalance := 0;
      }
      balances := Put(balances, x, newBalance);
    }

    method IncrementNonce(x: Address)
      modifies this
      ensures Contents() == old(Contents()).IncrementNonce(x)
    {
      nonces := Put(nonces, x, Next(Get(nonces, x, 0)));
    }
  }

  // ---------------------------------------------------------------------------
  // The cycle check

  lemma PathBefore(edges: set<Edge>, e: Edge, source: Digest)
    requires e in edges && HasPath(edges, e.1, source)
    ensures HasPath(edges, e.0, source)
  {
    var p :| Connects(edges, p, e.1, source);
    assert Connects(edges, [e.0] + p, e.0, source);
  }

  lemma {:induction false} ClosedUnderPaths(edges: set<Edge>, visited: set<Digest>, p: seq<Digest>)
    requires IsPath(edges, p) && p[|p| - 1] in visited
    requires forall e :: e in edges && e.1 in visited ==> e.0 in visited
    ensures p[0] in visited
    decreases |p|
  {
    if |p| > 1 {
      assert (p[0], p[0 + 1]) in edges;
      var rest := p[1..];
      forall i | 0 <= i < |rest| - 1 ensures (rest[i], rest[i + 1]) in edges {
        assert (p[i + 1], p[i + 1 + 1]) in edges;
      }
      ClosedUnderPaths(edges, visited, rest);
    }
  }

  function Sources(edges: set<Edge>): set<Digest> { set e | e in edges :: e.0 }

  function Predecessors(edges: set<Edge>, h: Digest): set<Digest> { set e | e in edges && e.1 == h :: e.0 }

  /** Would an edge from `source` to `target` close a cycle? Searches backwards from
      `source` for `target`. */
  method ClosesCycle(edges: set<Edge>, source: Digest, target: Digest) returns (r: bool)
    ensures r <==> HasPath(edges, target, source)
  {
    var work, visited := {source}, {};
    assert Connects(edges, [source], source, source);
    while work != {}
      invariant source in visited + work && target !in visited && work !! visited
      invariant forall x :: x in visited + work ==> HasPath(edges, x, source)
      invariant forall e :: e in edges && e.1 in visited ==> e.0 in visited + work
      invariant visited + work <= Sources(edges) + {source}
      decreases |Sources(edges) + {source} - visited|
    {
      var current :| current in work;
      if current == target {
        return true;
      }
      assert current in Sources(edges) + {source} - visited;
      forall x | x in Predecessors(edges, current) ensures HasPath(edges, x, source) {
        PathBefore(edges, (x, current), source);
      }
      assert Sources(edges) + {source} - (visited + {current}) == Sources(edges) + {source} - visited - {current};
      visited := visited + {current};
      work := work + Predecessors(edges, current) - visited;
    }
    if p :| Connects(edges, p, target, source) {
      ClosedUnderPaths(edges, visited, p);
    }
    r := false;
  }

  // ---------------------------------------------------------------------------
  // The ledger

  class Ledger {
    var vertices: Vertices
    var edges: set<Edge>
    const state: State

    ghost function Contents(): View
      reads this, state
    {
      View(vertices, edges, state.Contents())
    }

    constructor ()
      ensures Contents() == View(map[], {}, EMPTY) && fresh(state)
    {
      vertices, edges := map[], {};
      state := new State();
    }

    method Apply(tx: Transaction, validator: Address)
      modifies state
      ensures state.Contents() == ApplyTransaction(old(state.Contents()), tx, validator)
    {
      state.UpdateBalance(tx.sender, Debit(tx));
      state.IncrementNonce(tx.sender);
      state.UpdateBalance(tx.recipient, ToInt64(tx.amount));
      state.UpdateBalance(validator, ToInt64(tx.fee));
    }

    method ApplyBlock(block: Block)
      modifies state
      ensures state.Contents() == ApplyAll(old(state.Contents()), block.transactions, block.validatorID)
    {
      var txs := block.transactions;
      assert txs[..0] == [];
      for i := 0 to |txs|
        invariant state.Contents() == ApplyAll(old(state.Contents()), txs[..i], block.validatorID)
      {
        var tx := txs[i];
        Apply(tx, block.validatorID);
        assert txs[..i + 1][..i] == txs[..i] && txs[..i + 1][i] == tx;
      }
      assert txs[..|txs|] == txs;
    }

    method CreditRecipients(txs: seq<Transaction>)
      modifies state
      ensures state.Contents() == CreditAll(old(state.Contents()), txs)
    {
      assert txs[..0] == [];
      for i := 0 to |txs|
        invariant state.Contents() == CreditAll(old(state.Contents()), txs[..i])
      {
        assert txs[..i + 1][..i] == txs[..i];
        state.UpdateBalance(txs[i].recipient, ToInt64(txs[i].amount));
      }
      assert txs[..|txs|] == txs;
    }

    /** Applies the block to the state before it is known whether the graph takes it. */
    method AddBlock(block: Block, io: Io) returns (failed: Option<Error>)
      modifies this, state
      ensures (Contents(), failed) == LedgerSpec.AddBlock(old(Contents()), block, io)
    {
      if block.previousHash == ZERO_HASH {
        if !io.vertex {
          return Some(StorageFailed);
        }
        vertices := PutVertex(vertices, block);
        if !io.block {
          return Some(StorageFailed);
        }
        CreditRecipients(block.transactions);
        return None;
      }
      ApplyBlock(block);
      if !io.vertex {
        return Some(StorageFailed);
      }
      vertices := PutVertex(vertices, block);
      if block.previousHash !in vertices {
        return Some(PreviousNotFound);
      }
      var createsCycle := ClosesCycle(edges, block.previousHash, block.hash);
      if createsCycle {
        return Some(CreatesCycle);
      }
      var edge := (block.previousHash, block.hash);
      if edge !in edges && !io.edge {
        return Some(StorageFailed);
      }
      edges := edges + {edge};
      failed := None;
    }

    method GetBlock(hash: Digest) returns (r: Option<Block>)
      ensures r == if hash in vertices then Some(vertices[hash]) else None
    {
      r := if hash in vertices then Some(vertices[hash]) else None;
    }

    method GetBlockByIndex(index: uint64) returns (r: Option<Block>)
      ensures IsBlockAt(Contents(), index, r)
    {
      var rest := edges;
      while rest != {}
        invariant rest <= edges && forall e :: e in edges && e !in rest ==> !IsTargetAt(Contents(), e, index)
        decreases rest
      {
        var e :| e in rest;
        if e.1 in vertices && vertices[e.1].index == index {
          assert IsTargetAt(Contents(), e, index);
          return Some(vertices[e.1]);
        }
        rest := rest - {e};
      }
      r := None;
    }

    method GetLatestBlock() returns (r: Option<Block>)
      ensures IsLatest(Contents(), r)
    {
      var rest := vertices.Keys;
      while rest != {}
        invariant rest <= vertices.Keys && forall h :: h in vertices && h !in rest ==> !IsSink(Contents(), h)
        decreases rest
      {
        var h :| h in rest;
        if !exists e :: e in edges && e.0 == h {
          assert IsSink(Contents(), h);
          return Some(vertices[h]);
        }
        rest := rest - {h};
      }
      r := None;
    }
  }

  // ---------------------------------------------------------------------------
  // The chain

  class Blockchain {
    const sha: Sha
    const ledger: Ledger
    var head: Option<Block>
    var genesisBlock: Option<Block>

    ghost function Contents(): Chain
      reads this, ledger, ledger.state
    {
      Chain(ledger.Contents(), head)
    }

    constructor (sha: Sha, ledger: Ledger)
      ensures this.sha == sha && this.ledger == ledger && head == genesisBlock == None
    {
      this.sha, this.ledger := sha, ledger;
      head, genesisBlock := None, None;
    }

    /** Finds the head and walks back to genesis. It asks no more than that such a walk
        ends, after at most `n` steps, from wherever it may start. */
    method Setup() returns (failed: Option<Error>, ghost n: nat)
      requires WalksEnd(ledger.Contents())
      modifies this
      ensures if failed == Some(NoLatestBlock) then
                head == old(head) && genesisBlock == old(genesisBlock) && IsLatest(ledger.Contents(), None)
              else
                && head.Some? && IsLatest(ledger.Contents(), head) && Ends(ledger.vertices, head.value, n)
                && match WalkBack(ledger.vertices, head.value, n)
                   case Some(genesis) => failed == None && genesisBlock == Some(genesis)
                   case None => failed == Some(PreviousNotFound) && genesisBlock == old(genesisBlock)
    {
      n := 0;
      var latest := ledger.GetLatestBlock();
      if latest.None? {
        return Some(NoLatestBlock), 0;
      }
      head := latest;
      ghost var h :| IsSink(ledger.Contents(), h) && latest.value == ledger.vertices[h];
      assert WalkEndsFrom(ledger.vertices, ledger.vertices[h]);
      n :| Ends(ledger.vertices, latest.value, n);
      var current := latest.value;
      ghost var left := n;
      while current.previousHash != ZERO_HASH
        invariant head == latest && genesisBlock == old(genesisBlock) && Ends(ledger.vertices, current, left)
        invariant WalkBack(ledger.vertices, latest.value, n) == WalkBack(ledger.vertices, current, left)
        decreases left
      {
        var previous := ledger.GetBlock(current.previousHash);
        if previous.None? {
          return Some(PreviousNotFound), n;
        }
        current := previous.value;
        left := left - 1;
      }
      genesisBlock := Some(current);
      failed := None;
    }

    method GetChainHeight() returns (r: Option<uint64>)
      ensures r == if head.None? then None else Some(head.value.index)
    {
      r := if head.None? then None else Some(head.value.index);
    }

    method ValidateTransaction(tx: Transaction, isGenesis: bool) returns (r: Option<Error>)
      ensures r == LedgerSpec.ValidateTransaction(ledger.state.Contents(), tx, isGenesis)
    {
      if tx.sender == ZERO_ADDRESS {
        return Some(ZeroSender);
      }
      if tx.amount <= 0 {
        return Some(ZeroAmount);
      }
      if !isGenesis {
        var senderBalance := ledger.state.GetBalance(tx.sender);
        if senderBalance < Cost(tx) {
          return Some(InsufficientBalance);
        }
        var nonce := ledger.state.GetNonce(tx.sender);
        if tx.nonce != Next(nonce) {
          return Some(WrongNonce);
        }
      }
      r := None;
    }

    method ValidateBlock(block: Block, now: int64) returns (r: Option<Error>)
      ensures r == Validate(sha, ledger.Contents(), block, now)
    {
      if block.index == 0 && block.previousHash != ZERO_HASH {
        return Some(GenesisLinked);
      }
      if block.index > 0 {
        var previous := ledger.GetBlock(block.previousHash);
        if previous.None? {
          return Some(PreviousNotFound);
        }
        if block.index != (previous.value.index + 1) % TWO64 {
          return Some(NotSequential);
        }
      }
      var expectedHash := HeaderChain.ComputeHash(sha, block.HashedFields());
      if block.hash != expectedHash {
        return Some(WrongHash);
      }
      var expectedMerkleRoot := Merkle.ComputeMerkleRoot(sha, block.TransactionIDs());
      if block.merkleRoot != expectedMerkleRoot {
        return Some(WrongMerkleRoot);
      }
      if block.timestamp > now + MAX_TIME_DRIFT {
        return Some(FromTheFuture);
      }
      if block.index > 0 {
        var previous := ledger.GetBlock(block.previousHash);
        if block.timestamp < previous.value.timestamp {
          return Some(TooOld);
        }
      }
      r := ValidateAll(block.transactions, block.index == 0);
    }

    method ValidateAll(txs: seq<Transaction>, isGenesis: bool) returns (r: Option<Error>)
      ensures r == ValidateTransactions(ledger.state.Contents(), txs, isGenesis)
    {
      ghost var a := ledger.state.Contents();
      assert txs[0..] == txs;
      for i := 0 to |txs|
        invariant ValidateTransactions(a, txs, isGenesis) == ValidateTransactions(a, txs[i..], isGenesis)
      {
        assert txs[i..][1..] == txs[i + 1..];
        var failed := ValidateTransaction(txs[i], isGenesis);
        if failed.Some? {
          return failed;
        }
      }
      r := None;
    }

    method AddBlock(block: Block, now: int64, io: Io) returns (failed: Option<Error>)
      modifies this, ledger, ledger.state
      ensures genesisBlock == old(genesisBlock)
      ensures (Contents(), failed) == Extend(sha, old(Contents()), block, now, io)
    {
      failed := ValidateBlock(block, now);
      if failed.Some? {
        return;
      }
      failed := ledger.AddBlock(block, io);
      if failed.None? {
        head := Some(block);
      }
    }

    method HandleIncomingBlock(block: Block, now: int64, io: Io) returns (failed: Option<Error>)
      requires head.Some? || Validate(sha, ledger.Contents(), block, now).Some?
      modifies this, ledger, ledger.state
      ensures genesisBlock == old(genesisBlock)
      ensures (Contents(), failed) == HandleIncoming(sha, old(Contents()), block, now, io)
    {
      failed := ValidateBlock(block, now);
      if failed.Some? {
        return;
      }
      if block.previousHash != head.value.hash {
        return Some(NotAnExtension);
      }
      failed := ledger.AddBlock(block, io);
      if failed.None? {
        head := Some(block);
      }
    }
  }
}
