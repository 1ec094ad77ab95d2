/** The block producer: transactions move from the pool into one new block, or nothing
    happens at all. */
module Producer {
  import opened Common
  import opened Encoding
  import opened Types
  import opened Accounts
  import opened LedgerSpec
  import opened LedgerRuns
  import opened LedgerNode
  import Pending = TxPool
  import Merkle
  import HeaderChain

  const BATCH := 100

  datatype Status = Started | Failed | Produced

  /** types.NewBlock, for transactions that are there. */
  function NewBlock(sha: Sha, index: uint64, previousHash: Digest, txs: seq<Transaction>, validator: Address,
                    difficulty: uint64, stamp: int64): Block
  {
    var b := Block(index, stamp, previousHash, ZERO_HASH, ZERO_HASH, [], "", validator, txs, difficulty, 1, []);
    var rooted := b.(merkleRoot := Merkle.MerkleRoot(sha, b.TransactionIDs()));
    rooted.(hash := HeaderChain.BlockHash(sha, rooted.HashedFields()))
  }

  /** The block forged on top of another one. */
  function NextBlock(sha: Sha, latest: Block, txs: seq<Transaction>, stamp: int64): Block {
    NewBlock(sha, (latest.index + 1) % TWO64, latest.hash, txs, latest.validatorID, latest.difficulty, stamp)
  }

  /** The new chain and pool, given the transactions and the latest block that were found. */
  ghost function Forge(sha: Sha, c: Chain, m: Pending.Pool, txs: seq<Transaction>, latest: Option<Block>,
                       stamp: int64, now: int64, io: Io): (Chain, Pending.Pool, Status)
  {
    if txs == [] || latest.None? then (c, m, Failed) else Submit(sha, c, m, NextBlock(sha, latest.value, txs, stamp), now, io)
  }

  ghost function Submit(sha: Sha, c: Chain, m: Pending.Pool, b: Block, now: int64, io: Io): (Chain, Pending.Pool, Status) {
    var (c', failed) := Extend(sha, c, b, now, io);
    if failed.Some? then (c', m, Failed) else (c', m - Pending.Ids(b.transactions), Produced)
  }

  lemma NewBlockIsSealed(sha: Sha, index: uint64, previousHash: Digest, txs: seq<Transaction>, validator: Address,
                         difficulty: uint64, stamp: int64)
    ensures var b := NewBlock(sha, index, previousHash, txs, validator, difficulty, stamp);
            && b.hash == HeaderChain.BlockHash(sha, b.HashedFields())
            && b.merkleRoot == Merkle.MerkleRoot(sha, b.TransactionIDs())
            && b.index == index && b.previousHash == previousHash && b.transactions == txs && b.timestamp == stamp
            && b.validatorID == validator && b.difficulty == difficulty && b.version == 1
            && b.signature == [] && b.finalizedBy == []
  {
    var b := NewBlock(sha, index, previousHash, txs, validator, difficulty, stamp);
    var blank := Block(index, stamp, previousHash, ZERO_HASH, ZERO_HASH, [], "", validator, txs, difficulty, 1, []);
    assert b.TransactionIDs() == blank.TransactionIDs();
    var rooted := blank.(merkleRoot := Merkle.MerkleRoot(sha, blank.TransactionIDs()));
    assert b.HashedFields() == rooted.HashedFields();
  }

  /** What the block to be forged needs: indices left, an orderly clock, and transactions
      that are all payable from the accounts as they are. */
  predicate Forgeable(a: Accounts, latest: Block, txs: seq<Transaction>, stamp: int64, now: int64) {
    && latest.index < TWO64 - 1 && latest.timestamp <= stamp <= now + 300
    && forall i :: 0 <= i < |txs| ==> Payable(a, txs[i])
  }

  lemma SinkIsKnown(l: View, latest: Block)
    requires Linked(l) && IsLatest(l, Some(latest))
    ensures latest.hash in l.vertices && l.vertices[latest.hash] == latest
  {
    var h :| IsSink(l, h) && latest == l.vertices[h];
    assert VertexOk(l.vertices, h);
  }

  lemma ValidExactly(sha: Sha, l: View, latest: Block, txs: seq<Transaction>, stamp: int64, now: int64)
    requires latest.hash in l.vertices && l.vertices[latest.hash] == latest && latest.hash != ZERO_HASH
    ensures Valid(sha, l, NextBlock(sha, latest, txs, stamp), now) <==> Forgeable(l.accounts, latest, txs, stamp, now)
  {
    var b := NextBlock(sha, latest, txs, stamp);
    NewBlockIsSealed(sha, (latest.index + 1) % TWO64, latest.hash, txs, latest.validatorID, latest.difficulty, stamp);
    if latest.index < TWO64 - 1 {
      assert b.index == latest.index + 1;
    } else {
      assert b.index == 0;
    }
  }

  /** The old pool is the disjoint union of the new pool and the block. */
  ghost predicate Moved(m: Pending.Pool, m': Pending.Pool, txs: seq<Transaction>) {
    && |txs| == (if |m| < 100 then |m| else 100) && Pending.SortedByNonce(txs)
    && m'.Keys !! Pending.Ids(txs) && m.Keys == m'.Keys + Pending.Ids(txs)
    && (forall id :: id in m' ==> m'[id] == m[id])
    && (forall i :: 0 <= i < |txs| ==> txs[i].id in m && m[txs[i].id] == txs[i])
    && (forall i, j :: 0 <= i < j < |txs| ==> txs[i].id != txs[j].id)
  }

  lemma SelectionMoves(m: Pending.Pool, txs: seq<Transaction>)
    requires Pending.Keyed(m) && Pending.Selects(m, BATCH, txs)
    ensures Moved(m, m - Pending.Ids(txs), txs)
  {
    forall i | 0 <= i < |txs| ensures txs[i].id in m && m[txs[i].id] == txs[i] {
      var id :| id in m && m[id] == txs[i];
    }
    forall id | id in Pending.Ids(txs) ensures id in m {
      Pending.IdsMembers(txs, id);
    }
  }

  /** One valid block on the latest one, and nothing else: made by its validator at its
      difficulty, stamped with the time it was made, not signed and not finalized. The
      validator of the latest block earns the fees. */
  ghost predicate Appended(sha: Sha, c: Chain, c': Chain, latest: Block, txs: seq<Transaction>, stamp: int64, now: int64) {
    c'.head.Some? &&
    var b := c'.head.value;
    && Valid(sha, c.ledger, b, now) && b.previousHash == latest.hash && b.index == latest.index + 1 && b.transactions == txs
    && b.validatorID == latest.validatorID && b.difficulty == latest.difficulty && b.timestamp == stamp && b.version == 1
    && b.signature == [] && b.finalizedBy == []
    && c'.ledger == View(PutVertex(c.ledger.vertices, b), c.ledger.edges + {(latest.hash, b.hash)},
                         ApplyAll(c.ledger.accounts, txs, latest.validatorID))
  }

  lemma ForgeAppends(sha: Sha, blocks: set<Block>, c: Chain, txs: seq<Transaction>, latest: Block, stamp: int64, now: int64)
    requires Unambiguous(sha, blocks) && Sound(sha, blocks, c.ledger) && NextBlock(sha, latest, txs, stamp) in blocks
    requires IsLatest(c.ledger, Some(latest)) && Forgeable(c.ledger.accounts, latest, txs, stamp, now)
    ensures var (c', failed) := Extend(sha, c, NextBlock(sha, latest, txs, stamp), now, WORKING);
            failed == None && Appended(sha, c, c', latest, txs, stamp, now)
  {
    var b := NextBlock(sha, latest, txs, stamp);
    SinkIsKnown(c.ledger, latest);
    assert VertexOk(c.ledger.vertices, latest.hash);
    NewBlockIsSealed(sha, (latest.index + 1) % TWO64, latest.hash, txs, latest.validatorID, latest.difficulty, stamp);
    ValidExactly(sha, c.ledger, latest, txs, stamp, now);
    ValidatesExactly(sha, c.ledger, b, now);
    Recurrence(sha, blocks, c.ledger, b);
    NextStep(c.ledger, b, WORKING);
  }

  /** All or nothing: a block is produced exactly when there are transactions and a latest
      block on which they can be forged; then it is appended and exactly its transactions
      leave the pool. Otherwise neither chain nor pool change. */
  lemma ForgeAllOrNothing(sha: Sha, blocks: set<Block>, c: Chain, m: Pending.Pool, txs: seq<Transaction>,
                          latest: Option<Block>, stamp: int64, now: int64)
    requires Unambiguous(sha, blocks) && Sound(sha, blocks, c.ledger) && Pending.Keyed(m)
    requires latest.Some? ==> NextBlock(sha, latest.value, txs, stamp) in blocks
    requires Pending.Selects(m, BATCH, txs) && IsLatest(c.ledger, latest)
    ensures var (c', m', status) := Forge(sha, c, m, txs, latest, stamp, now, WORKING);
            var possible := txs != [] && latest.Some? && Forgeable(c.ledger.accounts, latest.value, txs, stamp, now);
            if possible then status == Produced && Appended(sha, c, c', latest.value, txs, stamp, now) && Moved(m, m', txs)
            else status == Failed && c' == c && m' == m
  {
    if txs != [] && latest.Some? {
      SinkIsKnown(c.ledger, latest.value);
      assert VertexOk(c.ledger.vertices, latest.value.hash);
      if Forgeable(c.ledger.accounts, latest.value, txs, stamp, now) {
        ForgeAppends(sha, blocks, c, txs, latest.value, stamp, now);
        SelectionMoves(m, txs);
      } else {
        ValidExactly(sha, c.ledger, latest.value, txs, stamp, now);
        ValidatesExactly(sha, c.ledger, NextBlock(sha, latest.value, txs, stamp), now);
      }
    }
  }

  /** A pool that fits into one block and holds two transactions of one sender with
      different nonces blocks the producer: nothing can be forged from it. */
  lemma TwoNoncesBlock(m: Pending.Pool, txs: seq<Transaction>, x: Digest, y: Digest, a: Accounts, latest: Block,
                       stamp: int64, now: int64)
    requires Pending.Keyed(m) && Pending.Selects(m, BATCH, txs) && |m| <= 100
    requires x in m && y in m && m[x].sender == m[y].sender && m[x].nonce != m[y].nonce
    ensures !Forgeable(a, latest, txs, stamp, now)
  {
    SelectionMoves(m, txs);
    assert Pending.Lists(m, txs);
    Pending.ListsAll(m, txs, x);
    Pending.ListsAll(m, txs, y);
    var i :| 0 <= i < |txs| && txs[i] == m[x];
    var j :| 0 <= j < |txs| && txs[j] == m[y];
    assert !(Payable(a, txs[i]) && Payable(a, txs[j]));
  }

  /** From a supply below 2^63 the block that is forged conserves the supply and takes from
      its senders only, if nobody is selected twice with one nonce and no cost wraps. */
  lemma ForgedConserves(sha: Sha, c: Chain, c': Chain, latest: Block, txs: seq<Transaction>, stamp: int64, now: int64)
    requires Appended(sha, c, c', latest, txs, stamp, now) && Supply(c.ledger.accounts.balances) < HALF64
    requires NoRepeats(txs) && AllCostsExact(txs)
    ensures Supply(c'.ledger.accounts.balances) == Supply(c.ledger.accounts.balances)
    ensures forall x :: !IsSender(x, txs) ==> c'.ledger.accounts.Balance(x) >= c.ledger.accounts.Balance(x)
  {
    Conserved(c.ledger.accounts, txs, latest.validatorID);
  }

  // ---------------------------------------------------------------------------
  // The producer

  class BlockProducer {
    const pool: Pending.TxPool
    const blockchain: Blockchain
    var status: Status

    constructor (pool: Pending.TxPool, blockchain: Blockchain)
      ensures this.pool == pool && this.blockchain == blockchain
    {
      this.pool, this.blockchain, status := pool, blockchain, Started;
    }

    /** `stamp` and `now` are the clock when the block is made and when it is validated. */
    method ForgeBlock(stamp: int64, now: int64, io: Io) returns (ghost txs: seq<Transaction>, ghost latest: Option<Block>)
      requires pool.Valid()
      modifies this, pool`transactions, blockchain, blockchain.ledger, blockchain.ledger.state
      ensures pool.Valid()
      ensures Pending.Selects(old(pool.transactions), BATCH, txs)
      ensures txs != [] ==> IsLatest(old(blockchain.ledger.Contents()), latest)
      ensures (blockchain.Contents(), pool.transactions, status) ==
              Forge(blockchain.sha, old(blockchain.Contents()), old(pool.transactions), txs, latest, stamp, now, io)
    {
      status := Started;
      latest := None;
      var selected := pool.GetTransactions(BATCH);
      txs := selected;
      if |selected| == 0 {
        status := Failed;
        return;
      }
      var latestBlock := blockchain.ledger.GetLatestBlock();
      latest := latestBlock;
      if latestBlock.None? {
        status := Failed;
        return;
      }
      assert blockchain.Contents() == old(blockchain.Contents()) && pool.transactions == old(pool.transactions);
      var newBlock := MakeNext(latestBlock.value, selected, stamp);
      AddAndRemove(newBlock, now, io);
    }

    method AddAndRemove(newBlock: Block, now: int64, io: Io)
      requires pool.Valid()
      modifies this, pool`transactions, blockchain, blockchain.ledger, blockchain.ledger.state
      ensures pool.Valid()
      ensures (blockchain.Contents(), pool.transactions, status) ==
              Submit(blockchain.sha, old(blockchain.Contents()), old(pool.transactions), newBlock, now, io)
    {
      var failed := blockchain.AddBlock(newBlock, now, io);
      if failed.Some? {
        status := Failed;
        return;
      }
      RemoveAll(newBlock.transactions);
      status := Produced;
    }

    method MakeNext(latest: Block, txs: seq<Transaction>, stamp: int64) returns (b: Block)
      ensures b == NextBlock(blockchain.sha, latest, txs, stamp)
    {
      b := MakeBlock((latest.index + 1) % TWO64, latest.hash, txs, latest.validatorID, latest.difficulty, stamp);
    }

    method MakeBlock(index: uint64, previousHash: Digest, txs: seq<Transaction>, validator: Address, difficulty: uint64,
                     stamp: int64) returns (b: Block)
      ensures b == NewBlock(blockchain.sha, index, previousHash, txs, validator, difficulty, stamp)
    {
      b := Block(index, stamp, previousHash, ZERO_HASH, ZERO_HASH, [], "", validator, txs, difficulty, 1, []);
      var root := Merkle.ComputeMerkleRoot(blockchain.sha, b.TransactionIDs());
      b := b.(merkleRoot := root);
      var hash := HeaderChain.ComputeHash(blockchain.sha, b.HashedFields());
      b := b.(hash := hash);
    }

    method RemoveAll(txs: seq<Transaction>)
      requires pool.Valid()
      modifies pool`transactions
      ensures pool.Valid() && pool.transactions == old(pool.transactions) - Pending.Ids(txs)
    {
      for i := 0 to |txs|
        invariant pool.Valid() && pool.transactions == old(pool.transactions) - Pending.Ids(txs[..i])
      {
        pool.RemoveTransaction(txs[i].id);
        assert txs[..i + 1][..i] == txs[..i];
      }
      assert txs[..|txs|] == txs;
    }
  }
}
