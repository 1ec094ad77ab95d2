/** The ledger as a value: the block graph and the accounts, with block validation and
    the addition of a block as functions on it. */
module LedgerSpec {
  import opened Common
  import opened Encoding
  import opened Types
  import opened Accounts
  import Merkle
  import HeaderChain

  const MAX_TIME_DRIFT := 300

  type Edge = (Digest, Digest)

  type Vertices = map<Digest, Block>

  datatype View = View(vertices: Vertices, edges: set<Edge>, accounts: Accounts)

  /** Which writes to storage succeed: the vertex, the serialized genesis block, the edge. */
  datatype Io = Io(vertex: bool, block: bool, edge: bool)

  const WORKING: Io := Io(true, true, true)

  datatype Error =
    | GenesisLinked | PreviousNotFound | NotSequential | WrongHash | WrongMerkleRoot | FromTheFuture | TooOld
    | ZeroSender | ZeroAmount | InsufficientBalance | WrongNonce
    | StorageFailed | CreatesCycle | NotAnExtension | NoLatestBlock

  // ---------------------------------------------------------------------------
  // Validation

  function ValidateTransaction(a: Accounts, tx: Transaction, isGenesis: bool): Option<Error> {
    if tx.sender == ZERO_ADDRESS then Some(ZeroSender)
    else if tx.amount == 0 then Some(ZeroAmount)
    else if !isGenesis && a.Balance(tx.sender) < Cost(tx) then Some(InsufficientBalance)
    else if !isGenesis && tx.nonce != Next(a.Nonce(tx.sender)) then Some(WrongNonce)
    else None
  }

  /** The first error in the order of the list. */
  function ValidateTransactions(a: Accounts, txs: seq<Transaction>, isGenesis: bool): Option<Error> {
    if txs == [] then None
    else
      var first := ValidateTransaction(a, txs[0], isGenesis);
      if first.Some? then first else ValidateTransactions(a, txs[1..], isGenesis)
  }

  function ValidatePlace(vertices: Vertices, b: Block): Option<Error> {
    if b.index == 0 then if b.previousHash != ZERO_HASH then Some(GenesisLinked) else None
    else if b.previousHash !in vertices then Some(PreviousNotFound)
    else if b.index != (vertices[b.previousHash].index + 1) % TWO64 then Some(NotSequential)
    else None
  }

  function ValidateTime(vertices: Vertices, b: Block, now: int64): Option<Error> {
    if b.timestamp > now + MAX_TIME_DRIFT then Some(FromTheFuture)
    else if b.index > 0 && b.previousHash in vertices && b.timestamp < vertices[b.previousHash].timestamp then Some(TooOld)
    else None
  }

  function Validate(sha: Sha, l: View, b: Block, now: int64): Option<Error> {
    var place := ValidatePlace(l.vertices, b);
    if place.Some? then place
    else if b.hash != HeaderChain.BlockHash(sha, b.HashedFields()) then Some(WrongHash)
    else if b.merkleRoot != Merkle.MerkleRoot(sha, b.TransactionIDs()) then Some(WrongMerkleRoot)
    else
      var time := ValidateTime(l.vertices, b, now);
      if time.Some? then time else ValidateTransactions(l.accounts, b.transactions, b.index == 0)
  }

  /** Genesis blocks start a chain; every other block follows a known one. */
  predicate Placed(vertices: Vertices, b: Block) {
    if b.index == 0 then b.previousHash == ZERO_HASH
    else b.previousHash in vertices && b.index == vertices[b.previousHash].index + 1
  }

  predicate GenesisAllocation(tx: Transaction) { tx.sender != ZERO_ADDRESS && tx.amount > 0 }

  predicate TransactionsValid(a: Accounts, b: Block) {
    forall i :: 0 <= i < |b.transactions| ==>
      if b.index == 0 then GenesisAllocation(b.transactions[i]) else Payable(a, b.transactions[i])
  }

  predicate Valid(sha: Sha, l: View, b: Block, now: int64) {
    && Placed(l.vertices, b)
    && b.hash == HeaderChain.BlockHash(sha, b.HashedFields())
    && b.merkleRoot == Merkle.MerkleRoot(sha, b.TransactionIDs())
    && b.timestamp <= now + 300
    && (b.index > 0 ==> b.timestamp >= l.vertices[b.previousHash].timestamp)
    && TransactionsValid(l.accounts, b)
  }

  lemma {:induction false} TransactionsValidExactly(a: Accounts, txs: seq<Transaction>, isGenesis: bool)
    ensures ValidateTransactions(a, txs, isGenesis).None? <==>
            forall i :: 0 <= i < |txs| ==> if isGenesis then GenesisAllocation(txs[i]) else Payable(a, txs[i])
  {
    if txs != [] {
      TransactionsValidExactly(a, txs[1..], isGenesis);
      assert forall i :: 0 < i < |txs| ==> txs[i] == txs[1..][i - 1];
      assert forall i :: 0 <= i < |txs| - 1 ==> txs[1..][i] == txs[i + 1];
    }
  }

  lemma PlacedExactly(vertices: Vertices, b: Block)
    ensures ValidatePlace(vertices, b).None? <==> Placed(vertices, b)
  {
  }

  /** The sequence of checks accepts exactly the valid blocks: an index never wraps. */
  lemma ValidatesExactly(sha: Sha, l: View, b: Block, now: int64)
    ensures Validate(sha, l, b, now).None? <==> Valid(sha, l, b, now)
  {
    PlacedExactly(l.vertices, b);
    TransactionsValidExactly(l.accounts, b.transactions, b.index == 0);
  }

  /** Which failure is reported: the first in this order. */
  lemma ReportsFirst(sha: Sha, l: View, b: Block, now: int64)
    ensures var e := Validate(sha, l, b, now);
            var known := b.index == 0 || b.previousHash in l.vertices;
            var placed := Placed(l.vertices, b);
            var hashed := placed && b.hash == HeaderChain.BlockHash(sha, b.HashedFields());
            var rooted := hashed && b.merkleRoot == Merkle.MerkleRoot(sha, b.TransactionIDs());
            var present := rooted && b.timestamp <= now + 300;
            var late := b.index > 0 && b.previousHash in l.vertices && b.timestamp < l.vertices[b.previousHash].timestamp;
            && (e == Some(GenesisLinked) <==> b.index == 0 && b.previousHash != ZERO_HASH)
            && (e == Some(PreviousNotFound) <==> !known)
            && (e == Some(NotSequential) <==> b.index > 0 && known && !placed)
            && (e == Some(WrongHash) <==> placed && !hashed)
            && (e == Some(WrongMerkleRoot) <==> hashed && !rooted)
            && (e == Some(FromTheFuture) <==> rooted && !present)
            && (e == Some(TooOld) <==> present && late)
            && (present && !late ==> e == ValidateTransactions(l.accounts, b.transactions, b.index == 0))
  {
    PlacedExactly(l.vertices, b);
    TransactionErrors(l.accounts, b.transactions, b.index == 0);
  }

  /** A transaction reports one of four failures, and a list the first of its transactions
      that fails. */
  lemma {:induction false} TransactionErrors(a: Accounts, txs: seq<Transaction>, isGenesis: bool)
    ensures var e := ValidateTransactions(a, txs, isGenesis);
            e.None? || e.value in {ZeroSender, ZeroAmount, InsufficientBalance, WrongNonce}
    ensures forall i :: 0 <= i < |txs| && ValidateTransaction(a, txs[i], isGenesis).Some? &&
                        (forall j :: 0 <= j < i ==> ValidateTransaction(a, txs[j], isGenesis).None?) ==>
              ValidateTransactions(a, txs, isGenesis) == ValidateTransaction(a, txs[i], isGenesis)
  {
    if txs != [] {
      var rest := txs[1..];
      TransactionErrors(a, rest, isGenesis);
      forall i | 0 <= i < |txs| && ValidateTransaction(a, txs[i], isGenesis).Some? &&
                 (forall j :: 0 <= j < i ==> ValidateTransaction(a, txs[j], isGenesis).None?)
        ensures ValidateTransactions(a, txs, isGenesis) == ValidateTransaction(a, txs[i], isGenesis)
      {
        if i > 0 {
          assert ValidateTransaction(a, txs[0], isGenesis).None?;
          assert rest[i - 1] == txs[i];
          assert forall j :: 0 <= j < i - 1 ==> rest[j] == txs[j + 1];
        }
      }
    }
  }

  /** The four checks of a transaction; a genesis block is spared the last two. */
  lemma TransactionReports(a: Accounts, tx: Transaction, isGenesis: bool)
    ensures var e, due := ValidateTransaction(a, tx, isGenesis), (tx.amount + tx.fee) % 0x1_0000_0000_0000_0000;
            var named, paying := tx.sender != ZERO_ADDRESS, tx.sender != ZERO_ADDRESS && tx.amount > 0;
            var covered := isGenesis || a.Balance(tx.sender) >= due;
            && (e == Some(ZeroSender) <==> !named) && (e == Some(ZeroAmount) <==> named && tx.amount == 0)
            && (e == Some(InsufficientBalance) <==> paying && !covered)
            && (e == Some(WrongNonce) <==> paying && covered && !isGenesis && tx.nonce != Next(a.Nonce(tx.sender)))
  {
  }

  // ---------------------------------------------------------------------------
  // Adding a block

  function PutVertex(vertices: Vertices, b: Block): Vertices { vertices[b.hash := b] }

  ghost predicate IsPath(edges: set<Edge>, p: seq<Digest>) {
    p != [] && forall i :: 0 <= i < |p| - 1 ==> (p[i], p[i + 1]) in edges
  }

  ghost predicate Connects(edges: set<Edge>, p: seq<Digest>, source: Digest, target: Digest) {
    IsPath(edges, p) && p[0] == source && p[|p| - 1] == target
  }

  /** `target` can be reached from `source`; every vertex reaches itself. */
  ghost predicate HasPath(edges: set<Edge>, source: Digest, target: Digest) {
    exists p :: Connects(edges, p, source, target)
  }

  ghost function AddGenesis(l: View, b: Block, io: Io): (View, Option<Error>) {
    if !io.vertex then (l, Some(StorageFailed))
    else
      var l1 := l.(vertices := PutVertex(l.vertices, b));
      if !io.block then (l1, Some(StorageFailed)) else (l1.(accounts := CreditAll(l.accounts, b.transactions)), None)
  }

  /** The accounts change first; whatever fails afterwards does not undo that. */
  ghost function AddNext(l: View, b: Block, io: Io): (View, Option<Error>) {
    var l1 := l.(accounts := ApplyAll(l.accounts, b.transactions, b.validatorID));
    if !io.vertex then (l1, Some(StorageFailed))
    else
      var l2 := l1.(vertices := PutVertex(l.vertices, b));
      if b.previousHash !in l2.vertices then (l2, Some(PreviousNotFound))
      else if HasPath(l2.edges, b.hash, b.previousHash) then (l2, Some(CreatesCycle))
      else if (b.previousHash, b.hash) !in l2.edges && !io.edge then (l2, Some(StorageFailed))
      else (l2.(edges := l2.edges + {(b.previousHash, b.hash)}), None)
  }

  ghost function AddBlock(l: View, b: Block, io: Io): (View, Option<Error>) {
    if b.previousHash == ZERO_HASH then AddGenesis(l, b, io) else AddNext(l, b, io)
  }

  // ---------------------------------------------------------------------------
  // Searching the graph

  predicate HasSuccessor(l: View, h: Digest) { exists e :: e in l.edges && e.0 == h }

  predicate IsSink(l: View, h: Digest) { h in l.vertices && !HasSuccessor(l, h) }

  /** What GetLatestBlock may return: some vertex without successors; the map of the
      graph is walked in no particular order. */
  ghost predicate IsLatest(l: View, r: Option<Block>) {
    match r
    case None => forall h :: !IsSink(l, h)
    case Some(b) => exists h :: IsSink(l, h) && b == l.vertices[h]
  }

  predicate IsTargetAt(l: View, e: Edge, index: uint64) {
    e in l.edges && e.1 in l.vertices && l.vertices[e.1].index == index
  }

  /** What GetBlockByIndex may return: the target of some edge. */
  ghost predicate IsBlockAt(l: View, index: uint64, r: Option<Block>) {
    match r
    case None => forall e :: !IsTargetAt(l, e, index)
    case Some(b) => exists e :: IsTargetAt(l, e, index) && b == l.vertices[e.1]
  }

  // ---------------------------------------------------------------------------
  // The chain on top of it

  /** The head is nil until setup has found one or a block was added. */
  datatype Chain = Chain(ledger: View, head: Option<Block>)

  /** Blockchain.AddBlock. */
  ghost function Extend(sha: Sha, c: Chain, b: Block, now: int64, io: Io): (Chain, Option<Error>) {
    var invalid := Validate(sha, c.ledger, b, now);
    if invalid.Some? then (c, invalid) else Link(c, b, io)
  }

  ghost function Link(c: Chain, b: Block, io: Io): (Chain, Option<Error>) {
    var (l, failed) := AddBlock(c.ledger, b, io);
    (Chain(l, if failed.None? then Some(b) else c.head), failed)
  }

  /** An invalid block is rejected before the head is read. */
  ghost function HandleIncoming(sha: Sha, c: Chain, b: Block, now: int64, io: Io): (Chain, Option<Error>)
    requires c.head.Some? || Validate(sha, c.ledger, b, now).Some?
  {
    var invalid := Validate(sha, c.ledger, b, now);
    if invalid.Some? then (c, invalid)
    else if b.previousHash != c.head.value.hash then (c, Some(NotAnExtension))
    else Link(c, b, io)
  }
}
