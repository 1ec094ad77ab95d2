/** Block hashes commit to headers, and a head hash commits to its whole chain. */
module HeaderChain {
  import opened Common
  import opened Encoding
  import opened Types
  import Merkle

  /** The 112 bytes a block hash covers. */
  function EncodeHeader(h: Header): (r: Bytes)
    ensures |r| == 112
  {
    LE(8, h.index) + LE(8, ToUint64(h.timestamp)) + h.previousHash + h.merkleRoot + h.validatorID +
    LE(8, h.difficulty) + LE(4, h.version)
  }

  function BlockHash(sha: Sha, h: Header): Digest { sha(EncodeHeader(h)) }

  /** Where each field of a block stands among the bytes that are hashed. */
  lemma FieldsAt(b: Block)
    ensures var bytes := EncodeHeader(b.HashedFields());
            && At(bytes, 0, LE(8, b.index)) && At(bytes, 8, LE(8, ToUint64(b.timestamp)))
            && At(bytes, 16, b.previousHash) && At(bytes, 48, b.merkleRoot) && At(bytes, 80, b.validatorID)
            && At(bytes, 100, LE(8, b.difficulty)) && At(bytes, 108, LE(4, b.version))
  {
    var bytes := EncodeHeader(b.HashedFields());
    var p1 := LE(8, b.index);
    var p2 := p1 + LE(8, ToUint64(b.timestamp));
    var p3 := p2 + b.previousHash;
    var p4 := p3 + b.merkleRoot;
    var p5 := p4 + b.validatorID;
    var p6 := p5 + LE(8, b.difficulty);
    assert At(bytes, 0, p6 + LE(4, b.version));
    AtParts(bytes, 0, p6, LE(4, b.version));
    AtParts(bytes, 0, p5, LE(8, b.difficulty));
    AtParts(bytes, 0, p4, b.validatorID);
    AtParts(bytes, 0, p3, b.merkleRoot);
    AtParts(bytes, 0, p2, b.previousHash);
    AtParts(bytes, 0, p1, LE(8, ToUint64(b.timestamp)));
  }

  /** Appends an integer through the scratch buffer that all of them share. */
  method AppendUint(buffer: Bytes, temp: array<byte>, n: nat, x: nat) returns (r: Bytes)
    requires n <= temp.Length
    modifies temp
    ensures r == buffer + LE(n, x)
  {
    PutUint(temp, 0, n, x);
    assert temp[..n] == LE(n, x) by {
      assert old(temp[..0]) == [];
    }
    r := buffer + temp[..n];
  }

  method ComputeHash(sha: Sha, h: Header) returns (hash: Digest)
    ensures hash == BlockHash(sha, h)
  {
    var buffer: Bytes := [];
    var temp := new byte[8];
    buffer := AppendUint(buffer, temp, 8, h.index);
    assert buffer == LE(8, h.index);
    buffer := AppendUint(buffer, temp, 8, ToUint64(h.timestamp));
    buffer := buffer + h.previousHash;
    buffer := buffer + h.merkleRoot;
    buffer := buffer + h.validatorID;
    buffer := AppendUint(buffer, temp, 8, h.difficulty);
    buffer := AppendUint(buffer, temp, 4, h.version);
    hash := sha(buffer);
  }

  lemma SamePrefix(a: Bytes, b: Bytes, c: Bytes, d: Bytes)
    requires a + b == c + d && |a| == |c|
    ensures a == c && b == d
  {
    assert a == (a + b)[..|a|] && c == (c + d)[..|c|];
    assert b == (a + b)[|a|..] && d == (c + d)[|c|..];
  }

  lemma SameInteger(n: nat, x: nat, y: nat)
    requires x < Pow256(n) && y < Pow256(n) && LE(n, x) == LE(n, y)
    ensures x == y
  {
    FromLEOfLE(n, x);
    FromLEOfLE(n, y);
  }

  /** The layout has fixed widths, so a header can be read back from its bytes. */
  lemma HeaderInjective(g: Header, h: Header)
    requires EncodeHeader(g) == EncodeHeader(h)
    ensures g == h
  {
    var g1, h1 := LE(8, g.index), LE(8, h.index);
    var g2, h2 := g1 + LE(8, ToUint64(g.timestamp)), h1 + LE(8, ToUint64(h.timestamp));
    var g3, h3 := g2 + g.previousHash, h2 + h.previousHash;
    var g4, h4 := g3 + g.merkleRoot, h3 + h.merkleRoot;
    var g5, h5 := g4 + g.validatorID, h4 + h.validatorID;
    var g6, h6 := g5 + LE(8, g.difficulty), h5 + LE(8, h.difficulty);
    SamePrefix(g6, LE(4, g.version), h6, LE(4, h.version));
    SamePrefix(g5, LE(8, g.difficulty), h5, LE(8, h.difficulty));
    SamePrefix(g4, g.validatorID, h4, h.validatorID);
    SamePrefix(g3, g.merkleRoot, h3, h.merkleRoot);
    SamePrefix(g2, g.previousHash, h2, h.previousHash);
    SamePrefix(g1, LE(8, ToUint64(g.timestamp)), h1, LE(8, ToUint64(h.timestamp)));
    Widths();
    SameInteger(4, g.version, h.version);
    SameInteger(8, g.difficulty, h.difficulty);
    SameInteger(8, ToUint64(g.timestamp), ToUint64(h.timestamp));
    SameInteger(8, g.index, h.index);
  }

  /** Every block of the list, head first, has a valid hash and names the hash of the
      next one; the walk ends at the first block without a predecessor. */
  predicate IsChain(sha: Sha, blocks: seq<Block>) {
    && blocks != []
    && (forall i :: 0 <= i < |blocks| ==> blocks[i].hash == BlockHash(sha, blocks[i].HashedFields()))
    && (forall i :: 0 <= i < |blocks| - 1 ==>
          blocks[i].previousHash != ZERO_HASH && blocks[i].previousHash == blocks[i + 1].hash)
    && blocks[|blocks| - 1].previousHash == ZERO_HASH
  }

  function Headers(blocks: seq<Block>): seq<Header> {
    if blocks == [] then [] else [blocks[0].HashedFields()] + Headers(blocks[1..])
  }

  /** Two headers with one hash, found by walking down both chains in step. */
  function ChainCollision(sha: Sha, a: seq<Block>, b: seq<Block>): (Bytes, Bytes) {
    if a == [] || b == [] then ([], [])
    else
      var g, h := a[0].HashedFields(), b[0].HashedFields();
      if g != h then (EncodeHeader(g), EncodeHeader(h)) else ChainCollision(sha, a[1..], b[1..])
  }

  lemma ChainTail(sha: Sha, blocks: seq<Block>)
    requires IsChain(sha, blocks) && |blocks| > 1
    ensures IsChain(sha, blocks[1..]) && blocks[1].hash == blocks[0].previousHash != ZERO_HASH
  {
    assert blocks[0].previousHash == blocks[0 + 1].hash;
    var t := blocks[1..];
    forall i | 0 <= i < |t| - 1 ensures t[i].previousHash != ZERO_HASH && t[i].previousHash == t[i + 1].hash {
      assert t[i] == blocks[i + 1] && blocks[i + 1].previousHash == blocks[i + 1 + 1].hash;
    }
  }

  /** Two chains of validly hashed blocks with one head hash have the same headers all
      the way to genesis, whatever their lengths, or a SHA-256 collision is found. */
  lemma {:induction false} HeadCommitsToChain(sha: Sha, a: seq<Block>, b: seq<Block>)
    requires IsChain(sha, a) && IsChain(sha, b) && a[0].hash == b[0].hash
    ensures Headers(a) == Headers(b) || IsCollision(sha, ChainCollision(sha, a, b))
    decreases |a|
  {
    var g, h := a[0].HashedFields(), b[0].HashedFields();
    if g != h {
      if EncodeHeader(g) == EncodeHeader(h) {
        HeaderInjective(g, h);
      }
    } else if |a| > 1 && |b| > 1 {
      ChainTail(sha, a);
      ChainTail(sha, b);
      HeadCommitsToChain(sha, a[1..], b[1..]);
    } else {
      if |a| > 1 { ChainTail(sha, a); }
      if |b| > 1 { ChainTail(sha, b); }
      assert |a| == 1 && |b| == 1;
    }
  }

  predicate RootsValid(sha: Sha, blocks: seq<Block>) {
    forall i :: 0 <= i < |blocks| ==> blocks[i].merkleRoot == Merkle.MerkleRoot(sha, blocks[i].TransactionIDs())
  }

  lemma {:induction false} HeadersAt(blocks: seq<Block>, i: nat)
    requires i < |blocks|
    ensures |Headers(blocks)| == |blocks| && Headers(blocks)[i] == blocks[i].HashedFields()
  {
    if |blocks| > 1 {
      HeadersAt(blocks[1..], if i > 0 then i - 1 else 0);
    }
  }

  /** With valid Merkle roots the head hash commits to the transaction IDs of every
      block too, given how many each block has. */
  lemma HeadCommitsToTransactions(sha: Sha, a: seq<Block>, b: seq<Block>, i: nat)
    requires IsChain(sha, a) && IsChain(sha, b) && a[0].hash == b[0].hash
    requires RootsValid(sha, a) && RootsValid(sha, b)
    requires i < |a| && i < |b| && |a[i].transactions| == |b[i].transactions|
    ensures a[i].TransactionIDs() == b[i].TransactionIDs()
         || IsCollision(sha, ChainCollision(sha, a, b))
         || (a[i].transactions != [] &&
             IsCollision(sha, Merkle.TreeCollision(sha, a[i].TransactionIDs(), b[i].TransactionIDs())))
  {
    HeadCommitsToChain(sha, a, b);
    if Headers(a) == Headers(b) {
      HeadersAt(a, i);
      HeadersAt(b, i);
      assert a[i].HashedFields().merkleRoot == b[i].HashedFields().merkleRoot;
      Merkle.MerkleBinding(sha, a[i].TransactionIDs(), b[i].TransactionIDs());
    }
  }
}
