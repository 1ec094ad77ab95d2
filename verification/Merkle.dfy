/** The Merkle root of a block's transactions. */
module Merkle {
  import opened Common

  /** The 64 bytes hashed for an inner node. */
  function Pair(a: Digest, b: Digest): (r: Bytes)
    ensures |r| == 2 * HASH_SIZE && r[..HASH_SIZE] == a && r[HASH_SIZE..] == b
  {
    var left: Bytes := a;
    left + b
  }

  /** One round of the loop: neighbours are hashed together, an odd last element goes
      up unchanged. */
  function Level(sha: Sha, xs: seq<Digest>): (r: seq<Digest>)
    ensures |r| == (|xs| + 1) / 2
  {
    if |xs| <= 1 then xs
    else [sha(Pair(xs[0], xs[1]))] + Level(sha, xs[2..])
  }

  predicate IsPowerOfTwo(k: nat) {
    k == 1 || (k > 1 && k % 2 == 0 && IsPowerOfTwo(k / 2))
  }

  /** The largest power of two below `n`. */
  function Split(n: nat): (k: nat)
    requires n >= 2
    ensures IsPowerOfTwo(k) && k < n <= 2 * k
  {
    if n == 2 then 1 else 2 * Split((n + 1) / 2)
  }

  /** The tree the loop stands for: the left part is a full tree of the largest
      power-of-two size, the right part the tree of the rest. */
  function TreeRoot(sha: Sha, xs: seq<Digest>): Digest
    requires xs != []
    decreases |xs|
  {
    if |xs| == 1 then xs[0]
    else
      var k := Split(|xs|);
      sha(Pair(TreeRoot(sha, xs[..k]), TreeRoot(sha, xs[k..])))
  }

  /** The root of a list of transaction IDs; no transactions have the zero root. */
  function MerkleRoot(sha: Sha, ids: seq<Digest>): Digest {
    if ids == [] then ZERO_HASH else TreeRoot(sha, ids)
  }

  lemma {:induction false} LevelConcat(sha: Sha, a: seq<Digest>, b: seq<Digest>)
    requires |a| % 2 == 0
    ensures Level(sha, a + b) == Level(sha, a) + Level(sha, b)
    decreases |a|
  {
    if a == [] {
      assert a + b == b;
    } else {
      assert (a + b)[2..] == a[2..] + b;
      LevelConcat(sha, a[2..], b);
    }
  }

  /** A round does not change the root of the tree. */
  lemma {:induction false} LevelKeepsRoot(sha: Sha, xs: seq<Digest>)
    requires xs != []
    ensures TreeRoot(sha, Level(sha, xs)) == TreeRoot(sha, xs)
    decreases |xs|
  {
    if |xs| == 2 {
      assert xs[2..] == [] && xs[..1] == [xs[0]] && xs[1..] == [xs[1]];
      assert Level(sha, xs) == [sha(Pair(xs[0], xs[1]))];
    } else if |xs| > 2 {
      var k := Split(|xs|);
      var a, b := xs[..k], xs[k..];
      var la, lb := Level(sha, a), Level(sha, b);
      LevelConcat(sha, a, b);
      assert xs == a + b;
      assert |la| == k / 2 && Split(|la + lb|) == k / 2;
      assert (la + lb)[..k / 2] == la && (la + lb)[k / 2..] == lb;
      LevelKeepsRoot(sha, a);
      LevelKeepsRoot(sha, b);
    }
  }

  /** The bytes of small trees: left before right, and an odd last transaction unhashed. */
  lemma SmallRoots(sha: Sha, a: Digest, b: Digest, c: Digest, bytes: Bytes, more: Bytes)
    requires |bytes| == 64 && bytes[..32] == a && bytes[32..] == b
    requires |more| == 64 && more[..32] == sha(bytes) && more[32..] == c
    ensures MerkleRoot(sha, []) == ZERO_HASH && MerkleRoot(sha, [a]) == a
    ensures MerkleRoot(sha, [a, b]) == sha(bytes) && MerkleRoot(sha, [a, b, c]) == sha(more)
  {
    assert bytes == Pair(a, b) by {
      assert bytes == bytes[..32] + bytes[32..];
    }
    assert more == Pair(sha(bytes), c) by {
      assert more == more[..32] + more[32..];
    }
    assert [a, b][..1] == [a] && [a, b][1..] == [b];
    assert Split(2) == 1 && Split(3) == 2;
    assert [a, b, c][..2] == [a, b] && [a, b, c][2..] == [c];
    assert TreeRoot(sha, [a]) == a && TreeRoot(sha, [b]) == b && TreeRoot(sha, [c]) == c;
    assert TreeRoot(sha, [a, b]) == sha(Pair(a, b));
    assert TreeRoot(sha, [a, b, c]) == sha(Pair(TreeRoot(sha, [a, b]), c));
  }

  /** The inner loop: one level, pair by pair. */
  method NextLevel(sha: Sha, txHashes: seq<Digest>) returns (nextLevel: seq<Digest>)
    ensures nextLevel == Level(sha, txHashes)
  {
    nextLevel := [];
    var i := 0;
    while i < |txHashes|
      invariant 0 <= i <= |txHashes| + 1
      invariant nextLevel + Level(sha, if i <= |txHashes| then txHashes[i..] else []) == Level(sha, txHashes)
    {
      ghost var rest := txHashes[i..];
      if i + 1 < |txHashes| {
        nextLevel := nextLevel + [sha(Pair(txHashes[i], txHashes[i + 1]))];
        assert rest[2..] == txHashes[i + 2..];
      } else {
        nextLevel := nextLevel + [txHashes[i]];
        assert rest == [txHashes[i]];
      }
      i := i + 2;
    }
  }

  /** The outer loop: new levels until one hash is left. */
  method ComputeMerkleRoot(sha: Sha, ids: seq<Digest>) returns (root: Digest)
    ensures root == MerkleRoot(sha, ids)
  {
    if |ids| == 0 {
      return ZERO_HASH;
    }
    var txHashes := ids;
    while |txHashes| > 1
      invariant txHashes != [] && TreeRoot(sha, txHashes) == TreeRoot(sha, ids)
      decreases |txHashes|
    {
      LevelKeepsRoot(sha, txHashes);
      txHashes := NextLevel(sha, txHashes);
    }
    root := txHashes[0];
  }

  /** Two inputs that hash alike, found by walking down two trees with one root. */
  function TreeCollision(sha: Sha, xs: seq<Digest>, ys: seq<Digest>): (Bytes, Bytes)
    requires |xs| == |ys| > 0
    decreases |xs|
  {
    if |xs| == 1 then ([], [])
    else
      var k := Split(|xs|);
      var a, b := TreeRoot(sha, xs[..k]), TreeRoot(sha, xs[k..]);
      var c, d := TreeRoot(sha, ys[..k]), TreeRoot(sha, ys[k..]);
      if Pair(a, b) != Pair(c, d) then (Pair(a, b), Pair(c, d))
      else if xs[..k] != ys[..k] then TreeCollision(sha, xs[..k], ys[..k])
      else TreeCollision(sha, xs[k..], ys[k..])
  }

  lemma {:induction false} TreeBinding(sha: Sha, xs: seq<Digest>, ys: seq<Digest>)
    requires |xs| == |ys| > 0 && TreeRoot(sha, xs) == TreeRoot(sha, ys)
    ensures xs == ys || IsCollision(sha, TreeCollision(sha, xs, ys))
    decreases |xs|
  {
    if |xs| == 1 {
      assert xs == [xs[0]] && ys == [ys[0]];
    } else {
      var k := Split(|xs|);
      var a, b := TreeRoot(sha, xs[..k]), TreeRoot(sha, xs[k..]);
      var c, d := TreeRoot(sha, ys[..k]), TreeRoot(sha, ys[k..]);
      if Pair(a, b) == Pair(c, d) {
        assert a == c && b == d;
        assert xs == xs[..k] + xs[k..] && ys == ys[..k] + ys[k..];
        if xs[..k] != ys[..k] {
          TreeBinding(sha, xs[..k], ys[..k]);
        } else {
          TreeBinding(sha, xs[k..], ys[k..]);
        }
      }
    }
  }

  /** Two lists of transaction IDs of one length and one root are equal, or a SHA-256
      collision can be computed from them. */
  lemma {:induction false} MerkleBinding(sha: Sha, xs: seq<Digest>, ys: seq<Digest>)
    requires |xs| == |ys| && MerkleRoot(sha, xs) == MerkleRoot(sha, ys)
    ensures xs == ys || (xs != [] && IsCollision(sha, TreeCollision(sha, xs, ys)))
  {
    if xs != [] {
      TreeBinding(sha, xs, ys);
    }
  }

  /** The root does not commit to the number of transactions: any list of two or more
      shares its root with the shorter list of its first level. */
  lemma LengthNotBound(sha: Sha, xs: seq<Digest>)
    requires |xs| >= 2
    ensures |Level(sha, xs)| < |xs| && MerkleRoot(sha, Level(sha, xs)) == MerkleRoot(sha, xs)
  {
    LevelKeepsRoot(sha, xs);
  }
}
