/** Types shared by every part of the model: optional values, results, bytes and
    SHA-256 digests. */
module Common {

  datatype Option<+T> = None | Some(value: T)

  datatype Result<+T, +E> = Ok(value: T) | Err(error: E)

  /** One byte of a Go `[]byte`. */
  type byte = x: int | 0 <= x < 0x100

  type Bytes = seq<byte>

  const HASH_SIZE := 32
  const ADDRESS_SIZE := 20

  const ZERO_HASH: Digest :=
    [0, 0, 0, 0, 0, 0, 0, 0, 0, 0, 0, 0, 0, 0, 0, 0, 0, 0, 0, 0, 0, 0, 0, 0, 0, 0, 0, 0, 0, 0, 0, 0]

  /** The 32 bytes of a SHA-256 hash. */
  type Digest = d: Bytes | |d| == HASH_SIZE witness seq(HASH_SIZE, i => 0)

  /** SHA-256 is a parameter of the model: any total function to 32 bytes. */
  type Sha = Bytes -> Digest

  /** Two different inputs with one digest: what "SHA-256 was broken" means here. */
  predicate IsCollision(sha: Sha, pair: (Bytes, Bytes)) {
    pair.0 != pair.1 && sha(pair.0) == sha(pair.1)
  }

  function Get<K, V>(m: map<K, V>, k: K, default: V): V {
    if k in m then m[k] else default
  }

  lemma SubsetSize<T>(a: set<T>, b: set<T>)
    requires a <= b
    ensures |a| <= |b|
  {
    assert b == a + (b - a);
  }

  /** `holds` at every moment up to `n` exactly when each `step` before `n` passes, if it
      holds at first and a step passes just when it keeps it. */
  lemma {:induction false} AlwaysExactly(holds: nat -> bool, step: nat -> bool, n: nat)
    requires holds(0) && forall i :: 0 <= i < n && holds(i) ==> (holds(i + 1) <==> step(i))
    ensures (forall i :: 0 <= i <= n ==> holds(i)) <==> (forall i :: 0 <= i < n ==> step(i))
  {
    if n > 0 {
      AlwaysExactly(holds, step, n - 1);
      assert (forall i :: 0 <= i <= n ==> holds(i)) <==> (forall i :: 0 <= i <= n - 1 ==> holds(i)) && holds(n - 1 + 1);
      assert (forall i :: 0 <= i < n ==> step(i)) <==> (forall i :: 0 <= i < n - 1 ==> step(i)) && step(n - 1);
    }
  }
}
