/** Transactions and blocks. */
module Types {
  import opened Common
  import opened Encoding

  type Address = a: Bytes | |a| == ADDRESS_SIZE witness seq(ADDRESS_SIZE, i => 0)

  const ZERO_ADDRESS: Address := [0, 0, 0, 0, 0, 0, 0, 0, 0, 0, 0, 0, 0, 0, 0, 0, 0, 0, 0, 0]

  type SignerType = string

  const BLS: SignerType := "bls"
  const ED25519: SignerType := "ed25519"
  const DLEQ: SignerType := "dleq"
  const UNKNOWN: SignerType := "unknown"

  function SignerCode(t: SignerType): uint32 {
    if t == BLS then 0 else if t == ED25519 then 1 else if t == DLEQ then 2 else 0xFFFF_FFFF
  }

  function SignerFromCode(code: uint32): SignerType {
    if code == 0 then BLS else if code == 1 then ED25519 else if code == 2 then DLEQ else UNKNOWN
  }

  lemma SignerCodes(t: SignerType)
    ensures SignerCode("bls") == 0 && SignerCode("ed25519") == 1 && SignerCode("dleq") == 2
    ensures t != "bls" && t != "ed25519" && t != "dleq" ==> SignerCode(t) == 0xFFFF_FFFF
  {
  }

  /** What a signature type reads back as: every type without a code is "unknown". */
  function NormalSigner(t: SignerType): (r: SignerType)
    ensures r == SignerFromCode(SignerCode(t))
    ensures SignerCode(r) == SignerCode(t)
  {
    if t in {BLS, ED25519, DLEQ} then t else UNKNOWN
  }

  datatype Transaction = Transaction(
    id: Digest, sender: Address, recipient: Address, amount: uint64, fee: uint64, nonce: uint64,
    timestamp: int64, signature: Bytes, signatureType: SignerType, payload: Bytes)

  /** The fields a block hash covers. */
  datatype Header = Header(
    index: uint64, timestamp: int64, previousHash: Digest, merkleRoot: Digest, validatorID: Address,
    difficulty: uint64, version: uint32)

  datatype Block = Block(
    index: uint64, timestamp: int64, previousHash: Digest, hash: Digest, merkleRoot: Digest,
    signature: Bytes, signatureType: SignerType, validatorID: Address, transactions: seq<Transaction>,
    difficulty: uint64, version: uint32, finalizedBy: seq<Address>)
  {
    function HashedFields(): Header {
      Header(index, timestamp, previousHash, merkleRoot, validatorID, difficulty, version)
    }

    function TransactionIDs(): seq<Digest> {
      seq(|transactions|, i requires 0 <= i < |transactions| => transactions[i].id)
    }
  }
}
