# PeerDNS: a verified model

This project models the core of PeerDNS in Dafny and proves properties of it: the SHPoNU quorum
protocol, the leader-driven consensus of the validator module, the account ledger with its chain of
blocks, the transaction pool and the block producer, the batched storage writer, the graph store on
sorted keys, and the byte layouts of transactions, blocks and consensus packets.

`dafny verify dfyconfig.toml` checks everything.

## How it is laid out

- **Specifications are functions on values** (`ConsensusSpec`, `ValidatorSpec`, `BatchWriterSpec`,
  `Accounts`, `LedgerSpec`, the first halves of the codecs, `GraphStore` and `TxPool`). Objects whose
  methods update their fields are classes with those fields; each method is proved to do exactly what
  the function of the same name says (`ConsensusNode`, `ValidatorNode`, `BatchWriterNode`,
  `LedgerNode`, `PrefixScan.Db`, `GraphStore.Store`, `TxPool.TxPool`, `Producer.BlockProducer`,
  `PacketCodec.Buffer`).
- **Runs are sequences of steps** of those functions: packets delivered in any order and more than
  once, writers and workers interleaved in any order, blocks submitted in any order. What one call
  does in every case is stated beside them (`ConsensusOutcomes`, `ValidatorOutcomes`). The theorems
  about runs stand in `ConsensusRuns`, `ConsensusSafety`, `ConsensusConvergence`, `ConsensusLiveness`,
  `ValidatorSafety`, `ValidatorTolerance`, `BatchWriterRuns`, `BatchWriterViews`, `LedgerRuns`, `ChainRuns`, `GraphStore` and `TxPool`.
- **SHA-256 is a parameter**, any function from bytes to 32 bytes. What depends on its strength is
  stated as "equal, or here is a collision". `LedgerRuns.Unambiguous` asks that the blocks of one run
  have no such collision and no zero hash; `LedgerRuns.AmbiguityIsCollision` extracts one otherwise.
- **Signing is ideal**: the one signature that verifies for a peer over a hash is `Signed(peer, hash)`.
- **The outside is a parameter** of each call: whether storage, signer, broadcast and block finalizer
  succeed (`Io` records and boolean arguments), and what the clock reads.
- Integers have the widths of the source where it matters: balances go through `int64` with
  wrap-around and the clamp at zero, nonces wrap at 64 bits, lengths are 32-bit prefixes.

## Findings

- CONSENSUS.md:127 promises tolerance of f faulty nodes among 3f+1. For safety, a single unsigned
  finalization packet finalizes a hash nobody approved (`ConsensusSafety.DocumentedToleranceFails`);
  every finalized hash is certified at every moment exactly when each delivered finalization is for a
  hash certified at that moment, the guard the handler lacks (`ConsensusSafety.GuardedExactlyWhen`).
  For progress, f silent nodes are one too many: the proposer does not approve, so the rest never make
  a quorum (`ConsensusSafety.DocumentedProgressFails`), and the exact bound is f-1
  (`ConsensusLiveness.SilentTolerance`). `ConsensusSafety.HonestOverlap` shows what holds.
- With the default quorum three faultless nodes never finalize, because the proposer does not approve
  (`ConsensusLiveness.FourNodesNeeded`); seven are needed when another node proposes in the leader's
  name (`ConsensusLiveness.SevenNodesNeeded`).
- A failed flush empties the worker's buffer and can lose an accepted write
  (`BatchWriterViews.FailureLosesWrite`). `BatchWriterViews.WrongKeysExactly` says of every run which
  keys read wrong afterwards, and `BatchWriterViews.AlwaysAgreesExactly` that the view stays right
  exactly when each failed flush is harmless at its own step.
- Validated blocks conserve the supply only if no cost wraps and no (sender, nonce) pair repeats, and
  validation checks neither. It compares the balance with `tx.Amount+tx.Fee` in 64 bits: a single
  transaction whose sum wraps mints from empty accounts (`Accounts.WrappedCostMints`) or takes from a
  validator that sends nothing (`Accounts.WrappedCostTakes`); the missing guard is exact
  (`Accounts.CoveredIfExact`, `Accounts.NobodyFallsShort`). And every transaction is checked against
  the accounts before the block, so two of one sender with one nonce mint as well
  (`Accounts.RepeatedSenderMints`). With both guards the supply is conserved over every run
  (`LedgerRuns.RunConserves`).
- Two transactions of one sender with consecutive nonces can never stand in one block, and a small pool
  that holds them stops the producer (`Producer.TwoNoncesBlock`).
- The accounts are the replay of the chain while storage works (`ChainRuns.AccountsAreReplay`). When
  storage refuses a validated block its transactions are spent all the same
  (`LedgerRuns.RefusedExactly`), and a non-empty one can never be added again
  (`LedgerRuns.RefusedForGood`).
- In the validator module an approval and a finalization of one validator carry the same signature, so
  one approval is enough to finalize a hash that nobody led, with no faulty key at all
  (`ValidatorTolerance.ToleranceFails`, `ValidatorTolerance.OneSignatureSuffices`). Everything
  finalized is led exactly when each finalization handled is of a hash led by then
  (`ValidatorTolerance.LedExactlyWhen`).
- A genesis block that is submitted again is accepted and credits its recipients again
  (`LedgerRuns.ReAddedExactly`, `LedgerRuns.FittingMints`).
- GetBlockByIndex only looks at targets of edges and never finds the genesis block
  (`ChainRuns.ByIndexFinds`).
- The Merkle root does not commit to the number of transactions (`Merkle.LengthNotBound`).
- A consensus packet cut short inside its signature is accepted with zeros in place of the missing
  bytes (`PacketCodec.TruncationAcceptedExactly`).

## Model

| member | source | states |
|---|---|---|
| `ConsensusNode.ValidatorSet.QuorumSize` | pkg/consensus/validator_set.go:119-127 | the cached threshold, or two thirds of the validators plus one |
| `ConsensusNode.ValidatorSet.AddValidator` | pkg/consensus/validator_set.go:30-35 | adds the peer and changes neither leader nor threshold |
| `ConsensusNode.ValidatorSet.RemoveValidator` | pkg/consensus/validator_set.go:38-43 | removes the peer and changes neither leader nor threshold |
| `ConsensusNode.ValidatorSet.SetLeader` | pkg/consensus/validator_set.go:146-155 | only a member becomes leader |
| `ConsensusNode.ValidatorSet.SetQuorumThreshold` | pkg/consensus/validator_set.go:130-135 | replaces the threshold and nothing else |
| `ConsensusNode.State.constructor` | pkg/consensus/state.go:30-38 | starts with no proposals, approvals or finalized hashes |
| `ConsensusNode.State.AddProposal` | pkg/consensus/state.go:41-65 | keeps a proposal in memory even when it could not be stored; other packet types are refused |
| `ConsensusNode.State.AddApproval` | pkg/consensus/state.go:79-135 | records one approval per validator; a repeated one changes nothing and is no error |
| `ConsensusNode.State.HasReachedQuorum` | pkg/consensus/state.go:138-153 | counts the distinct approvers against the quorum |
| `ConsensusNode.State.FinalizeBlock` | pkg/consensus/state.go:156-180 | marks the hash in memory before it is stored |
| `ConsensusNode.Protocol.ProposeBlock` | pkg/consensus/protocol.go:144-188 | the new state and the error of every failure of leader, signer, storage and broadcast; without one, a proposal of exactly this data under its hash, signed by the leader, is sent |
| `ConsensusNode.Protocol.ApproveProposal` | pkg/consensus/protocol.go:191-232 | the approval is recorded and sent, and finalization follows on a quorum |
| `ConsensusNode.Protocol.FinalizeBlock` | pkg/consensus/protocol.go:235-283 | finalizes and sends once, and only with a quorum |
| `ConsensusNode.Protocol.HandleProposal` | pkg/consensus/protocol.go:300-341 | the order of checks; a validator other than the proposer approves by itself |
| `ConsensusNode.Protocol.HandleApproval` | pkg/consensus/protocol.go:344-375 | a valid approval by a validator is recorded and may finalize |
| `ConsensusNode.Protocol.HandleFinalization` | pkg/consensus/protocol.go:378-422 | any finalization is believed and passed on once |
| `ConsensusNode.Protocol.HandleMessage` | pkg/consensus/protocol.go:286-297 | each packet type goes to its handler |
| `ConsensusNode.Protocol.BroadcastMessage` | pkg/consensus/protocol.go:425-438 | a delivered packet is appended to what was sent |
| `ConsensusOutcomes.ProposeExactly` | pkg/consensus/protocol.go:144-188 | no error exactly when the leader is a validator and signing, storing and sending work; then the block is sent and kept, data included |
| `ConsensusOutcomes.FinalizeExactly` | pkg/consensus/protocol.go:235-283 | no error exactly when the hash was final, or a quorum stood and storing and sending worked; final on a quorum alone; sent once |
| `ConsensusOutcomes.AddExactly` | pkg/consensus/state.go:79-135 | an approval adds its validator to its hash and touches nothing else; no error exactly if stored or repeated |
| `ConsensusOutcomes.ApproveReports` | pkg/consensus/protocol.go:191-232 | no error exactly when the approver is a validator, signing and sending work and the approval is stored or repeated |
| `ConsensusOutcomes.ApproveRecords` | pkg/consensus/protocol.go:191-232 | the approval is recorded exactly when it is signed |
| `ConsensusOutcomes.ApproveFinalizes` | pkg/consensus/protocol.go:191-232 | the hash is final exactly when the approval succeeds and completes a quorum |
| `ConsensusOutcomes.ApproveSends` | pkg/consensus/protocol.go:191-232 | the approval is sent, and behind it a finalization exactly on a quorum of a hash that was not final |
| `ConsensusOutcomes.HandleProposalExactly` | pkg/consensus/protocol.go:300-341 | a proposal is kept exactly if its hash is new and a validator signed it; a validator other than its proposer then signs an approval |
| `ConsensusOutcomes.HandleProposalSends` | pkg/consensus/protocol.go:300-341 | that approval is sent exactly if it succeeds |
| `ConsensusOutcomes.HandleProposalFinalizes` | pkg/consensus/protocol.go:300-341 | and makes the hash final exactly if it completes a quorum |
| `ConsensusOutcomes.HandleApprovalRecords` | pkg/consensus/protocol.go:344-375 | an approval is recorded exactly if a validator signed its hash |
| `ConsensusOutcomes.HandleApprovalFinalizes` | pkg/consensus/protocol.go:344-375 | it makes the hash final exactly if it completes a quorum and is stored or repeated |
| `ConsensusOutcomes.HandleApprovalSends` | pkg/consensus/protocol.go:344-375 | and then a finalization is sent, once |
| `ConsensusOutcomes.HandleFinalizationExactly` | pkg/consensus/protocol.go:378-422 | a finalization is believed always, and passed on once if everything works |
| `ConsensusRuns.NextSound` | pkg/consensus/protocol.go:191-422 | every step keeps: approvals are backed by their signers, and what is finalized or announced rests on a quorum or an injected finalization |
| `ConsensusRuns.RunSound` | pkg/consensus/protocol.go:144-422 | so does every run |
| `ConsensusSafety.FinalizedImpliesQuorum` | pkg/consensus/protocol.go:235-283 | in every run with node-sent packets a hash finalized at any node was approved by a quorum of distinct validators |
| `ConsensusSafety.FinalizedShareApprovers` | pkg/consensus/validator_set.go:119-127 | any two finalized hashes share at least (n-1)/3+1 approvers under the default quorum |
| `ConsensusSafety.ApprovalOrigin` | pkg/consensus/protocol.go:300-341 | a new approval comes from an explicit call, or from a validator handed a validly signed proposal of another one |
| `ConsensusSafety.FinalizedImpliesHonestQuorum` | pkg/consensus/protocol.go:344-375 | with faulty senders that cannot forge, all but the faulty part of a quorum signed a finalized hash, or it is not certified and its finalization was injected |
| `ConsensusSafety.HonestOverlap` | CONSENSUS.md:127 | with f faulty among 3f+1 an honest validator signed both of any two certified hashes, whatever finalizations were injected |
| `ConsensusSafety.SilenceBlocks` | pkg/consensus/protocol.go:300-341 | when the validators that are neither silent nor the proposer make no quorum, nothing is finalized at any node in any run |
| `ConsensusSafety.DocumentedProgressFails` | CONSENSUS.md:127 | f silent validators among 3f+1 stop every finalization, without any malice |
| `ConsensusSafety.WhyFinalized` | pkg/consensus/protocol.go:378-422 | a node finalizes because the hash is certified or because it was told to, and always does what it is told |
| `ConsensusSafety.CertifiedExactlyWhen` | pkg/consensus/protocol.go:378-422 | every finalized hash is certified if and only if every finalization delivered to a node names a certified hash |
| `ConsensusSafety.GuardedExactlyWhen` | pkg/consensus/protocol.go:378-422 | at every moment of a run all finalized hashes are certified if and only if each delivered finalization was for a hash certified when it was delivered |
| `ConsensusSafety.DocumentedToleranceFails` | CONSENSUS.md:127 | one injected finalization, no approvals: an honest node finalizes |
| `ConsensusConvergence.ApprovalsExact` | pkg/consensus/state.go:79-153 | after any list of approval packets each hash has exactly its distinct valid approvers, and is finalized exactly on a quorum of them |
| `ConsensusConvergence.FinalizedExactly` | pkg/consensus/protocol.go:344-375 | whatever is stored, a hash is finalized if and only if some valid approval arrived with a quorum reached that was stored or repeated |
| `ConsensusConvergence.DeliveryOrderIrrelevant` | pkg/consensus/protocol.go:344-375 | lists with the same packets, in any order and repetition, leave the same approvals whatever is stored, and the same state when every approval is |
| `ConsensusLiveness.PacketBound` | pkg/consensus/protocol.go:300-422 | one proposal among n live validator nodes makes at most 2n packets, however deliveries are ordered and repeated |
| `ConsensusLiveness.RedeliveryIgnored` | pkg/consensus/protocol.go:300-422 | handing a packet to the same node again changes nothing |
| `ConsensusLiveness.Progress` | pkg/consensus/protocol.go:300-422 | a measure that every first delivery lowers by one and nothing raises |
| `ConsensusLiveness.Quiesces` | pkg/consensus/protocol.go:300-422 | from any point some further deliveries lead to quiescence |
| `ConsensusLiveness.QuiescentFinalization` | pkg/consensus/protocol.go:300-341 | with any validators silent, at quiescence all live nodes have finalized if the automatic approvers reach the quorum of all validators, and none otherwise |
| `ConsensusLiveness.DataReachesAll` | pkg/consensus/protocol.go:144-188 | at quiescence every live node holds the proposed block: its data under its hash, signed by the leader |
| `ConsensusLiveness.LiveQuorumNeeded` | pkg/consensus/protocol.go:300-341 | with k silent validators, all live nodes finalize if and only if n-1-k reaches the quorum |
| `ConsensusLiveness.SilentTolerance` | CONSENSUS.md:127 | of 3f+1 validators fewer than f may be silent: exactly then the live nodes finalize |
| `ConsensusLiveness.FourNodesNeeded` | pkg/consensus/validator_set.go:119-127 | when the leader proposes itself: exactly when n >= 4 |
| `ConsensusLiveness.SevenNodesNeeded` | pkg/consensus/protocol.go:144-188 | when another node proposes in its name: exactly when n >= 7 |
| `ConsensusLiveness.PacketsAtQuiescence` | pkg/consensus/protocol.go:378-422 | exactly 2n packets if finalized, n otherwise |
| `ValidatorNode.Consensus.SetCurrentLeader` | pkg/validator/consensus.go:140-142 | changes only whom the node takes as leader |
| `ValidatorNode.Consensus.Listen` | pkg/validator/consensus.go:145-199 | verified packets reach the inbox once per sender and hash |
| `ValidatorNode.Consensus.ProcessMessage` | pkg/validator/consensus.go:202-222 | the first packet of the inbox goes to its handler |
| `ValidatorNode.Consensus.HandleProposal` | pkg/validator/consensus.go:225-245 | only a proposal of the node taken as leader is accepted and approved |
| `ValidatorNode.Consensus.HandleApproval` | pkg/validator/consensus.go:248-266 | approvals are recorded; only a node that takes itself as leader finalizes, on a quorum |
| `ValidatorNode.Consensus.ApproveProposal` | pkg/validator/consensus.go:372-397 | signs and sends an approval |
| `ValidatorNode.Consensus.FinalizeBlock` | pkg/validator/consensus.go:400-426 | marks the hash and sends a signed finalization |
| `ValidatorNode.Consensus.ProposeBlock` | pkg/validator/consensus.go:333-369 | signs, records and sends a proposal |
| `ValidatorOutcomes.HandleApprovalExactly` | pkg/validator/consensus.go:248-266 | a self-taken leader finalizes and says so exactly when the distinct approvers, this one included, reach the quorum of a hash that is not final, the approval is stored or repeated, and signing and sending work; nobody else does |
| `ValidatorOutcomes.LeaderFinalizesExactly` | pkg/validator/consensus.go:248-266 | after any list of approvals exactly the distinct approvers are recorded, and the hash is final exactly if the node leads and some arrival let it finalize; it says so once |
| `ValidatorOutcomes.QuorumFinalizes` | pkg/validator/consensus.go:257-261 | when nothing fails: exactly when the distinct approvers number a quorum |
| `ValidatorOutcomes.HandleProposalExactly` | pkg/validator/consensus.go:225-245 | a proposal is kept exactly if it comes from the node taken as leader, and approved exactly if it is stored by a validator that can sign and send |
| `ValidatorOutcomes.ProposeExactly` | pkg/validator/consensus.go:333-369 | a proposal is sent with its data, signed over hash and data, and kept |
| `ValidatorOutcomes.VerifiesExactly` | pkg/validator/consensus.go:279-308 | a packet verifies exactly if its sender is a validator that signed its hash, or hash and data for a proposal |
| `ValidatorOutcomes.ReceivedOnce` | pkg/validator/consensus.go:145-199 | after any list of packets the inbox holds one verified packet for each sender and hash that had one, and nothing else |
| `ValidatorSafety.NextKeepsInv` | pkg/validator/consensus.go:225-276 | every step keeps: recorded and announced approvals come from validators that accepted a proposal of their leader |
| `ValidatorSafety.FinalizedLedFirst` | pkg/validator/consensus.go:225-276 | with node-sent packets, whatever is finalized anywhere was first finalized by a node that took itself as leader, on a quorum of approvals by validators that had each accepted a proposal of the node they then took as leader |
| `ValidatorTolerance.LedExactlyWhen` | pkg/validator/consensus.go:269-276 | whatever is injected, at every moment everything finalized was led on a quorum, if and only if each finalization a node handled was of a hash led by then |
| `ValidatorTolerance.LedHonestly` | pkg/validator/consensus.go:248-266 | with faulty senders that cannot forge, a hash is led only when all but the faulty part of a quorum signed it |
| `ValidatorTolerance.OneSignatureSuffices` | pkg/validator/consensus.go:284-285 | wherever a run has come to, one signature of one validator on a hash lets a waiting node finalize it |
| `ValidatorTolerance.ToleranceFails` | CONSENSUS.md:127 | four faultless validators, one approval: a node finalizes what nobody led |
| `BatchWriterNode.PutPairs` | pkg/storage/writer.go:94-125 | the loop over a buffer writes each of its pairs |
| `BatchWriterNode.BatchWriter.BufferWrite` | pkg/storage/writer.go:87-91 | the request joins the channel of the worker chosen by the first key byte |
| `BatchWriterNode.BatchWriter.Flush` | pkg/storage/writer.go:94-125 | all of the buffer is persisted or none, and it is emptied either way |
| `BatchWriterNode.BatchWriter.Receive` | pkg/storage/writer.go:53-84 | one request moves to the buffer, which is flushed when it is full |
| `BatchWriterNode.BatchWriter.OnTicker` | pkg/storage/writer.go:53-84 | a tick flushes |
| `BatchWriterNode.BatchWriter.OnStop` | pkg/storage/writer.go:53-84 | a stop flushes the buffer, not the channel, and ends the worker |
| `BatchWriterNode.BatchWriter.FlushAndStop` | pkg/storage/writer.go:128-131 | closes the stop signal and touches neither channels nor buffers |
| `BatchWriterRuns.NextKeepsInv` | pkg/storage/writer.go:53-125 | every step keeps: database, buffer and channel of a worker are its share of the writes in order |
| `BatchWriterRuns.StoppedPersistsPrefix` | pkg/storage/writer.go:128-131 | a stopped worker has persisted exactly a prefix of the writes routed to it |
| `BatchWriterRuns.DrainedIsDurable` | pkg/storage/writer.go:53-84 | with nothing queued or buffered the database is the map of all writes |
| `BatchWriterRuns.WriteRoutesExactly` | pkg/storage/writer.go:87-91 | a write goes to the end of the channel chosen by the first key byte |
| `BatchWriterRuns.TakeFlushesExactly` | pkg/storage/writer.go:60-68 | a taken request flushes the buffer exactly when it fills it |
| `BatchWriterRuns.TickFlushesExactly` | pkg/storage/writer.go:70-82 | a tick empties the buffer, into the database if the transaction works, and a stop does the same |
| `BatchWriterRuns.BuffersStayBelow` | pkg/storage/writer.go:53-84 | over any run no buffer stays full, whichever flushes fail |
| `BatchWriterViews.ViewIsSequential` | pkg/storage/writer.go:53-125 | with flushes that succeed, in every interleaving the database overlaid by buffers and channels is the map of all writes in order |
| `BatchWriterViews.FailedFlushExact` | pkg/storage/writer.go:94-125 | a failed flush leaves the view what it was, in any state, if and only if it loses no key: each buffered pair is stored already or its key is queued again |
| `BatchWriterViews.StepAtKey` | pkg/storage/writer.go:53-125 | a step changes the view by its own write, except at exactly the keys it loses |
| `BatchWriterViews.WrongKeysExactly` | pkg/storage/writer.go:94-125 | after any run, with flushes that fail anywhere, the view is right at exactly the keys not lost since they were last written |
| `BatchWriterViews.AgreesExactly` | pkg/storage/writer.go:94-125 | so the whole view is right if and only if no key is lost |
| `BatchWriterViews.AlwaysAgreesExactly` | pkg/storage/writer.go:94-125 | it is right after every step if and only if each failed flush was harmless at its own step |
| `BatchWriterViews.FailureLosesWrite` | pkg/storage/writer.go:115-124 | one failed flush loses an accepted write from buffer, channel and database |
| `Merkle.NextLevel` | pkg/types/block.go:65-78 | one round hashes neighbours together and promotes an odd last element |
| `Merkle.ComputeMerkleRoot` | pkg/types/block.go:53-84 | the loop terminates with the root of the recursive tree |
| `Merkle.LevelKeepsRoot` | pkg/types/block.go:65-81 | a round does not change the root of the tree |
| `Merkle.SmallRoots` | pkg/types/block.go:53-84 | the roots of up to three transactions, byte by byte |
| `Merkle.MerkleBinding` | pkg/types/block.go:53-84 | lists of one length and one root are equal, or a collision is computed |
| `Merkle.LengthNotBound` | pkg/types/block.go:53-84 | a longer and a shorter list can have one root |
| `HeaderChain.ComputeHash` | pkg/types/block.go:87-110 | hashes the fixed-width encoding, through a shared scratch buffer |
| `HeaderChain.HeaderInjective` | pkg/types/block.go:87-110 | a header can be read back from the bytes that are hashed |
| `HeaderChain.FieldsAt` | pkg/types/block.go:87-110 | where each field of a block stands among the hashed bytes |
| `HeaderChain.HeadCommitsToChain` | pkg/chain/validation.go:15-29 | chains with one head hash have the same headers back to genesis, or a collision is found |
| `HeaderChain.HeadCommitsToTransactions` | pkg/chain/validation.go:26-35 | and the same transaction IDs in blocks of equal size, or a collision is found |
| `Encoding.PutUint` | pkg/types/block.go:137-141 | little-endian bytes at an offset, nothing before it changed |
| `Encoding.FromLEOfLE` | pkg/types/transaction.go:161-174 | an integer is recovered from its bytes |
| `Encoding.Uint32Bytes` | pkg/types/block.go:152-157 | the four bytes of a 32-bit integer, lowest first |
| `Types.SignerCodes` | pkg/signatures/types.go:12-23 | the number written for each signature type |
| `TransactionCodec.Serialize` | pkg/types/transaction.go:69-128 | fills a buffer of the size computed in 32 bits exactly with the layout of what 32-bit lengths keep, whenever that fits |
| `TransactionCodec.Deserialize` | pkg/types/transaction.go:131-214 | the specified result on any bytes, never reading out of bounds |
| `TransactionCodec.FixedSlices` | pkg/types/transaction.go:69-112 | where each field of fixed width stands |
| `TransactionCodec.PartsAt` | pkg/types/transaction.go:113-128 | where signature and payload stand |
| `TransactionCodec.RoundTrip` | pkg/types/transaction.go:69-214 | an encoded transaction followed by anything decodes to it, up to an unknown signature type |
| `TransactionCodec.DecodedIsEncoded` | pkg/types/transaction.go:131-214 | whatever is decoded re-encodes to the bytes that were consumed, up to an unknown signature type |
| `BlockCodec.Serialize` | pkg/types/block.go:113-200 | the write offset ends at the precomputed size, with the layout of what 32-bit lengths keep in the buffer |
| `BlockCodec.Deserialize` | pkg/types/block.go:203-313 | the specified result on any bytes, never reading out of bounds |
| `BlockCodec.HeadSlices` | pkg/types/block.go:139-178 | where each field of fixed width stands before and behind the signature |
| `BlockCodec.Layout` | pkg/types/block.go:113-200 | where signature, transactions and finalizers stand |
| `BlockCodec.ReadTransactions` | pkg/types/block.go:270-290 | the loop over length-prefixed transactions |
| `BlockCodec.FramesRoundTrip` | pkg/types/block.go:176-183 | length-prefixed parts that each decode are read back in order |
| `BlockCodec.RoundTrip` | pkg/types/block.go:113-313 | an encoded block followed by anything decodes to it, with its transactions and finalizers, up to unknown signature types |
| `BlockCodec.DecodedRoundTrips` | pkg/types/block.go:203-313 | whatever block is read from any bytes can be written, and reads back unchanged |
| `PacketCodec.Buffer.Read` | pkg/packets/consensus.go:133-136 | a plain read fails only on an empty buffer and leaves zeros where bytes are missing |
| `PacketCodec.SerializePeerID` | pkg/packets/helpers.go:12-21 | appends length and bytes |
| `PacketCodec.DeserializePeerID` | pkg/packets/helpers.go:24-34 | consumes length and bytes, all of them or an error |
| `PacketCodec.Serialize` | pkg/packets/consensus.go:25-95 | the layout of any packet, with block data for proposals only |
| `PacketCodec.Deserialize` | pkg/packets/consensus.go:98-185 | the specified result on any bytes |
| `PacketCodec.PartsAt` | pkg/packets/consensus.go:25-95 | where head, body, signature flag and signature stand |
| `PacketCodec.HeadAt` | pkg/packets/consensus.go:28-47 | where type, signer, proposer and validator stand in the head |
| `PacketCodec.BodyAt` | pkg/packets/consensus.go:49-70 | where hash and block data stand in the body; only a proposal carries data |
| `PacketCodec.RoundTrip` | pkg/packets/consensus.go:25-185 | an encoded packet followed by anything decodes to its normal form |
| `PacketCodec.NormalEncodesAlike` | pkg/packets/consensus.go:25-95 | the normal form has the same bytes |
| `PacketCodec.SameBytesSameNormal` | pkg/packets/consensus.go:25-185 | two packets have the same bytes if and only if they have the same normal form |
| `PacketCodec.DecodedIsNormal` | pkg/packets/consensus.go:98-185 | every decoded packet is in normal form |
| `PacketCodec.TruncationAcceptedExactly` | pkg/packets/consensus.go:160-182 | a packet cut short is accepted if and only if a byte of its signature is left, with zeros for the rest |
| `Accounts.SupplyDrift` | pkg/ledger/state.go:33-73 | whatever wraps or is clamped, a block changes the supply by the sum of its drifts: how far each new balance is from what it should be |
| `Accounts.CreditExactly` | pkg/ledger/state.go:33-43 | a credit is never too high, and full if and only if the balance stays below 2^63 |
| `Accounts.SupplyChange` | pkg/ledger/state.go:33-73 | if each transaction at its turn keeps its dues and the supply below 2^63, a block changes the supply by exactly what the clamp at zero cut off |
| `Accounts.SmallDuesFit` | pkg/ledger/state.go:33-73 | which holds whenever supply and dues together are below 2^63 |
| `Accounts.CoveredIfExact` | pkg/chain/validation.go:91-95 | a validated transaction is covered by its sender if and only if amount plus fee does not wrap |
| `Accounts.TransactionBalance` | pkg/ledger/state.go:61-73 | a fitting transaction takes what is due from its sender, as far as there is, and gives the amount to its recipient and the fee to the validator, whoever coincides |
| `Accounts.BlockBalance` | pkg/ledger/state.go:61-73 | a block that does not overflow changes everybody's balance by what they received and earned, less what they owed and the clamp did not spare |
| `Accounts.GenesisBalance` | pkg/ledger/block.go:34-37 | a genesis block whose allocations stay below 2^63 gives every recipient its amounts |
| `Accounts.AdjustInAllCases` | pkg/ledger/state.go:33-43 | the new balance for every balance and amount, with overflow in both directions and the clamp |
| `Accounts.NobodyFallsShort` | pkg/chain/validation.go:91-103 | from a supply below 2^63, in a validated block without a repeated (sender, nonce) pair the clamp cuts off nothing, if and only if no cost wraps |
| `Accounts.Conserved` | pkg/ledger/state.go:61-73 | from a supply below 2^63, a validated block without repeated pairs and wrapping costs conserves the supply and settles every account in full, whoever sender, recipient and validator are |
| `Accounts.ConservedExactly` | pkg/ledger/state.go:33-43 | if each transaction at its turn keeps its dues and the supply below 2^63, the supply is conserved if and only if every transaction is covered at its turn |
| `Accounts.OnlySendersPay` | pkg/ledger/state.go:61-73 | under the same bound no balance goes down but a sender's |
| `Accounts.WrappedCostMints` | pkg/chain/validation.go:91-95 | one validated transaction whose cost wraps turns a supply of 0 into 2^63-1 |
| `Accounts.WrappedCostTakes` | pkg/chain/validation.go:91-95 | one whose cost wraps moves the coins of a validator that sends nothing |
| `Accounts.RepeatedSenderMints` | pkg/chain/validation.go:91-103 | a validated block with one sender twice and exact costs doubles a balance |
| `Accounts.GenesisSupply` | pkg/ledger/block.go:34-37 | a genesis block adds at most its amounts, and all of them if and only if no balance reaches 2^63 on the way |
| `Accounts.NonceCounts` | pkg/ledger/state.go:53-58 | a nonce goes up once for each transaction sent |
| `Accounts.AdvanceModulo` | pkg/ledger/state.go:53-58 | and wraps at 64 bits |
| `LedgerSpec.ValidatesExactly` | pkg/chain/validation.go:10-68 | the sequence of checks accepts exactly the blocks that follow a known block by one, with right hash, root, times and transactions |
| `LedgerSpec.ReportsFirst` | pkg/chain/validation.go:10-68 | which failure is reported, in the order of the checks |
| `LedgerSpec.TransactionReports` | pkg/chain/validation.go:72-108 | which failure of a transaction is reported; a genesis block is spared balance and nonce |
| `LedgerSpec.TransactionErrors` | pkg/chain/validation.go:57-61 | a block reports the first of its transactions that fails |
| `LedgerNode.State.UpdateBalance` | pkg/ledger/state.go:33-43 | one balance moves by a signed amount, wrapped and clamped |
| `LedgerNode.State.IncrementNonce` | pkg/ledger/state.go:53-58 | one nonce moves by one |
| `LedgerNode.ClosesCycle` | pkg/ledger/block.go:52-58 | the backward search answers whether a path exists |
| `LedgerNode.Ledger.ApplyBlock` | pkg/ledger/state.go:61-73 | the loop applies the transactions in order |
| `LedgerNode.Ledger.AddBlock` | pkg/ledger/block.go:15-68 | the new vertices, edges and accounts, also when a write fails half way |
| `LedgerNode.Ledger.GetBlockByIndex` | pkg/ledger/block.go:89-109 | the target of some edge with the index, or none if there is none |
| `LedgerNode.Ledger.GetLatestBlock` | pkg/ledger/block.go:112-134 | some vertex without successors, or none if there is none |
| `LedgerNode.Blockchain.Setup` | pkg/chain/chain.go:39-82 | whenever the walk back can end: the head is a latest block, and genesis is where the walk ends, or an error where a predecessor is missing |
| `LedgerNode.Blockchain.GetChainHeight` | pkg/chain/chain.go:85-94 | the index of the head |
| `LedgerNode.Blockchain.ValidateTransaction` | pkg/chain/validation.go:72-108 | the first failing check of a transaction |
| `LedgerNode.Blockchain.ValidateBlock` | pkg/chain/validation.go:10-68 | the first failing check of a block |
| `LedgerNode.Blockchain.AddBlock` | pkg/chain/blocks.go:6-27 | validated blocks are added, with or without a head, and the head follows what was added |
| `LedgerNode.Blockchain.HandleIncomingBlock` | pkg/chain/organization.go:8-37 | an invalid block is rejected before the head is read, and only a valid block on the head is added |
| `LedgerRuns.StepSound` | pkg/ledger/block.go:41-65 | a submitted block keeps the hash links, and a validated one is refused by storage failures only |
| `LedgerRuns.ExtendExactly` | pkg/chain/blocks.go:6-27 | with working storage AddBlock returns no error exactly for a valid block, wherever it belongs, and it is then the head; an invalid one changes nothing |
| `LedgerRuns.RunIsForest` | pkg/ledger/block.go:41-65 | in every reached ledger each edge goes from the previous hash to the block and raises the index by one, the graph is a forest, and the cycle check never fires |
| `LedgerRuns.AmbiguityIsCollision` | pkg/types/block.go:87-110 | two headers with one hash are a collision |
| `LedgerRuns.WalkReachesGenesis` | pkg/chain/chain.go:69-78 | the walk ends at an index-0 block, and visits a chain of valid hashes |
| `LedgerRuns.LinkedWalksEnd` | pkg/chain/chain.go:69-78 | in every reached ledger the walk of setup ends |
| `LedgerRuns.WalkFollowsLineage` | pkg/chain/chain.go:69-78 | it ends at the last block of the lineage and misses no predecessor |
| `LedgerRuns.NonceIsCount` | pkg/ledger/state.go:53-66 | over every run a nonce counts the sender's transactions in applied non-genesis blocks |
| `LedgerRuns.NoDoubleSpend` | pkg/chain/validation.go:98-102 | in two applied blocks the later one has the higher nonces of a sender, so no pair occurs twice |
| `LedgerRuns.ReAddedExactly` | pkg/chain/blocks.go:6-27 | a block accepted before validates again, at any later point, if and only if it is a genesis block or empty |
| `LedgerRuns.ReAddedUnchanged` | pkg/chain/blocks.go:6-27 | an accepted non-empty block that comes back is rejected with the ledger unchanged |
| `LedgerRuns.StepSupply` | pkg/ledger/block.go:15-68 | whatever overflows, a call adds the drifts of its block, or the allocations of a stored genesis block, and nothing if it is rejected |
| `LedgerRuns.FittingMints` | pkg/ledger/block.go:15-68 | if an accepted block does not overflow these are its shortfalls or amounts, never negative |
| `LedgerRuns.RunSupply` | pkg/ledger/block.go:15-68 | over any run, whatever overflows, the supply changes by exactly what its calls minted |
| `LedgerRuns.RunConservesExactly` | pkg/chain/blocks.go:6-27 | a run whose accepted blocks do not overflow conserves the supply if and only if none of its calls mints anything |
| `LedgerRuns.RunConserves` | pkg/chain/blocks.go:6-27 | from a supply below 2^63, a run that accepts only non-genesis blocks without repeated pairs and wrapping costs conserves the supply, whatever else it refuses |
| `LedgerRuns.RefusedExactly` | pkg/ledger/block.go:41-65 | when storage refuses a validated block the accounts are unchanged if and only if it is a genesis block or empty |
| `LedgerRuns.RefusedForGood` | pkg/ledger/block.go:41-65 | a refused non-empty block has spent its transactions and can never be added later |
| `ChainRuns.IncomingExactly` | pkg/chain/organization.go:8-37 | no error exactly for a valid block on the head, which becomes the head; a valid block elsewhere is no extension, an invalid one reports its first failing check, and neither changes anything |
| `ChainRuns.ExtensionIsAdded` | pkg/chain/organization.go:19-27 | such a block is added with one vertex and one edge, and its transactions are applied |
| `ChainRuns.IncomingKeepsLine` | pkg/chain/organization.go:8-37 | a valid extension grows the one line of blocks by the block, anything else changes nothing |
| `ChainRuns.RunIsLine` | pkg/chain/organization.go:8-37 | after any run the ledger is the line of genesis and the blocks that were valid extensions of the head when they came |
| `ChainRuns.AccountsAreReplay` | pkg/chain/organization.go:8-37 | and the accounts are the replay of those blocks |
| `ChainRuns.LatestIsHead` | pkg/ledger/block.go:112-134 | on a line only the head can be returned as latest block |
| `ChainRuns.ByIndexFinds` | pkg/ledger/block.go:89-109 | index i finds the i-th block for 1 <= i <= height and nothing otherwise |
| `ChainRuns.RunIsSearchable` | pkg/chain/organization.go:8-37 | all of this for every run from one genesis block |
| `PrefixScan.PrefixInterval` | pkg/storage/mdbx.go:187-190 | between a prefix and a key with it no other key stands, so the loop may stop at the first mismatch |
| `PrefixScan.Db.ListKeysWithPrefix` | pkg/storage/mdbx.go:156-209 | the cursor loop returns exactly the keys with the prefix, in order |
| `PrefixScan.Db.Delete` | pkg/storage/mdbx.go:314-318 | an absent key is an error and changes nothing |
| `GraphStore.RemoveVertexRefines` | pkg/graphmdbx/store.go:87-125 | removing a vertex by key prefixes and parts is removing it from the graph |
| `GraphStore.DoomedExactly` | pkg/graphmdbx/store.go:94-122 | the edge keys found are those with the vertex at either end |
| `GraphStore.StepRefines` | pkg/graphmdbx/store.go:46-209 | every operation on the keys is the operation on an abstract graph, with the same outcome |
| `GraphStore.RunRefines` | pkg/graphmdbx/store.go:46-209 | so is any sequence of operations with colon-free IDs |
| `GraphStore.StoreIsLastWrite` | pkg/graphmdbx/store.go:46-233 | after any sequence of operations a vertex or edge holds what was last written to it and not removed since |
| `GraphStore.SucceedsExactly` | pkg/graphmdbx/store.go:87-209 | only the removal of what is not there fails |
| `GraphStore.OthersUntouched` | pkg/ledger/block.go:29-31 | keys outside the two prefixes are never touched |
| `GraphStore.WithoutIsInduced` | pkg/graphmdbx/store.go:87-125 | what remains is the subgraph induced on the other vertices |
| `GraphStore.Store.AddVertex` | pkg/graphmdbx/store.go:46-64 | one key is set |
| `GraphStore.Store.Vertex` | pkg/graphmdbx/store.go:67-84 | the record under the vertex key, if there is one |
| `GraphStore.Store.RemoveVertex` | pkg/graphmdbx/store.go:87-125 | the two scans and their deletions, and the error for an absent vertex |
| `GraphStore.Store.AddEdge` | pkg/graphmdbx/store.go:161-178 | one key is set |
| `GraphStore.Store.UpdateEdge` | pkg/graphmdbx/store.go:181-198 | one key is set, whether the edge was there or not |
| `GraphStore.Store.RemoveEdge` | pkg/graphmdbx/store.go:201-209 | one key is deleted, and the error for an absent edge |
| `GraphStore.Store.Edge` | pkg/graphmdbx/store.go:212-233 | the properties under the edge key, if there are any |
| `GraphStore.Store.ListVertices` | pkg/graphmdbx/store.go:128-149 | every vertex of the graph once, in key order |
| `GraphStore.Store.ListEdges` | pkg/graphmdbx/store.go:236-268 | every edge of the graph once, with its properties |
| `TxPool.AddRefines` | pkg/txpool/pool.go:95-122 | adding to the map is enqueueing: a full queue loses exactly its head |
| `TxPool.OldestIsHead` | pkg/txpool/pool.go:126-143 | the entry that is evicted is the head of the queue |
| `TxPool.SweepRefines` | pkg/txpool/pool.go:216-232 | the expiry sweep drops exactly a prefix of the queue |
| `TxPool.RunRefines` | pkg/txpool/pool.go:95-232 | under a strictly increasing clock, after every run the map holds exactly the queue in order of insertion |
| `TxPool.RunBounded` | pkg/txpool/pool.go:110-117 | the pool never exceeds its maximum, for any clock, any maximum and any IDs |
| `TxPool.EntriesWereSubmitted` | pkg/txpool/pool.go:118-121 | in every run, whatever the clock shows, an entry is what was submitted under its ID in every field but the time stamp |
| `TxPool.AddsExactly` | pkg/txpool/pool.go:95-122 | an accepted transaction goes in; all others stay while there is room, and one of the oldest makes room in a full pool |
| `TxPool.RefusesExactly` | pkg/txpool/pool.go:95-107 | invalid and repeated transactions are refused, and nothing else while there is room |
| `TxPool.ExpiredByAge` | pkg/txpool/pool.go:224-226 | an entry expires exactly when it is older than the limit |
| `TxPool.RunSize` | pkg/txpool/pool.go:95-232 | under a strictly increasing clock its size is that of the queue |
| `TxPool.TxPool.AddTransaction` | pkg/txpool/pool.go:95-122 | refusals, eviction and time stamp, also when eviction fails |
| `TxPool.TxPool.EvictTransaction` | pkg/txpool/pool.go:126-143 | deletes an entry with the smallest time stamp |
| `TxPool.TxPool.GetTransactions` | pkg/txpool/pool.go:146-164 | up to max entries of the pool, sorted by nonce, none above one left out |
| `TxPool.SortByNonceAsc` | pkg/txpool/pool.go:167-171 | sorts in place, a permutation |
| `TxPool.TxPool.CleanupExpiredTransactions` | pkg/txpool/pool.go:216-232 | deletes exactly the expired entries while it walks them |
| `Producer.BlockProducer.ForgeBlock` | pkg/sequencer/producer.go:30-82 | new chain, pool and status for the transactions and the latest block it found |
| `Producer.NewBlockIsSealed` | pkg/types/block.go:29-50 | a new block has the hash and the root that validation asks for, the fields it was made with, version 1, no signature and no finalizers |
| `Producer.ForgeAllOrNothing` | pkg/sequencer/producer.go:30-82 | exactly when the up to 100 selected transactions are all payable on the latest block and the clock is in order, one valid block with the validator and difficulty of the latest one is appended, that validator earns the fees, and the old pool is the disjoint union of the new pool and the block; otherwise nothing changes |
| `Producer.TwoNoncesBlock` | pkg/chain/validation.go:98-102 | a pool of at most 100 with two nonces of one sender cannot be forged |
| `Producer.ForgedConserves` | pkg/sequencer/producer.go:30-82 | from a supply below 2^63, a forged block without repeated pairs and wrapping costs conserves the supply and takes from its senders only |

## Left out

- The message pool: packets go straight to their handler.
- The values stored under a block hash: proposal data, approval signature and the finalized marker share one key.
- BLS, Ed25519, DLEQ and AES: a signature verifies exactly on what its signer signed.
- libp2p, discovery, configuration, command line, logging and metrics.
- The MDBX environment and the graph library: a sorted map, and sets of vertices and edges; the JSON encoding of vertices is the identity.
- Reads from storage that fail, and failing writes and cancelled contexts in the graph store, the prefix scan and the producer's pool.
- ConsensusLiveness.QuiescentFinalization: assumes that the handlers of live nodes succeed; with failing storage or signers only safety is stated.
- ChainRuns.RunIsLine: assumes that storage works, as do ChainRuns.AccountsAreReplay and Producer.ForgeAllOrNothing; when the write of an edge fails its block stays in the graph without it, which LedgerNode.Ledger.AddBlock and LedgerRuns.RunIsForest include.
- LedgerNode.Blockchain.Setup: requires that the walk back ends; on previous hashes that form a cycle the source loops forever.
- LedgerNode.Blockchain.HandleIncomingBlock: requires a head for a valid block; without one the source dereferences nil.
- Accounts.ConservedExactly: keeps a bound of 2^63; beyond it losses and gains of wrapped balances can cancel, and only the exact sum of Accounts.SupplyDrift is stated.
- TransactionCodec.Serialize: requires that what 32-bit lengths keep fits in 32 bits, and BlockCodec.Serialize that the counts do; beyond that the source runs out of its buffer or its list and panics.
- ValidatorNode.Consensus.Listen: the inbox is unbounded; the source's channel of 1000 packets makes the listener wait instead, which only removes runs.
- TxPool.TxPool.GetTransactions: requires a maximum of at least zero; the source panics on a negative one.
- Followers of the validator module learning of a finalization: approval and finalization of one validator share a deduplication key there.
- One block per height in the quorum protocol: packets carry no height.
- LedgerRuns.Unambiguous: block hashes are not checked against transactions beyond their IDs, so a vertex may be overwritten by a block with the same header and other contents; the properties are about headers and applied transactions.
- Fork choice and proof of work: placeholders in the source.
- The branch of setup for a ledger without blocks: GetLatestBlock reports an error there first.
- Overflow of the clock plus the allowed drift.
- Transaction.Size and Block.Size, which leave out the signature type.
- Two checks of the decoders before the signature type and length, which the minimal size implies.
- TxPool.RunRefines: time stamps are part of the pool's values; the source writes them through a pointer that the submitter also holds.
- The concurrency of pool, ledger and chain: each call is one step under its lock.
- Routing, eBPF, DNS, sharding, topology, accounts and life-cycle state managers: simple maps or input and output.
- Utility scores and leader election timing: the leader is given.
