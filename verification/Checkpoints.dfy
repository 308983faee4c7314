/** Checkpoint content, quorum envelopes and equivocation evidence as plain values. */
module Checkpoints {
  import opened Prelude

  type PublicKey = Word32
  type Signature = nat

  const GENESIS_CHECKPOINT_HASH: Word32 := 0

  datatype CheckpointData = CheckpointData(
    epoch: U64,
    height: U64,
    blockHash: Word32,
    prevCheckpointHash: Word32,
    stateRoot: Word32,
    recovery: nat)

  datatype Checkpoint = Checkpoint(data: CheckpointData, signatures: seq<(PublicKey, Signature)>)

  /** Signature checks and hashes; every result holds for any such functions. */
  datatype Crypto = Crypto(
    verify: (PublicKey, Word32, Signature) -> bool,
    signingHash: CheckpointData -> Word32,
    checkpointHash: Checkpoint -> Word32,
    nextSeed: Word32 -> Word32,
    recoverySeed: (Word32, nat) -> Word32,
    rank: (Word32, PublicKey) -> Word32)

  /** Two signed checkpoints offered as proof that `offender` signed both sides of a fork. */
  datatype Evidence = Evidence(
    offender: PublicKey,
    a: CheckpointData,
    sigA: Signature,
    b: CheckpointData,
    sigB: Signature)

  predicate VerifyEvidence(c: Crypto, e: Evidence) {
    && e.a.epoch == e.b.epoch
    && e.a.prevCheckpointHash == e.b.prevCheckpointHash
    && c.signingHash(e.a) != c.signingHash(e.b)
    && c.verify(e.offender, c.signingHash(e.a), e.sigA)
    && c.verify(e.offender, c.signingHash(e.b), e.sigB)
  }
}
