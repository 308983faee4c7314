/** Blocks, the fixed parameters of a network and the ways a block can be refused. */
module Blocks {
  import opened Prelude
  import opened Checkpoints
  import opened Ledger
  import opened SmtSpec
  import opened Indexes

  datatype Header = Header(version: nat, height: U64, prevHash: Word32, txRoot: Word32, timestamp: U64, consensus: seq<nat>)

  datatype Block = Block(header: Header, transactions: seq<Transaction>)

  /** Everything that is the same on every node of one network. A hash that does not exist stands for a
      header or transaction without a canonical encoding; producerOf is None unless the header carries a
      producer whose signature over the header verifies. */
  datatype Network = Network(
    rules: Rules,
    hasher: Hasher,
    leafHash: Leaf -> Digest,
    topHash: Digest -> Word32,
    genesis: Block,
    version: nat,
    maxTxs: nat,
    blockHash: Header -> Option<Word32>,
    txRootOf: seq<Transaction> -> Option<Word32>,
    txId: Transaction -> Option<Word32>,
    headerOk: Header -> bool,
    producerOf: Header -> Option<PublicKey>,
    committeeSize: nat,
    epochSecs: nat,
    recoveryMax: nat,
    epochMinBlocks: nat)

  ghost predicate NetworkOk(N: Network) {
    && Injective(N.leafHash)
    && N.genesis.header.height == 0 && N.genesis.transactions == []
    && N.blockHash(N.genesis.header).Some?
  }

  datatype ChainError =
    | ParentNotTip
    | UnknownParent
    | BlockPruned(pruned: U64)
    | InvalidHeight(expected: U64, got: U64)
    | InvalidVersion(version: nat)
    | TooManyTransactions(count: nat)
    | NotEncodable
    | MerkleMismatch
    | TxReplay
    | HeaderRejected
    | InvalidProducer
    | Refused(reason: Error)
    | BranchDoesNotChain
    | ContradictsCheckpoint
    | InvalidCheckpoint
    | CommitteeBelowFloor
    | QuorumNotMet
    | StateRootMismatch
}
