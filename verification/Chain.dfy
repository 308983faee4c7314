/** The chain as the source keeps it: a sliding window of blocks, the hash and anti-replay indexes, the
    state, the finalized checkpoints (crates/scone-blockchain/src/chain.rs, fork_choice.rs, finality.rs). */
module Chain {
  import opened Prelude
  import opened Checkpoints
  import opened Ledger
  import opened Indexes
  import opened Quorum
  import opened Blocks
  import opened Finality
  import opened History
  import opened ForkChoice
  import opened StateRoot
  import opened SmtSpec
  import CS = ChainState
  import StaleIndex

  datatype Stored = Stored(
    baseHeight: U64, canonical: seq<Block>, knownHashes: map<U64, Word32>, tip: Word32, included: map<Word32, U64>,
    checkpoints: seq<Checkpoint>, finalized: Option<FinalizedBase>, history: seq<Block>, state: CS.ChainState, view: Ledger,
    domainCount: nat, tldCount: nat, ownerRefcounts: map<OwnerId, nat>, expirations: map<U64, set<DomainId>>,
    leaves: map<Key, Digest>, buckets: map<Key, seq<Digest>>, nodes: map<seq<bool>, BranchNode>, rootChild: Slot,
        rootHash: Option<Digest>)

  class Blockchain {
    const N: Network
    var baseHeight: U64
    var canonical: seq<Block>
    var knownHashes: map<U64, Word32>
    var tip: Word32
    var state: CS.ChainState
    var included: map<Word32, U64>
    var checkpoints: seq<Checkpoint>
    var finalized: Option<FinalizedBase>
    /** Every canonical block since genesis, evicted or not. */
    ghost var history: seq<Block>

    /** The window holds exactly its part of the history. */
    ghost predicate WindowOk()
      reads this`baseHeight, this`canonical, this`knownHashes, this`tip, this`history
    {
      && HistoryOk(N, history)
      && baseHeight < |history|
      && canonical == WindowOf(history, baseHeight)
      && HashesOk(N, history, baseHeight, knownHashes)
      && tip == HashOf(N, TipOf(history))
    }

    /** The state is the fold of the history. */
    ghost predicate StateOk()
      reads this`state, this`history, state, state.smt
    {
      && state.Valid() && state.R == N.rules && state.leafHash == N.leafHash && state.smt.h == N.hasher
      && state.View() == LedgerAt(N, history) && Applies(N, history)
    }

    ghost predicate Valid()
      reads this`baseHeight, this`canonical, this`knownHashes, this`tip, this`history, this`checkpoints, this`finalized
      reads this`state, state, state.smt
    {
      NetworkOk(N) && WindowOk() && StateOk() && CheckpointsOk(N.rules.crypto, checkpoints, finalized)
    }

    /** Everything the chain stores, down to the physical Merkle tree. */
    ghost function Snapshot(): Stored
      reads this, state, state.smt
    {
      Stored(baseHeight, canonical, knownHashes, tip, included, checkpoints, finalized, history, state, state.View(),
          state.domainCount, state.tldCount, state.ownerRefcounts, state.expirations,
             state.smt.leaves, state.smt.buckets, state.smt.nodes, state.smt.rootChild, state.smt.rootHash)
    }

    constructor (N: Network)
      requires NetworkOk(N)
      ensures Valid() && this.N == N && history == [N.genesis] && fresh(state) && fresh(state.smt)
      ensures included == map[] && checkpoints == [] && finalized == None && Rooted()
    {
      this.N := N;
      baseHeight, canonical := 0, [N.genesis];
      var hash := HashOf(N, N.genesis);
      knownHashes, tip := OnlyGenesis(hash), hash;
      state := new CS.ChainState(N.rules, N.leafHash, N.hasher);
      included, checkpoints, finalized := map[], [], None;
      history := [N.genesis];
      new;
      hide *;
      StartIsValid();
    }

    lemma StartIsValid()
      requires NetworkOk(N) && history == [N.genesis] && baseHeight == 0 && canonical == history
      requires tip == HashOf(N, N.genesis) && knownHashes == OnlyGenesis(tip)
      requires state.Valid() && state.R == N.rules && state.leafHash == N.leafHash && state.smt.h == N.hasher &&
          state.View() == EMPTY
      requires checkpoints == [] && finalized == None
      ensures Valid()
    {
      hide CS.ChainState.Valid, HistoryOk, HashesOk, LedgerAt, Injective, OnlyGenesis, Applies;
      GenesisFits(N);
    }

    static function OnlyGenesis(hash: Word32): map<U64, Word32> {
      map[0 := hash]
    }

    static lemma GenesisFits(N: Network)
      requires NetworkOk(N)
      ensures var h := [N.genesis];
              && HistoryOk(N, h) && LedgerAt(N, h) == EMPTY && Applies(N, h)
              && HashesOk(N, h, 0, OnlyGenesis(HashOf(N, N.genesis)))
    {
      assert LinkOk(N, [N.genesis], 0);
    }

    /** A chain taken up from storage: genesis, the tip block, and a state that matches its history. It is fit
        for use exactly when the tip is above genesis: at genesis the block would be held twice. */
    constructor Restore(N: Network, tipHeight: U64, tip: Word32, tipBlock: Block, state: CS.ChainState,
        ghost history: seq<Block>)
      requires NetworkOk(N)
      requires HistoryOk(N, history) && |history| == tipHeight + 1 && TipOf(history) == tipBlock && HashOf(N, tipBlock) == tip
      requires state.Valid() && state.R == N.rules && state.leafHash == N.leafHash && state.smt.h == N.hasher
      requires state.View() == LedgerAt(N, history) && Applies(N, history)
      ensures this.N == N && this.history == history && this.state == state && this.tip == tip
      ensures baseHeight == tipHeight && canonical == [N.genesis, tipBlock]
      ensures included == map[] && checkpoints == [] && finalized == None
      ensures Valid() <==> tipHeight > 0
    {
      hide *;
      this.N, this.tip, this.state, this.history := N, tip, state, history;
      baseHeight, canonical := tipHeight, [N.genesis, tipBlock];
      knownHashes := GenesisAndTip(N, tipHeight, tip);
      included, checkpoints, finalized := map[], [], None;
      new;
      RestoredIsValid(tipHeight, tipBlock);
    }

    lemma RestoredIsValid(tipHeight: U64, tipBlock: Block)
      requires NetworkOk(N) && HistoryOk(N, history) && |history| == tipHeight + 1 && TipOf(history) == tipBlock
      requires baseHeight == tipHeight && canonical == [N.genesis, tipBlock] && tip == HashOf(N, tipBlock)
      requires knownHashes == GenesisAndTip(N, tipHeight, tip)
      requires state.Valid() && state.R == N.rules && state.leafHash == N.leafHash && state.smt.h == N.hasher
      requires state.View() == LedgerAt(N, history) && Applies(N, history) && checkpoints == [] && finalized == None
      ensures Valid() <==> tipHeight > 0
    {
      hide CS.ChainState.Valid, HistoryOk, HashesOk, LedgerAt, NetworkOk, GenesisAndTip, Applies;
      if tipHeight > 0 { RestoredWindow(N, history); } else { assert |WindowOf(history, 0)| == 1; }
    }

    static lemma RestoredWindow(N: Network, h: seq<Block>)
      requires HistoryOk(N, h) && 1 < |h| <= U64_MAX + 1
      ensures WindowOf(h, |h| - 1) == [N.genesis, TipOf(h)]
      ensures HashesOk(N, h, |h| - 1, GenesisAndTip(N, |h| - 1, HashOf(N, TipOf(h))))
    {
    }

    static function GenesisAndTip(N: Network, tipHeight: U64, tip: Word32): map<U64, Word32> {
      map[0 := HashOf(N, N.genesis), tipHeight := tip]
    }

    /** Restored at genesis, the layout would not even serve the next block: a lookup of it answers none. */
    static lemma RestoredServesNext(genesis: Block, tipHeight: U64, tipBlock: Block, next: Block)
      requires genesis.header.height == 0 && tipBlock.header.height == tipHeight && next.header.height == tipHeight + 1
      ensures Lookup(tipHeight, [genesis, tipBlock, next], tipHeight + 1) == Some(next) <==> tipHeight > 0
    {
    }

    /** The window starts no higher than the last checkpoint: so it is from genesis on, and a restored chain gets
        there with its next reorg. */
    ghost predicate Rooted()
      reads this`baseHeight, this`checkpoints
    {
      baseHeight <= if checkpoints == [] then 0 else checkpoints[|checkpoints| - 1].data.height
    }

    // ----- reading the window -----

    function Height(): U64
      requires canonical != []
      reads this
    {
      canonical[|canonical| - 1].header.height
    }

    lemma Basics()
      requires Valid()
      ensures NetworkOk(N) && WindowOk() && CheckpointsOk(N.rules.crypto, checkpoints, finalized)
      ensures HistoryOk(N, history) && history[0] == N.genesis
    {
    }

    lemma BaseBelowTip()
      requires WindowOk()
      ensures baseHeight < |history| && tip == HashOf(N, TipOf(history))
    {
    }

    lemma TipIsLast()
      requires WindowOk()
      ensures canonical != [] && canonical[|canonical| - 1] == TipOf(history) && Height() == |history| - 1
    {
      assert LinkOk(N, history, |history| - 1);
    }

    /** The block at a height in a window that starts at base; from base 1 on genesis shifts it by one. */
    static function Lookup(base: U64, canonical: seq<Block>, height: U64): Option<Block> {
      if height == 0 then
        if canonical != [] && canonical[0].header.height == 0 then Some(canonical[0]) else None
      else if height < base then None
      else
        var offset := height - base;
        var index := if base == 0 then offset else offset + 1;
        if index < |canonical| && canonical[index].header.height == height then Some(canonical[index]) else None
    }

    function BlockAt(height: U64): Option<Block>
      reads this`baseHeight, this`canonical
    {
      Lookup(baseHeight, canonical, height)
    }

    /** Genesis and the heights from the window base to the tip are served, and nothing else, across the
        change of layout at the first eviction. */
    lemma BlockAtIsHistory(height: U64)
      requires WindowOk()
      ensures BlockAt(height) ==
              if height < |history| && (height == 0 || baseHeight <= height) then Some(history[height]) else None
    {
      assert LinkOk(N, history, 0);
      if height < |history| { assert LinkOk(N, history, height); }
    }

    function BlockHashAt(height: U64): Option<Word32>
      reads this`knownHashes
    {
      if height in knownHashes then Some(knownHashes[height]) else None
    }

    /** The hash index answers for exactly the blocks the window serves, with their hashes. */
    lemma BlockHashAtIsHistory(height: U64)
      requires WindowOk()
      ensures BlockHashAt(height) == if BlockAt(height).Some? then N.blockHash(BlockAt(height).value.header) else None
    {
      BlockAtIsHistory(height);
      if height < |history| { assert LinkOk(N, history, height); }
    }

    lemma KnownHash(hash: Word32)
      requires WindowOk()
      ensures hash in knownHashes.Values <==> HashInRam(N, history, baseHeight, hash)
    {
      if hash in knownHashes.Values {
        var k :| k in knownHashes && knownHashes[k] == hash;
        assert InRam(baseHeight, |history|, k);
      }
      if HashInRam(N, history, baseHeight, hash) {
        var k: nat :| k < |history| && InRam(baseHeight, |history|, k) && HashOf(N, history[k]) == hash;
        assert LinkOk(N, history, k);
        assert k in knownHashes;
      }
    }

    // ----- producers and committees -----

    method AllowedProducers(ts: U64) returns (allowed: set<PublicKey>)
      requires Valid()
      ensures forall k :: k in allowed <==> Allowed(N, finalized, state.View(), ts, k)
    {
      hide CS.ChainState.Ready, WindowOk, Drawn, IsCommittee, InPool;
      match finalized {
        case None =>
          var pool := state.EligibleValidators();
          PoolListed(state.View(), pool);
          if pool == [] {
            allowed := {};
            NobodyDrawn(N.rules.crypto, BootstrapSeed(N), SetOf(pool), N.committeeSize);
          } else {
            allowed := Draw(BootstrapSeed(N), pool);
          }
        case Some(base) =>
          allowed := Draw(base.seed, base.pool);
          var r := 1;
          while r <= N.recoveryMax
            invariant r >= 1
            invariant forall k :: k in allowed <==>
                        || Drawn(N.rules.crypto, base.seed, SetOf(base.pool), N.committeeSize, k)
                        || exists i: nat :: i < r && Recovered(N, base, ts, i, k)
          {
            if SaturatingSub(ts, base.blockTs) >= r * N.epochSecs {
              var more := Draw(N.rules.crypto.recoverySeed(base.seed, r), base.pool);
              forall k ensures k in more <==> Recovered(N, base, ts, r, k) {}
              allowed := allowed + more;
            }
            r := r + 1;
          }
      }
    }

    method Draw(seed: Word32, pool: seq<PublicKey>) returns (drawn: set<PublicKey>)
      ensures forall k :: k in drawn <==> Drawn(N.rules.crypto, seed, SetOf(pool), N.committeeSize, k)
    {
      hide Drawn, IsCommittee;
      var committee := SelectCommittee(N.rules.crypto, seed, pool, N.committeeSize);
      drawn := set k | k in committee;
      forall k ensures k in drawn <==> Drawn(N.rules.crypto, seed, SetOf(pool), N.committeeSize, k) {
        CommitteeIsDrawn(N.rules.crypto, seed, SetOf(pool), N.committeeSize, committee, k);
      }
    }

    static lemma PoolListed(l: Ledger, pool: seq<PublicKey>)
      requires forall k: PublicKey :: k in pool <==> InPool(l, k)
      ensures SetOf(pool) == Pool(l)
    {
      forall k ensures k in SetOf(pool) <==> k in Pool(l) { PoolIsInPool(l, k); }
    }

    static lemma NobodyDrawn(c: Crypto, seed: Word32, pool: set<PublicKey>, size: nat)
      requires pool == {}
      ensures forall k :: !Drawn(c, seed, pool, size, k)
    {
    }

    // ----- pushing a block -----

    /** Drops what left both the RAM window and the part above the finality floor. */
    method EvictBelowWindow()
      requires WindowOk()
      modifies this`baseHeight, this`canonical, this`knownHashes
      ensures WindowOk() && baseHeight == NextBase(old(baseHeight), |history| - 1, checkpoints)
    {
      TipIsLast();
      hide HistoryOk, HashesOk, WindowOf;
      if checkpoints == [] { return; }
      var floor := checkpoints[|checkpoints| - 1].data.height;
      var windowStart := SaturatingSub(Height(), RAM_WINDOW_BLOCKS - 1);
      var newBase := Min(windowStart, floor);
      if newBase <= baseHeight { return; }
      var n := if baseHeight == 0 then newBase - 1 else newBase - baseHeight;
      WindowShrinks(history, baseHeight, newBase);
      canonical := canonical[..1] + canonical[1 + n..];
      ForgetHashes(newBase);
      baseHeight := newBase;
    }

    method ForgetHashes(newBase: U64)
      requires baseHeight < newBase && HashesOk(N, history, baseHeight, knownHashes)
      modifies this`knownHashes
      ensures HashesOk(N, history, newBase, knownHashes)
    {
      hide HashesOk;
      var h: U64 := Max(baseHeight, 1);
      HashesFromOne(N, history, baseHeight, knownHashes);
      while h < newBase
        invariant Max(baseHeight, 1) <= h <= newBase
        invariant HashesOk(N, history, h, knownHashes)
      {
        HashesShrink(N, history, h, knownHashes);
        knownHashes := knownHashes - {h};
        h := h + 1;
      }
    }

    static lemma WindowShrinks(h: seq<Block>, base: nat, next: nat)
      requires base < next < |h|
      ensures var n := if base == 0 then next - 1 else next - base;
              && 1 + n <= |WindowOf(h, base)|
              && WindowOf(h, next) == WindowOf(h, base)[..1] + WindowOf(h, base)[1 + n..]
    {
      if base > 0 { assert h[base..][next - base..] == h[next..]; }
    }

    static lemma HashesFromOne(N: Network, h: seq<Block>, base: nat, hashes: map<U64, Word32>)
      requires HashesOk(N, h, base, hashes)
      ensures HashesOk(N, h, Max(base, 1), hashes)
    {
    }

    static lemma HashesShrink(N: Network, h: seq<Block>, base: U64, hashes: map<U64, Word32>)
      requires base > 0 && HashesOk(N, h, base, hashes)
      ensures HashesOk(N, h, base + 1, hashes - {base})
    {
    }

    static lemma HashesGrow(N: Network, h: seq<Block>, base: nat, hashes: map<U64, Word32>, b: Block)
      requires base < |h| <= U64_MAX && HashesOk(N, h, base, hashes)
      ensures HashesOk(N, h + [b], base, hashes[|h| := HashOf(N, b)])
    {
      forall k: U64 | k < |h| ensures (h + [b])[k] == h[k] {}
    }

    static lemma WindowGrows(h: seq<Block>, base: nat, b: Block)
      requires base < |h|
      ensures WindowOf(h + [b], base) == WindowOf(h, base) + [b]
    {
      assert (h + [b])[base..] == h[base..] + [b];
    }

    /** Validates a block against the tip and appends it, or changes nothing. */
    method PushBlock(b: Block) returns (error: Option<ChainError>, expired: seq<DomainId>)
      requires Valid()
      modifies this, state, state.smt
      ensures Valid() && state == old(state) && checkpoints == old(checkpoints) && finalized == old(finalized)
      ensures error == PushVerdict(N, old(history), old(baseHeight), finalized, Replayed(N, old(included), b), b)
      ensures error != None ==> Snapshot() == old(Snapshot())
      ensures error == None ==>
                && history == old(history) + [b] && tip == HashOf(N, b)
                && baseHeight == NextBase(old(baseHeight), b.header.height, checkpoints)
                && included == Recorded(N, old(included), b.transactions, b.header.height)
                && GcOf(N, old(history), expired)
      ensures error == None ==>
                && (old(IndexOk(N, history, included)) ==> IndexOk(N, history, included))
                && (old(IndexOk(N, history, included) && NoReplay(N, history)) ==> NoReplay(N, history))
                && (old(OnHistory(N, checkpoints, history)) ==> OnHistory(N, checkpoints, history))
      ensures old(Rooted()) ==> Rooted()
    {
      hide StepAll, Gc, GcOrder, Elems, Expired, LedgerAt, HistoryOk, HashesOk, WindowOf, CS.ChainState.Ready,
          CheckpointsOk, Checked, Recorded,
           Replayed, IndexOk, NoReplay, OnHistory, Applies;
      error := CheckBlock(b);
      if error.Some? { return error, []; }
      CheckedMeans(N, history, finalized, Replayed(N, included, b), b);
      PushKeepsPromises(N, history, included, checkpoints, b);
      HistoryGrows(N, history, b);
      TipIsLast();
      var parentTime := canonical[|canonical| - 1].header.timestamp;
      var refused;
      refused, expired := state.ApplyBlock(b.transactions, parentTime);
      if refused.Some? { return Some(Refused(refused.value)), expired; }
      AppliesGrows(N, history, b);
      Append(b, N.blockHash(b.header).value);
      RecordIds(b.transactions, b.header.height);
    }

    /** All checks before any change: parent, height, version, size, transaction root, replays, hash, header, producer. */
    method CheckBlock(b: Block) returns (error: Option<ChainError>)
      requires Valid()
      ensures error ==
              if b.header.prevHash == HashOf(N, TipOf(history)) then
                  Checked(N, history, finalized, Replayed(N, included, b), b)
              else if HashInRam(N, history, baseHeight, b.header.prevHash) then Some(ParentNotTip)
              else Some(ClassifyMiss(baseHeight, b.header.height))
    {
      hide ProducerOk, LedgerAt, HistoryOk, HashesOk, WindowOf, CS.ChainState.Ready, CheckpointsOk, HashInRam;
      KnownHash(b.header.prevHash);
      TipIsLast();
      if b.header.prevHash != tip {
        return Some(if b.header.prevHash in knownHashes.Values then ParentNotTip
            else ClassifyMiss(baseHeight, b.header.height));
      }
      if Height() == U64_MAX { return Some(InvalidHeight(U64_MAX, b.header.height)); }
      var expected := Height() + 1;
      if b.header.height != expected { return Some(InvalidHeight(expected, b.header.height)); }
      if b.header.version != N.version { return Some(InvalidVersion(b.header.version)); }
      if |b.transactions| > N.maxTxs { return Some(TooManyTransactions(|b.transactions|)); }
      var root := N.txRootOf(b.transactions);
      if root == None { return Some(NotEncodable); }
      if root.value != b.header.txRoot { return Some(MerkleMismatch); }
      var replayed := AnyReplayed(b.transactions);
      if replayed { return Some(TxReplay); }
      if N.blockHash(b.header) == None { return Some(NotEncodable); }
      if !N.headerOk(b.header) { return Some(HeaderRejected); }
      var producer := N.producerOf(b.header);
      if producer == None {
        NoProducer(N, finalized, state.View(), b.header);
        return Some(InvalidProducer);
      }
      var allowed := AllowedProducers(b.header.timestamp);
      ProducerVerdict(N, finalized, state.View(), b.header, allowed);
      error := if allowed != {} && producer.value !in allowed then Some(InvalidProducer) else None;
    }

    static lemma CheckedMeans(N: Network, h: seq<Block>, fin: Option<FinalizedBase>, replayed: bool, b: Block)
      requires Checked(N, h, fin, replayed, b) == None
      ensures b.header.height == |h| && N.blockHash(b.header).Some? && !replayed
    {
      hide ProducerOk;
    }

    method Append(b: Block, hash: Word32)
      requires WindowOk() && HistoryOk(N, history + [b])
      requires b.header.height == |history| && N.blockHash(b.header) == Some(hash)
      modifies this`baseHeight, this`canonical, this`knownHashes, this`tip, this`history
      ensures WindowOk() && history == old(history) + [b] && tip == hash
      ensures baseHeight == NextBase(old(baseHeight), b.header.height, checkpoints)
    {
      hide HistoryOk, HashesOk, WindowOf;
      HashesGrow(N, history, baseHeight, knownHashes, b);
      WindowGrows(history, baseHeight, b);
      knownHashes := knownHashes[b.header.height := hash];
      canonical := canonical + [b];
      tip := hash;
      history := history + [b];
      EvictBelowWindow();
    }

    method AnyReplayed(txs: seq<Transaction>) returns (replayed: bool)
      ensures replayed <==> exists id :: id in Ids(N, txs) && id in included
    {
      replayed := false;
      var i := 0;
      while i < |txs|
        invariant 0 <= i <= |txs|
        invariant forall t :: t in txs[..i] && N.txId(t).Some? ==> N.txId(t).value !in included
      {
        var id := N.txId(txs[i]);
        if id.Some? && id.value in included {
          assert id.value in Ids(N, txs);
          return true;
        }
        i := i + 1;
      }
    }

    /** Records the block's ids at its height and prunes the index to the last 256 blocks. */
    method RecordIds(txs: seq<Transaction>, height: U64)
      modifies this`included
      ensures included == Recorded(N, old(included), txs, height)
    {
      var i := 0;
      while i < |txs|
        invariant 0 <= i <= |txs|
        invariant included == old(included) + map id | id in Ids(N, txs[..i]) :: height
      {
        var id := N.txId(txs[i]);
        IdsGrow(N, txs, i);
        if id.Some? { included := included[id.value := height]; }
        i := i + 1;
      }
      assert txs[..i] == txs;
      if height > REPLAY_WINDOW_BLOCKS {
        var cutoff := SaturatingSub(height, REPLAY_WINDOW_BLOCKS);
        included := map id | id in included && included[id] > cutoff :: included[id];
      }
    }

    static lemma IdsGrow(N: Network, txs: seq<Transaction>, i: nat)
      requires i < |txs|
      ensures Ids(N, txs[..i + 1]) == Ids(N, txs[..i]) + if N.txId(txs[i]).Some? then {N.txId(txs[i]).value} else {}
    {
      assert txs[..i + 1] == txs[..i] + [txs[i]];
    }

    // ----- the anti-replay index -----

    /** Fills the index of a restored chain from stored inclusions. */
    method RebuildReplayIndex(entries: seq<(Word32, U64)>)
      requires canonical != []
      modifies this`included
      ensures included == Rebuilt(entries, old(included), Height())
    {
      var top := Height();
      var cutoff := SaturatingSub(top, REPLAY_WINDOW_BLOCKS);
      var i := 0;
      while i < |entries|
        invariant 0 <= i <= |entries|
        invariant included == Rebuilt(entries[..i], old(included), top)
      {
        var (id, height) := entries[i];
        assert entries[..i + 1][..i] == entries[..i];
        if !(height > top || height <= cutoff) { included := included[id := height]; }
        i := i + 1;
      }
      assert entries[..i] == entries;
    }

    // ----- fork choice -----

    /** Pushes blocks one after the other, stopping at the first refusal, and gathers the names that expired. */
    method PushAll(blocks: seq<Block>) returns (error: Option<ChainError>, expired: seq<DomainId>)
      requires Valid() && IndexOk(N, history, included) && Replays(N, finalized, history)
      modifies this, state, state.smt
      ensures Valid() && IndexOk(N, history, included) && Replays(N, finalized, history)
      ensures state == old(state) && checkpoints == old(checkpoints) && finalized == old(finalized)
      ensures error == None <==> Replays(N, finalized, old(history) + blocks)
      ensures error == None ==>
                && history == old(history) + blocks
                && 0 < |old(history)| && GcLog(N, history, |old(history)|, expired)
      ensures old(Rooted()) ==> Rooted()
    {
      hide Valid, NetworkOk, Replays, IndexOk, GcLog, GcOf, Rooted;
      Basics();
      error, expired := None, [];
      ghost var target := history + blocks;
      NothingExpired(N, history);
      var i := 0;
      while i < |blocks|
        invariant 0 <= i <= |blocks|
        invariant Valid() && IndexOk(N, history, included) && Replays(N, finalized, history)
        invariant state == old(state) && checkpoints == old(checkpoints) && finalized == old(finalized)
        invariant error == None && |history| == |old(history)| + i && history <= target
        invariant 0 < |old(history)| && GcLog(N, history, |old(history)|, expired)
        invariant old(Rooted()) ==> Rooted()
      {
        ghost var before := history;
        var more;
        error, more := PushAlong(blocks[i], target);
        if error.Some? { return; }
        GcLogGrows(N, before, |old(history)|, expired, blocks[i], more);
        expired := expired + more;
        i := i + 1;
      }
      assert history == target;
    }

    static lemma NothingExpired(N: Network, h: seq<Block>)
      requires 0 < |h|
      ensures GcLog(N, h, |h|, [])
    {
    }

    /** One push on the way to a target list. */
    method PushAlong(b: Block, ghost target: seq<Block>) returns (error: Option<ChainError>, expired: seq<DomainId>)
      requires Valid() && IndexOk(N, history, included) && Replays(N, finalized, history)
      requires 0 < |history| && history < target && b == target[|history|]
      modifies this, state, state.smt
      ensures Valid() && IndexOk(N, history, included) && Replays(N, finalized, history)
      ensures state == old(state) && checkpoints == old(checkpoints) && finalized == old(finalized)
      ensures error == None ==> history == old(history) + [b] && history <= target && GcOf(N, old(history), expired)
      ensures error != None ==> history == old(history) && !Replays(N, finalized, target)
      ensures old(Rooted()) ==> Rooted()
    {
      hide Valid, NetworkOk, WindowOk, CheckpointsOk, HistoryOk, Replays, IndexOk, PushVerdict, Replayed, Recorded,
          LedgerAt, GcOf, Rooted;
      Basics();
      BaseBelowTip();
      assert target[..|history|] == history;
      PushStep(N, finalized, target, |history|, included, baseHeight);
      error, expired := PushBlock(b);
    }

    method SurvivingPrefix(height: U64) returns (prefix: seq<Block>, missing: Option<U64>)
      requires WindowOk() && height < |history|
      ensures if PrefixHeld(baseHeight, height) then missing == None &&
          prefix == history[..height + 1] else missing == Some(1)
    {
      prefix, missing := [], None;
      var h := 0;
      while h <= height
        invariant 0 <= h <= height + 1 && prefix == history[..h]
        invariant h <= 1 || baseHeight <= 1
      {
        BlockAtIsHistory(h);
        var b := BlockAt(h);
        if b == None { return [], Some(h); }
        prefix := prefix + [b.value];
        h := h + 1;
      }
    }

    /** Rebuilds the chain from genesis up to `height` and the extension, then takes over the result.
        A refusal anywhere leaves everything as it was. The anti-replay index is not taken over. */
    method ReorgToHeight(height: U64, extension: seq<Block>) returns (error: Option<ChainError>, expired: seq<DomainId>)
      requires Valid() && height < |history|
      modifies this
      ensures Valid() && checkpoints == old(checkpoints) && finalized == old(finalized) && included == old(included)
      ensures error == None <==>
                && PrefixHeld(old(baseHeight), height)
                && Replays(N, finalized, Branched(old(history), height, extension))
      ensures error == None ==> history == Branched(old(history), height, extension) && fresh(state) && fresh(state.smt)
      ensures error == None ==> NoReplay(N, history) && GcLog(N, history, height + 1, expired) && Rooted()
      ensures error != None ==> Snapshot() == old(Snapshot())
      ensures !PrefixHeld(old(baseHeight), height) ==> error == Some(BlockPruned(1))
      ensures old(Rooted()) ==> Rooted()
    {
      hide Valid, NetworkOk, WindowOk, CheckpointsOk, HistoryOk, Replays, NoReplay, Snapshot, GcLog, Rooted;
      Basics();
      BaseBelowTip();
      expired := [];
      var prefix, missing := SurvivingPrefix(height);
      if missing.Some? { return Some(BlockPruned(missing.value)), []; }
      var rebuilt;
      error, rebuilt, expired := Rebuild(prefix, extension);
      if error.Some? { return; }
      ReplayedHasNoReplay(N, finalized, prefix + extension);
      SwapWith(rebuilt);
    }

    /** A new chain with our checkpoints, replayed from genesis; only the extension's expired names are reported. */
    method Rebuild(prefix: seq<Block>, extension: seq<Block>)
      returns (error: Option<ChainError>, rebuilt: Blockchain, expired: seq<DomainId>)
      requires NetworkOk(N) && CheckpointsOk(N.rules.crypto, checkpoints, finalized) && prefix != [] && prefix[0] == N.genesis
      ensures error == None <==> Replays(N, finalized, prefix + extension)
      ensures error == None ==>
                && fresh(rebuilt) && fresh(rebuilt.state) && fresh(rebuilt.state.smt)
                && rebuilt.Valid() && rebuilt.N == N && rebuilt.history == prefix + extension
                && rebuilt.checkpoints == checkpoints && rebuilt.finalized == finalized
                && GcLog(N, rebuilt.history, |prefix|, expired) && rebuilt.Rooted()
    {
      hide WindowOk, StateOk;
      rebuilt := new Blockchain(N);
      rebuilt.checkpoints, rebuilt.finalized := checkpoints, finalized;
      assert rebuilt.Rooted();
      hide Rooted;
      hide Valid, NetworkOk, Replays, IndexOk, CheckpointsOk, GcLog;
      expired := [];
      StartsEmpty(N, finalized);
      assert [N.genesis] + prefix[1..] == prefix;
      var earlier;
      error, earlier := rebuilt.PushAll(prefix[1..]);
      if error.Some? {
        assert (prefix + extension)[..|prefix|] == prefix;
        PrefixReplays(N, finalized, prefix + extension, |prefix|);
        return;
      }
      error, expired := rebuilt.PushAll(extension);
    }

    static lemma StartsEmpty(N: Network, fin: Option<FinalizedBase>)
      requires NetworkOk(N)
      ensures Replays(N, fin, [N.genesis]) && IndexOk(N, [N.genesis], map[])
    {
      var h := [N.genesis];
      assert Ids(N, []) == {};
      forall id: Word32, k: nat ensures IndexEntry(N, h, map[], id, k) {}
    }

    static lemma PrefixReplays(N: Network, fin: Option<FinalizedBase>, target: seq<Block>, n: nat)
      requires 0 < n <= |target|
      ensures Replays(N, fin, target) ==> Replays(N, fin, target[..n])
    {
      if Replays(N, fin, target) { ReplaysPrefix(N, fin, target, n); }
    }

    /** Takes over everything of a rebuilt chain but its anti-replay index. */
    method SwapWith(other: Blockchain)
      requires other.Valid() && other.N == N
      modifies this
      ensures Valid() && history == other.history && state == other.state && baseHeight == other.baseHeight
      ensures checkpoints == other.checkpoints && finalized == other.finalized
      ensures included == old(included) && (other.Rooted() ==> Rooted())
    {
      hide *;
      baseHeight, canonical, knownHashes, tip := other.baseHeight, other.canonical, other.knownHashes, other.tip;
      state, checkpoints, finalized := other.state, other.checkpoints, other.finalized;
      history := other.history;
      CopyIsValid(other);
    }

    lemma CopyIsValid(other: Blockchain)
      requires other.Valid() && other.N == N
      requires baseHeight == other.baseHeight && canonical == other.canonical && knownHashes == other.knownHashes &&
          tip == other.tip
      requires state == other.state && checkpoints == other.checkpoints && finalized == other.finalized &&
          history == other.history
      ensures Valid() && (other.Rooted() ==> Rooted())
    {
      hide HistoryOk, HashesOk, WindowOf, LedgerAt, CS.ChainState.Valid, CheckpointsOk, NetworkOk, HashOf, TipOf, Applies;
    }

    /** Takes one block: on the tip it is pushed; next to the tip it replaces it when its hash is lower. */
    method TryAttach(b: Block) returns (error: Option<ChainError>, expired: seq<DomainId>)
      requires Valid()
      modifies this, state, state.smt
      ensures Valid() && checkpoints == old(checkpoints) && finalized == old(finalized)
      ensures error != None ==> Snapshot() == old(Snapshot())
      ensures b.header.prevHash == old(tip) ==>
                && error == PushVerdict(N, old(history), old(baseHeight), finalized, Replayed(N, old(included), b), b)
                && (error == None ==> history == old(history) + [b])
      ensures b.header.prevHash != old(tip) ==>
                && included == old(included)
                && (error == None <==> Sister(N, old(history), old(baseHeight), finalized, b))
                && (error == None ==> history == Branched(old(history), |old(history)| - 2, [b]) && tip < old(tip))
                && (SisterRefusal(N, old(history), old(baseHeight), b).Some? ==>
                      error == SisterRefusal(N, old(history), old(baseHeight), b))
      ensures error == None ==> |history| > 1 && GcLog(N, history, |history| - 1, expired)
      ensures old(Rooted()) ==> Rooted()
      ensures error == None && b.header.prevHash != old(tip) && old(IndexOk(N, history, included)) ==>
                StaleIndex.Covers(N, history, |old(history)| - 2, |history|, included)
      ensures error == None && old(OnHistory(N, checkpoints, history)) ==>
                (OnHistory(N, checkpoints, history) <==>
                   (b.header.prevHash == old(tip) || BelowTip(checkpoints, |old(history)| - 1)))
    {
      hide *;
      Basics();
      BaseBelowTip();
      if b.header.prevHash == tip {
        ghost var before := history;
        error, expired := PushBlock(b);
        if error == None { OneBlockLog(N, before, b, expired); }
      } else {
        error, expired := AttachSister(b);
      }
    }

    static lemma OneBlockLog(N: Network, h: seq<Block>, b: Block, expired: seq<DomainId>)
      requires 0 < |h| && GcOf(N, h, expired)
      ensures GcLog(N, h + [b], |h|, expired)
    {
      hide GcOf;
      NothingExpired(N, h);
      GcLogGrows(N, h, |h|, [], b, expired);
      assert [] + expired == expired;
    }

    method AttachSister(b: Block) returns (error: Option<ChainError>, expired: seq<DomainId>)
      requires Valid() && b.header.prevHash != tip
      modifies this
      ensures Valid() && checkpoints == old(checkpoints) && finalized == old(finalized) && included == old(included)
      ensures error != None ==> Snapshot() == old(Snapshot())
      ensures error == None <==> Sister(N, old(history), old(baseHeight), finalized, b)
      ensures error == None ==>
                && |old(history)| > 1 && history == Branched(old(history), |old(history)| - 2, [b]) && |history| > 1
                && tip < old(tip) && Rooted()
                && GcLog(N, history, |history| - 1, expired)
                && (old(IndexOk(N, history, included)) ==>
                      StaleIndex.Covers(N, history, |old(history)| - 2, |history|, included))
      ensures error == None && old(OnHistory(N, checkpoints, history)) ==>
                (OnHistory(N, checkpoints, history) <==> BelowTip(checkpoints, |old(history)| - 1))
      ensures SisterRefusal(N, old(history), old(baseHeight), b).Some? ==>
          error == SisterRefusal(N, old(history), old(baseHeight), b)
      ensures old(Rooted()) ==> Rooted()
    {
      hide *;
      Basics();
      BaseBelowTip();
      SisterChecks(N, history, baseHeight, finalized, b);
      expired := [];
      error := WeighSister(b);
      if error == None {
        SwitchCovers(N, history, |history| - 2, [b], included);
        LowerTip(N, history, baseHeight, b);
        if OnHistory(N, checkpoints, history) && Sister(N, history, baseHeight, finalized, b) {
          SisterKeepsFinality(N, checkpoints, history, baseHeight, finalized, b);
        }
        error, expired := ReorgToHeight(b.header.height - 1, [b]);
        if error == None { TipHash(); }
      }
    }

    lemma TipHash()
      requires Valid()
      ensures history != [] && tip == HashOf(N, TipOf(history))
    {
      hide NetworkOk, StateOk, CheckpointsOk, HistoryOk, HashesOk, WindowOf;
    }

    static lemma LowerTip(N: Network, h: seq<Block>, base: nat, b: Block)
      requires |h| > 1 && SisterRefusal(N, h, base, b) == None
      ensures HashOf(N, TipOf(Branched(h, |h| - 2, [b]))) < HashOf(N, TipOf(h)) && |Branched(h, |h| - 2, [b])| == |h|
    {
    }

    /** What the kept index still covers after a switch to a chain that is no shorter. */
    static lemma SwitchCovers(N: Network, h: seq<Block>, fork: nat, blocks: seq<Block>, index: map<Word32, U64>)
      requires fork < |h| <= fork + 1 + |blocks|
      ensures |Branched(h, fork, blocks)| == fork + 1 + |blocks|
      ensures IndexOk(N, h, index) ==>
                StaleIndex.Covers(N, Branched(h, fork, blocks), fork, |Branched(h, fork, blocks)|, index)
    {
      hide IndexOk, StaleIndex.Covers;
      if IndexOk(N, h, index) { StaleIndex.CoversAfterReorg(N, h, fork, blocks, index); }
    }

    method WeighSister(b: Block) returns (error: Option<ChainError>)
      requires Valid() && b.header.prevHash != tip
      ensures error == SisterRefusal(N, history, baseHeight, b)
      ensures error == None ==> b.header.height == |history| - 1
    {
      hide Valid, NetworkOk, WindowOk, CheckpointsOk, HashInRam, HistoryOk;
      Basics();
      BaseBelowTip();
      TipIsLast();
      KnownHash(b.header.prevHash);
      if b.header.prevHash !in knownHashes.Values { return Some(ClassifyMiss(baseHeight, b.header.height)); }
      if b.header.height != Height() { return Some(ParentNotTip); }
      var hash := N.blockHash(b.header);
      if hash == None { return Some(NotEncodable); }
      error := if hash.value >= tip then Some(ParentNotTip) else None;
    }

    /** Weighs a whole branch and switches to it when it links up, respects every checkpoint from the fork
        point on, is better than the chain and replays. Anything else changes nothing. */
    method AdoptBranch(blocks: seq<Block>) returns (error: Option<ChainError>, adopted: bool)
      requires Valid()
      modifies this
      ensures Valid() && checkpoints == old(checkpoints) && finalized == old(finalized) && included == old(included)
      ensures adopted <==> Adoptable(N, old(history), old(baseHeight), checkpoints, finalized, blocks)
      ensures adopted ==> error == None && history == Branched(old(history), blocks[0].header.height - 1, blocks)
      ensures adopted ==>
                && (|history| > |old(history)| || (|history| == |old(history)| && tip < old(tip)))
                && KeepsCheckpoints(N, checkpoints, blocks[0].header.height - 1, history)
                && NoReplay(N, history) && Rooted()
      ensures adopted && old(IndexOk(N, history, included)) ==>
                StaleIndex.Covers(N, history, blocks[0].header.height - 1, |history|, included)
      ensures adopted && old(OnHistory(N, checkpoints, history)) ==> OnHistory(N, checkpoints, history)
      ensures !adopted ==> Snapshot() == old(Snapshot())
      ensures error == None && !adopted ==> blocks == [] || !Outweighs(N, old(history), blocks)
      ensures blocks != [] ==> var verdict := BranchVerdict(N, old(history), old(baseHeight), checkpoints, blocks);
                verdict.Some? || !Outweighs(N, old(history), blocks) ==> error == verdict
      ensures old(Rooted()) ==> Rooted()
    {
      hide *;
      Basics();
      BaseBelowTip();
      if blocks == [] {
        NothingAdopted(N, history, baseHeight, checkpoints, finalized);
        return None, false;
      }
      AdoptionChecks(N, history, baseHeight, checkpoints, finalized, blocks);
      var heavier;
      error, heavier := WeighBranch(blocks);
      adopted := false;
      if error == None && heavier {
        AdoptedMeans(N, history, baseHeight, checkpoints, finalized, blocks);
        HeavierIsNoShorter(N, history, blocks);
        SwitchCovers(N, history, blocks[0].header.height - 1, blocks, included);
        var expired;
        error, expired := ReorgToHeight(blocks[0].header.height - 1, blocks);
        adopted := error == None;
        if adopted { TipHash(); }
      }
    }

    static lemma HeavierIsNoShorter(N: Network, h: seq<Block>, blocks: seq<Block>)
      requires h != [] && Outweighs(N, h, blocks)
      ensures 0 < blocks[0].header.height <= |h| <= blocks[0].header.height + |blocks|
      ensures var g := Branched(h, blocks[0].header.height - 1, blocks);
              g != [] && (|g| > |h| || (|g| == |h| && HashOf(N, TipOf(g)) < HashOf(N, TipOf(h))))
    {
    }

    method WeighBranch(blocks: seq<Block>) returns (error: Option<ChainError>, heavier: bool)
      requires Valid() && blocks != []
      ensures error == BranchVerdict(N, history, baseHeight, checkpoints, blocks)
      ensures error == None ==> 0 < blocks[0].header.height <= |history| && heavier == Outweighs(N, history, blocks)
    {
      hide Valid, NetworkOk, WindowOk, CheckpointsOk, HistoryOk, KeepsCheckpoints, ChainBreak, BlockAt;
      Basics();
      BaseBelowTip();
      heavier := false;
      error := FindBreak(blocks);
      if error.Some? { return error, false; }
      var first := blocks[0].header;
      if first.height == 0 { return Some(BlockPruned(U64_MAX)), false; }
      var fork := first.height - 1;
      BlockAtIsHistory(fork);
      var base := BlockAt(fork);
      if base == None { return Some(BlockPruned(fork)), false; }
      if first.prevHash != HashOf(N, base.value) { return Some(UnknownParent), false; }
      var kept := CheckpointsKept(fork, base.value, blocks);
      if !kept { return Some(ContradictsCheckpoint), false; }
      var tipHash := N.blockHash(TipOf(blocks).header);
      if tipHash == None { return Some(NotEncodable), false; }
      TipIsLast();
      heavier := fork + |blocks| > Height() || (fork + |blocks| == Height() && tipHash.value < tip);
    }

    method FindBreak(blocks: seq<Block>) returns (error: Option<ChainError>)
      requires blocks != []
      ensures error == ChainBreak(N, blocks, 1)
    {
      var i := 1;
      while i < |blocks|
        invariant 1 <= i <= |blocks| && ChainBreak(N, blocks, i) == ChainBreak(N, blocks, 1)
      {
        var previous := N.blockHash(blocks[i - 1].header);
        if previous == None { return Some(NotEncodable); }
        if blocks[i].header.prevHash != previous.value { return Some(BranchDoesNotChain); }
        i := i + 1;
      }
      error := None;
    }

    /** Every checkpoint at or above the fork point has its block on the branch. */
    method CheckpointsKept(fork: U64, base: Block, blocks: seq<Block>) returns (kept: bool)
      requires fork < |history| && base == history[fork]
      ensures kept <==> KeepsCheckpoints(N, checkpoints, fork, Branched(history, fork, blocks))
    {
      ghost var target := Branched(history, fork, blocks);
      var i := 0;
      while i < |checkpoints|
        invariant 0 <= i <= |checkpoints|
        invariant forall cp :: cp in checkpoints[..i] && cp.data.height >= fork ==> Placed(N, cp, target)
      {
        var cp := checkpoints[i];
        if cp.data.height >= fork {
          var at := if cp.data.height == fork then Some(base)
                    else if cp.data.height - fork - 1 < |blocks| then Some(blocks[cp.data.height - fork - 1])
                    else None;
          assert at == if cp.data.height < |target| then Some(target[cp.data.height]) else None;
          if at == None || N.blockHash(at.value.header) != Some(cp.data.blockHash) {
            assert cp in checkpoints && !Placed(N, cp, target);
            return false;
          }
        }
        i := i + 1;
      }
      assert checkpoints[..i] == checkpoints;
      kept := true;
    }

    // ----- finality -----

    method Committee(recovery: nat) returns (committee: seq<PublicKey>)
      requires Valid()
      ensures Elected(N, finalized, LedgerAt(N, history), recovery, committee)
    {
      hide CS.ChainState.Ready, WindowOk, IsCommittee, InPool, LedgerAt, CheckpointsOk;
      if finalized == None {
        if recovery != 0 { return []; }
        var pool := state.EligibleValidators();
        PoolListed(state.View(), pool);
        committee := SelectCommittee(N.rules.crypto, BootstrapSeed(N), pool, N.committeeSize);
      } else {
        committee := SelectCommittee(N.rules.crypto, CommitteeSeed(N, finalized, recovery), finalized.value.pool,
            N.committeeSize);
      }
    }

    /** Timestamp of a block in RAM, or zero. */
    function TimeAt(height: U64): U64
      reads this`baseHeight, this`canonical
    {
      if BlockAt(height).Some? then BlockAt(height).value.header.timestamp else 0
    }

    /** That is the timestamp of the block of the history at that height, as long as the window holds it. */
    lemma TimeAtIsHistory(height: U64)
      requires WindowOk()
      ensures TimeAt(height) ==
              if height < |history| && (height == 0 || baseHeight <= height) then history[height].header.timestamp else 0
    {
      BlockAtIsHistory(height);
    }

    /** Consensus time since the last finalized checkpoint. */
    function Elapsed(): nat
      requires canonical != []
      reads this
    {
      if checkpoints == [] then 0
      else SaturatingSub(canonical[|canonical| - 1].header.timestamp, TimeAt(checkpoints[|checkpoints| - 1].data.height))
    }

    ghost function StateRootNow(): Word32
      reads this, state
    {
      StateRootOf(N.hasher, N.leafHash, N.topHash, Leaves(state.domains, state.tlds))
    }

    /** The verdict on a checkpoint, given the committee of its recovery round. */
    ghost function CheckpointVerdict(committee: seq<PublicKey>, cp: Checkpoint): Option<ChainError>
      requires canonical != []
      reads this, state
    {
      if !CheckpointDataOk(N, checkpoints, Height(), Elapsed(), cp.data) then Some(InvalidCheckpoint)
      else if |committee| < MIN_FINALITY_COMMITTEE_SIZE then Some(CommitteeBelowFloor)
      else if !HasQuorum(N.rules.crypto, cp, committee, QuorumFor(|committee|)) then Some(QuorumNotMet)
      else if cp.data.height == Height() && cp.data.stateRoot != StateRootNow() then Some(StateRootMismatch)
      else None
    }

    /** The content rules, told by the history: the height is one of ours, the checkpoint follows the last one, and a
        recovery round is within its limit and due by the clock of the chain. */
    lemma ContentPasses(d: CheckpointData)
      requires WindowOk() && history != [] && canonical != []
      ensures CheckpointDataOk(N, checkpoints, Height(), Elapsed(), d) <==>
                && 0 < d.height < |history|
                && if checkpoints == [] then d.epoch == 0 && d.prevCheckpointHash == 0
                   else
                     var last := checkpoints[|checkpoints| - 1];
                     var held := last.data.height < |history| && (last.data.height == 0 || baseHeight <= last.data.height);
                     var since := if held then history[last.data.height].header.timestamp else 0;
                     && d.epoch == last.data.epoch + 1 && d.prevCheckpointHash == N.rules.crypto.checkpointHash(last)
                     && d.height > last.data.height && d.recovery <= N.recoveryMax
                     && (d.recovery > 0 ==>
                           d.recovery * N.epochSecs <= SaturatingSub(history[|history| - 1].header.timestamp, since))
    {
      hide HistoryOk, HashesOk, WindowOf, BlockAt;
      TipIsLast();
      if checkpoints != [] { TimeAtIsHistory(checkpoints[|checkpoints| - 1].data.height); }
      assert canonical[|canonical| - 1] == TipOf(history);
    }

    /** What a checkpoint needs beyond its content, and that every verdict names what is missing: more than two thirds
        of a committee of at least four signed it, and at the tip its state root is ours. */
    lemma CheckpointPasses(committee: seq<PublicKey>, cp: Checkpoint)
      requires canonical != []
      ensures var (v, content) := (CheckpointVerdict(committee, cp),
                  CheckpointDataOk(N, checkpoints, Height(), Elapsed(), cp.data));
              var signed := |Signers(N.rules.crypto, cp, committee, |cp.signatures|)|;
              var root := StateRootOf(N.hasher, N.leafHash, N.topHash, Leaves(state.domains, state.tlds));
              && (v == Some(InvalidCheckpoint) <==> !content)
              && (v == Some(CommitteeBelowFloor) ==> |committee| < 4)
              && (v == Some(QuorumNotMet) ==> 3 * signed <= 2 * |committee|)
              && (v == Some(StateRootMismatch) ==> cp.data.height == Height() && cp.data.stateRoot != root)
              && (v == None <==>
                    && content && |committee| >= 4 && 3 * signed > 2 * |committee|
                    && (cp.data.height == Height() ==> cp.data.stateRoot == root))
    {
      hide Signers, StateRootOf, Leaves, BlockAt, CheckpointDataOk;
      QuorumBounds(|committee|);
    }

    method VetCheckpoint(cp: Checkpoint) returns (error: Option<ChainError>, committee: seq<PublicKey>)
      requires Valid() && canonical != []
      ensures Elected(N, finalized, LedgerAt(N, history), cp.data.recovery, committee)
      ensures error == CheckpointVerdict(committee, cp)
    {
      hide CS.ChainState.Ready, WindowOk, LedgerAt, Elected, HasQuorum, CheckpointDataOk, CheckpointsOk, BlockAt;
      committee := Committee(cp.data.recovery);
      if !CheckpointDataOk(N, checkpoints, Height(), Elapsed(), cp.data) { return Some(InvalidCheckpoint), committee; }
      if |committee| < MIN_FINALITY_COMMITTEE_SIZE { return Some(CommitteeBelowFloor), committee; }
      var quorate := VerifyQuorum(N.rules.crypto, cp, committee, QuorumFor(|committee|));
      if !quorate { return Some(QuorumNotMet), committee; }
      if cp.data.height == Height() {
        var root := StateRootSmt(state, N.topHash);
        if cp.data.stateRoot != root { return Some(StateRootMismatch), committee; }
      }
      error := None;
    }

    lemma VerdictMeans(committee: seq<PublicKey>, cp: Checkpoint)
      requires canonical != [] && CheckpointVerdict(committee, cp) == None
      ensures CheckpointDataOk(N, checkpoints, Height(), Elapsed(), cp.data) && Certified(N, committee, cp)
    {
    }

    lemma RoundIsDue(committee: seq<PublicKey>, cp: Checkpoint)
      requires WindowOk() && canonical != [] && canonical[|canonical| - 1] == TipOf(history) && Height() == |history| - 1
      requires CheckpointsOk(N.rules.crypto, checkpoints, finalized) && history != []
      requires CheckpointDataOk(N, checkpoints, Height(), Elapsed(), cp.data) && Certified(N, committee, cp)
      requires Elected(N, finalized, LedgerAt(N, history), cp.data.recovery, committee)
      ensures 0 < cp.data.height < |history|
      ensures Rooted() ==> baseHeight <= cp.data.height && cp.data.height > if checkpoints == [] then 0
          else checkpoints[|checkpoints| - 1].data.height
      ensures cp.data.recovery > 0 ==>
                && checkpoints != [] && cp.data.recovery <= N.recoveryMax
                && cp.data.recovery * N.epochSecs <=
                   SaturatingSub(TipOf(history).header.timestamp, TimeAt(checkpoints[|checkpoints| - 1].data.height))
    {
      hide WindowOk, LedgerAt, IsCommittee, HasQuorum, BlockAt;
    }

    /** Accepts a finalized checkpoint: content rules, committee floor, quorum, state root when it is at the tip.
        It then becomes the base of the next epoch, with the pool of eligible keys frozen. */
    method AcceptCheckpoint(cp: Checkpoint) returns (error: Option<ChainError>, isNew: bool, ghost committee: seq<PublicKey>)
      requires Valid()
      modifies this`checkpoints, this`finalized
      ensures Valid() && canonical != []
      ensures Elected(N, old(finalized), LedgerAt(N, history), cp.data.recovery, committee)
      ensures error == old(CheckpointVerdict(committee, cp))
      ensures isNew <==>
                && error == None
                && var (hash, n) := (N.rules.crypto.checkpointHash, |old(checkpoints)|);
                   n == 0 || hash(old(checkpoints)[n - 1]) != hash(cp)
      ensures !isNew ==> checkpoints == old(checkpoints) && finalized == old(finalized)
      ensures isNew ==>
                && Certified(N, committee, cp)
                && checkpoints == Windowed(old(checkpoints), cp) && finalized.Some?
                && var base := finalized.value;
                   && base.checkpoint == cp && base.seed == N.rules.crypto.nextSeed(N.rules.crypto.checkpointHash(cp))
                   && 0 < cp.data.height < |history|
                   && base.blockTs ==
                      (if baseHeight <= cp.data.height then history[cp.data.height].header.timestamp else 0)
                   && SetOf(base.pool) == Pool(LedgerAt(N, history))
                   && (cp.data.height == |history| - 1 ==>
                         SetOf(base.pool) == Pool(LedgerAt(N, history[..cp.data.height + 1])))
      ensures isNew && old(Rooted()) ==> baseHeight <= cp.data.height
      ensures old(Rooted()) ==> Rooted()
      ensures isNew ==> cp.data.epoch == NextEpoch(old(finalized))
      ensures isNew && cp.data.recovery > 0 ==>
                && old(checkpoints) != [] && cp.data.recovery <= N.recoveryMax
                && var last := old(checkpoints)[|old(checkpoints)| - 1].data;
                   cp.data.recovery * N.epochSecs <= SaturatingSub(TipOf(history).header.timestamp, TimeAt(last.height))
      ensures isNew && old(OnHistory(N, checkpoints, history)) ==>
                (OnHistory(N, checkpoints, history) <==> Placed(N, cp, history))
    {
      hide WindowOk, StateOk, LedgerAt, Elected, CheckpointVerdict, CheckpointDataOk, CheckpointsOk, Certified,
          OnHistory, Placed, BlockAt, Windowed;
      Basics();
      TipIsLast();
      isNew := false;
      var elected;
      error, elected := VetCheckpoint(cp);
      committee := elected;
      if error.Some? || Duplicate(N, checkpoints, cp) { return; }
      VerdictMeans(elected, cp);
      RoundIsDue(elected, cp);
      if OnHistory(N, checkpoints, history) { NewestPlaced(N, checkpoints, cp, history); }
      NextEpochMeans(N, checkpoints, finalized, Height(), Elapsed(), cp.data);
      assert cp.data.height == |history| - 1 ==> history[..cp.data.height + 1] == history;
      FreezeBase(cp);
      isNew := true;
    }

    /** The checkpoint becomes the base of the next epoch. */
    method FreezeBase(cp: Checkpoint)
      requires Valid() && canonical != [] && CheckpointDataOk(N, checkpoints, Height(), Elapsed(), cp.data)
      modifies this`checkpoints, this`finalized
      ensures Valid() && checkpoints == Windowed(old(checkpoints), cp) && finalized.Some?
      ensures var base := finalized.value;
              && base.checkpoint == cp && base.seed == N.rules.crypto.nextSeed(N.rules.crypto.checkpointHash(cp))
              && base.blockTs == TimeAt(cp.data.height) && SetOf(base.pool) == Pool(LedgerAt(N, history))
      ensures 0 < cp.data.height < |history| ==>
                finalized.value.blockTs ==
                (if baseHeight <= cp.data.height then history[cp.data.height].header.timestamp else 0)
    {
      hide WindowOk, StateOk, LedgerAt, CheckpointDataOk, CheckpointsOk, BlockAt, Windowed;
      Basics();
      TimeAtIsHistory(cp.data.height);
      var pool := FrozenPool();
      var base := FinalizedBase(cp, pool, TimeAt(cp.data.height), N.rules.crypto.nextSeed(N.rules.crypto.checkpointHash(cp)));
      NewCheckpointFits(N, checkpoints, finalized, Height(), Elapsed(), base);
      finalized := Some(base);
      checkpoints := Windowed(checkpoints, cp);
    }

    method FrozenPool() returns (pool: seq<PublicKey>)
      requires Valid()
      ensures SetOf(pool) == Pool(LedgerAt(N, history))
    {
      hide CS.ChainState.Ready, WindowOk, InPool, LedgerAt;
      pool := state.EligibleValidators();
      PoolListed(state.View(), pool);
    }

    static lemma NextEpochMeans(N: Network, cps: seq<Checkpoint>, fin: Option<FinalizedBase>, tipHeight: U64, elapsed: nat,
        d: CheckpointData)
      requires CheckpointsOk(N.rules.crypto, cps, fin) && CheckpointDataOk(N, cps, tipHeight, elapsed, d)
      ensures d.epoch == NextEpoch(fin)
    {
    }

    /** The checkpoint this node would propose: the tip, once enough blocks have passed. */
    method ProposeCheckpoint() returns (proposal: Option<CheckpointData>)
      requires Valid()
      ensures canonical != []
      ensures var last := if checkpoints == [] then 0 else checkpoints[|checkpoints| - 1].data.height;
              proposal.Some? <==> Height() > last && Height() - last >= N.epochMinBlocks
      ensures proposal.Some? ==>
                var d := proposal.value;
                && d.recovery == 0 && d.height == Height() && d.stateRoot == StateRootNow()
                && CheckpointDataOk(N, checkpoints, Height(), Elapsed(), d)
                && Placed(N, Checkpoint(d, []), history)
    {
      hide CS.ChainState.Ready, WindowOk, LedgerAt, CheckpointDataOk, Placed, HistoryOk, CheckpointsOk, BlockAt;
      Basics();
      TipIsLast();
      var last := if checkpoints == [] then 0 else checkpoints[|checkpoints| - 1].data.height;
      if Height() <= last || Height() - last < N.epochMinBlocks { return None; }
      EpochFits(N.rules.crypto, checkpoints, finalized);
      var root := StateRootSmt(state, N.topHash);
      var epoch := if checkpoints == [] then 0 else checkpoints[|checkpoints| - 1].data.epoch + 1;
      var prev := if checkpoints == [] then GENESIS_CHECKPOINT_HASH else N.rules.crypto.checkpointHash(checkpoints[|checkpoints| - 1]);
      var d := CheckpointData(epoch, Height(), HashOf(N, canonical[|canonical| - 1]), prev, root, 0);
      ProposalFits(d);
      proposal := Some(d);
    }

    lemma ProposalFits(d: CheckpointData)
      requires WindowOk() && canonical != [] && Height() == |history| - 1 && canonical[|canonical| - 1] == TipOf(history)
      requires d.height == Height() && d.recovery == 0 && d.blockHash == HashOf(N, TipOf(history))
      requires Height() > if checkpoints == [] then 0 else checkpoints[|checkpoints| - 1].data.height
      requires d.epoch == if checkpoints == [] then 0 else checkpoints[|checkpoints| - 1].data.epoch + 1
      requires d.prevCheckpointHash == if checkpoints == [] then GENESIS_CHECKPOINT_HASH
                                       else N.rules.crypto.checkpointHash(checkpoints[|checkpoints| - 1])
      ensures CheckpointDataOk(N, checkpoints, Height(), Elapsed(), d) && Placed(N, Checkpoint(d, []), history)
    {
      assert LinkOk(N, history, |history| - 1);
    }

    static lemma EpochFits(c: Crypto, cps: seq<Checkpoint>, fin: Option<FinalizedBase>)
      requires CheckpointsOk(c, cps, fin)
      ensures cps != [] ==> cps[|cps| - 1].data.epoch < U64_MAX
    {
    }
  }
}
