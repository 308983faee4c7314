/** Committees drawn from a frozen pool, who may produce a block when, and the chain of finalized
    checkpoints (crates/scone-blockchain/src/finality.rs). */
module Finality {
  import opened Prelude
  import opened Checkpoints
  import opened Ledger
  import opened Quorum
  import opened Blocks

  const CHECKPOINT_KEEP: nat := 64

  /** What one finalized checkpoint freezes for the next epoch. */
  datatype FinalizedBase = FinalizedBase(checkpoint: Checkpoint, pool: seq<PublicKey>, blockTs: U64, seed: Word32)

  // ----- draws -----

  ghost function Ahead(c: Crypto, seed: Word32, pool: set<PublicKey>, k: PublicKey): set<PublicKey> {
    set m | m in pool && Precedes(c, seed, m, k)
  }

  /** k is drawn: it is eligible and fewer than `size` eligible keys rank before it. */
  ghost predicate Drawn(c: Crypto, seed: Word32, pool: set<PublicKey>, size: nat, k: PublicKey) {
    k in pool && |Ahead(c, seed, pool, k)| < size
  }

  /** The selected committee is exactly the set of drawn keys. */
  lemma CommitteeIsDrawn(c: Crypto, seed: Word32, pool: set<PublicKey>, size: nat, committee: seq<PublicKey>, k: PublicKey)
    requires IsCommittee(c, seed, pool, size, committee)
    ensures k in committee <==> Drawn(c, seed, pool, size, k)
  {
    if k in committee {
      var i :| 0 <= i < |committee| && committee[i] == k;
      var before := committee[..i];
      DistinctSize(before);
      forall m | m in Ahead(c, seed, pool, k) ensures m in SetOf(before) {
        if m !in committee {
          OutsiderRanksAfter(c, seed, pool, size, committee, k, m);
        } else {
          var j :| 0 <= j < |committee| && committee[j] == m;
          assert before[j] == m;
        }
      }
      SubsetSize(Ahead(c, seed, pool, k), SetOf(before));
    } else if k in pool {
      assert |committee| == size;
      DistinctSize(committee);
      SubsetSize(SetOf(committee), Ahead(c, seed, pool, k));
    }
  }

  lemma OutsiderRanksAfter(c: Crypto, seed: Word32, pool: set<PublicKey>, size: nat, committee: seq<PublicKey>,
      k: PublicKey, m: PublicKey)
    requires IsCommittee(c, seed, pool, size, committee) && k in committee && m in pool && m !in committee
    ensures !Precedes(c, seed, m, k)
  {
    assert Precedes(c, seed, k, m);
  }

  /** Somebody is drawn from every non-empty pool. */
  lemma {:induction false} SomeoneDrawn(c: Crypto, seed: Word32, pool: set<PublicKey>, size: nat)
    requires pool != {} && size > 0
    ensures exists k :: Drawn(c, seed, pool, size, k)
  {
    var first := FirstOf(c, seed, pool);
    assert Ahead(c, seed, pool, first) == {};
    assert Drawn(c, seed, pool, size, first);
  }

  lemma {:induction false} FirstOf(c: Crypto, seed: Word32, pool: set<PublicKey>) returns (first: PublicKey)
    requires pool != {}
    ensures first in pool && forall k :: k in pool && k != first ==> Precedes(c, seed, first, k)
  {
    first :| first in pool;
    if pool != {first} {
      var other := FirstOf(c, seed, pool - {first});
      var best := if Precedes(c, seed, other, first) then other else first;
      forall k | k in pool && k != best ensures Precedes(c, seed, best, k) {
        assert k == first || k == other || Precedes(c, seed, other, k);
      }
      first := best;
    }
  }

  // ----- producers -----

  /** The owners' keys a ledger makes eligible. */
  ghost function Pool(l: Ledger): set<PublicKey> {
    set k | k in l.ownerKeys.Values && InPool(l, k)
  }

  lemma PoolIsInPool(l: Ledger, k: PublicKey)
    ensures k in Pool(l) <==> InPool(l, k)
  {
    if InPool(l, k) {
      var o :| o in l.ownerKeys && l.ownerKeys[o] == k && Owns(l, o);
      assert k in l.ownerKeys.Values;
    }
  }

  function BootstrapSeed(N: Network): Word32 {
    var h := N.blockHash(N.genesis.header);
    N.rules.crypto.nextSeed(if h.Some? then h.value else 0)
  }

  /** A recovery draw of the frozen base whose delay has passed. */
  ghost predicate Recovered(N: Network, base: FinalizedBase, ts: U64, r: nat, k: PublicKey) {
    && 1 <= r <= N.recoveryMax
    && SaturatingSub(ts, base.blockTs) >= r * N.epochSecs
    && Drawn(N.rules.crypto, N.rules.crypto.recoverySeed(base.seed, r), SetOf(base.pool), N.committeeSize, k)
  }

  /** Who is in the allowed set of a block dated ts: before finality the draw over the live pool, afterwards
      the draw over the frozen pool and every recovery draw that is due. */
  ghost predicate Allowed(N: Network, fin: Option<FinalizedBase>, l: Ledger, ts: U64, k: PublicKey) {
    match fin
    case None => Drawn(N.rules.crypto, BootstrapSeed(N), Pool(l), N.committeeSize, k)
    case Some(base) =>
      || Drawn(N.rules.crypto, base.seed, SetOf(base.pool), N.committeeSize, k)
      || exists r :: Recovered(N, base, ts, r, k)
  }

  /** An empty allowed set leaves production open. */
  ghost predicate ProducerOk(N: Network, fin: Option<FinalizedBase>, l: Ledger, header: Header) {
    && N.producerOf(header).Some?
    && ((forall k :: !Allowed(N, fin, l, header.timestamp, k))
        || Allowed(N, fin, l, header.timestamp, N.producerOf(header).value))
  }

  lemma ProducerVerdict(N: Network, fin: Option<FinalizedBase>, l: Ledger, header: Header, allowed: set<PublicKey>)
    requires N.producerOf(header).Some?
    requires forall k :: k in allowed <==> Allowed(N, fin, l, header.timestamp, k)
    ensures ProducerOk(N, fin, l, header) <==> allowed == {} || N.producerOf(header).value in allowed
  {
  }

  lemma NoProducer(N: Network, fin: Option<FinalizedBase>, l: Ledger, header: Header)
    requires N.producerOf(header) == None
    ensures !ProducerOk(N, fin, l, header)
  {
  }

  /** For a fixed base the allowed set only grows with block time. */
  lemma AllowedGrows(N: Network, base: FinalizedBase, l: Ledger, l': Ledger, ts: U64, ts': U64, k: PublicKey)
    requires ts <= ts' && Allowed(N, Some(base), l, ts, k)
    ensures Allowed(N, Some(base), l', ts', k)
  {
    if !Drawn(N.rules.crypto, base.seed, SetOf(base.pool), N.committeeSize, k) {
      var r :| Recovered(N, base, ts, r, k);
      assert Recovered(N, base, ts', r, k);
    }
  }

  /** So a producer that may sign a block now may sign one dated later, whatever happened to the ledger:
      an open set stays open, because a base whose draw is empty has an empty pool. */
  lemma ProducerStaysOk(N: Network, base: FinalizedBase, l: Ledger, l': Ledger, header: Header, header': Header)
    requires ProducerOk(N, Some(base), l, header) && header.timestamp <= header'.timestamp
    requires N.producerOf(header') == N.producerOf(header)
    ensures ProducerOk(N, Some(base), l', header')
  {
    var pool := SetOf(base.pool);
    if Allowed(N, Some(base), l, header.timestamp, N.producerOf(header).value) {
      AllowedGrows(N, base, l, l', header.timestamp, header'.timestamp, N.producerOf(header).value);
    } else if pool != {} && N.committeeSize > 0 {
      SomeoneDrawn(N.rules.crypto, base.seed, pool, N.committeeSize);
      var k :| Drawn(N.rules.crypto, base.seed, pool, N.committeeSize, k);
      assert Allowed(N, Some(base), l, header.timestamp, k);
    } else {
      forall k ensures !Allowed(N, Some(base), l', header'.timestamp, k) {
      }
    }
  }

  // ----- committees -----

  /** The draw that decides checkpoint `recovery` of the next epoch. */
  function CommitteeSeed(N: Network, fin: Option<FinalizedBase>, recovery: nat): Word32 {
    if fin == None then BootstrapSeed(N)
    else if recovery == 0 then fin.value.seed
    else N.rules.crypto.recoverySeed(fin.value.seed, recovery)
  }

  ghost function CommitteePool(fin: Option<FinalizedBase>, l: Ledger): set<PublicKey> {
    if fin == None then Pool(l) else SetOf(fin.value.pool)
  }

  /** Before finality there is no recovery committee; otherwise the first keys of the draw. */
  ghost predicate Elected(N: Network, fin: Option<FinalizedBase>, l: Ledger, recovery: nat, committee: seq<PublicKey>) {
    if fin == None && recovery != 0 then committee == []
    else IsCommittee(N.rules.crypto, CommitteeSeed(N, fin, recovery), CommitteePool(fin, l), N.committeeSize, committee)
  }

  /** Nodes with the same base and the same ledger elect the same committee. */
  lemma ElectedUnique(N: Network, fin: Option<FinalizedBase>, l: Ledger, recovery: nat, a: seq<PublicKey>, b: seq<PublicKey>)
    requires Elected(N, fin, l, recovery, a) && Elected(N, fin, l, recovery, b)
    ensures a == b
  {
    hide IsCommittee;
    if !(fin == None && recovery != 0) {
      CommitteeUnique(N.rules.crypto, CommitteeSeed(N, fin, recovery), CommitteePool(fin, l), N.committeeSize, a, b);
    }
  }

  /** The certificate is signed by a quorum of a committee that is large enough. */
  ghost predicate Certified(N: Network, committee: seq<PublicKey>, cp: Checkpoint) {
    && |committee| >= MIN_FINALITY_COMMITTEE_SIZE
    && HasQuorum(N.rules.crypto, cp, committee, QuorumFor(|committee|))
  }

  // ----- the chain of checkpoints -----

  /** b follows a: next epoch, linked by hash, higher. */
  ghost predicate Follows(c: Crypto, a: Checkpoint, b: Checkpoint) {
    && b.data.epoch == a.data.epoch + 1
    && b.data.prevCheckpointHash == c.checkpointHash(a)
    && b.data.height > a.data.height
  }

  /** The window of finalized checkpoints and the base frozen at the last of them. */
  ghost predicate CheckpointsOk(c: Crypto, cps: seq<Checkpoint>, fin: Option<FinalizedBase>) {
    && |cps| <= CHECKPOINT_KEEP
    && (forall i :: 0 <= i < |cps| - 1 ==> Follows(c, cps[i], cps[i + 1]))
    && (forall i :: 0 <= i < |cps| ==> cps[i].data.epoch < cps[i].data.height)
    && (cps == [] <==> fin == None)
    && (fin.Some? ==>
          && fin.value.checkpoint == cps[|cps| - 1]
          && fin.value.seed == c.nextSeed(c.checkpointHash(cps[|cps| - 1])))
  }

  function Windowed(cps: seq<Checkpoint>, cp: Checkpoint): (r: seq<Checkpoint>)
    ensures 0 < |r| && r[|r| - 1] == cp
  {
    var all := cps + [cp];
    all[SaturatingSub(|all|, CHECKPOINT_KEEP)..]
  }

  /** The newest checkpoints, at most 64, in their order. */
  lemma WindowedKeeps(cps: seq<Checkpoint>, cp: Checkpoint)
    ensures var (r, all) := (Windowed(cps, cp), cps + [cp]);
            |r| == Min(64, |all|) && forall i :: 0 <= i < |r| ==> r[i] == all[|all| - |r| + i]
  {
  }

  lemma CheckpointsGrow(c: Crypto, cps: seq<Checkpoint>, fin: Option<FinalizedBase>, base: FinalizedBase)
    requires CheckpointsOk(c, cps, fin)
    requires var d := base.checkpoint.data;
             if cps == [] then d.epoch == 0 && d.height > 0 else Follows(c, cps[|cps| - 1], base.checkpoint)
    requires base.seed == c.nextSeed(c.checkpointHash(base.checkpoint))
    ensures CheckpointsOk(c, Windowed(cps, base.checkpoint), Some(base))
  {
  }

  /** Later in the window is higher, by at least one block an epoch. */
  lemma {:induction false} CheckpointHeightsRise(c: Crypto, cps: seq<Checkpoint>, fin: Option<FinalizedBase>, i: nat, j: nat)
    requires CheckpointsOk(c, cps, fin) && i <= j < |cps|
    ensures cps[j].data.epoch == cps[i].data.epoch + (j - i) && cps[j].data.height >= cps[i].data.height + (j - i)
  {
    if i < j { CheckpointHeightsRise(c, cps, fin, i, j - 1); assert Follows(c, cps[j - 1], cps[j]); }
  }

  /** The content rules of a new checkpoint, read against a chain whose tip is at tipHeight and whose
      clock shows `elapsed` seconds since the last checkpoint. */
  predicate CheckpointDataOk(N: Network, cps: seq<Checkpoint>, tipHeight: U64, elapsed: nat, d: CheckpointData) {
    && 0 < d.height <= tipHeight
    && if cps == [] then d.epoch == 0 && d.prevCheckpointHash == GENESIS_CHECKPOINT_HASH
       else
         var last := cps[|cps| - 1];
         && d.epoch == last.data.epoch + 1
         && d.prevCheckpointHash == N.rules.crypto.checkpointHash(last)
         && d.height > last.data.height
         && d.recovery <= N.recoveryMax
         && (d.recovery >= 1 ==> elapsed >= d.recovery * N.epochSecs)
  }

  /** Nothing is asked about the block hash: whatever a checkpoint names at its height passes or fails alike. */
  lemma BlockHashIsNotAsked(N: Network, cps: seq<Checkpoint>, tipHeight: U64, elapsed: nat, d: CheckpointData, other: Word32)
    ensures CheckpointDataOk(N, cps, tipHeight, elapsed, d) <==>
            CheckpointDataOk(N, cps, tipHeight, elapsed, d.(blockHash := other))
  {
  }

  function NextEpoch(fin: Option<FinalizedBase>): nat {
    if fin == None then 0 else fin.value.checkpoint.data.epoch + 1
  }

  /** The hash of the last finalized checkpoint again. */
  predicate Duplicate(N: Network, cps: seq<Checkpoint>, cp: Checkpoint) {
    cps != [] && N.rules.crypto.checkpointHash(cps[|cps| - 1]) == N.rules.crypto.checkpointHash(cp)
  }

  /** The last finalized checkpoint offered again never passes the content rules: the epoch rule refuses it
      before the duplicate rule is asked. */
  lemma DuplicateFailsEpochRule(N: Network, cps: seq<Checkpoint>, tipHeight: U64, elapsed: nat)
    requires cps != []
    ensures !CheckpointDataOk(N, cps, tipHeight, elapsed, cps[|cps| - 1].data)
  {
  }

  /** A checkpoint that passes the content rules extends the chain of checkpoints. */
  lemma NewCheckpointFits(N: Network, cps: seq<Checkpoint>, fin: Option<FinalizedBase>, tipHeight: U64, elapsed: nat,
      base: FinalizedBase)
    requires CheckpointsOk(N.rules.crypto, cps, fin) && CheckpointDataOk(N, cps, tipHeight, elapsed, base.checkpoint.data)
    requires base.seed == N.rules.crypto.nextSeed(N.rules.crypto.checkpointHash(base.checkpoint))
    ensures CheckpointsOk(N.rules.crypto, Windowed(cps, base.checkpoint), Some(base))
  {
    CheckpointsGrow(N.rules.crypto, cps, fin, base);
  }
}
