/** What acceptance of a block, a branch or a producer means, rule by rule, over whole chains
    (crates/scone-blockchain/src/chain.rs, fork_choice.rs, finality.rs). */
module Acceptance {
  import opened Prelude
  import opened Checkpoints
  import opened Ledger
  import opened Quorum
  import opened Blocks
  import opened Finality
  import opened History
  import opened ForkChoice

  // ----- one block -----

  /** A block on the tip is accepted exactly when it keeps all of these. */
  lemma AcceptedBlock(N: Network, h: seq<Block>, base: nat, fin: Option<FinalizedBase>, replayed: bool, b: Block)
    requires NetworkOk(N) && HistoryOk(N, h) && base < |h|
    ensures PushVerdict(N, h, base, fin, replayed, b) == None <==>
              && b.header.prevHash == HashOf(N, TipOf(h)) && b.header.height == |h|
              && b.header.version == N.version && |b.transactions| <= N.maxTxs
              && N.txRootOf(b.transactions) == Some(b.header.txRoot)
              && !replayed && N.blockHash(b.header).Some? && N.headerOk(b.header)
              && N.producerOf(b.header).Some?
              && ((forall k :: !Allowed(N, fin, LedgerAt(N, h), b.header.timestamp, k))
                  || Allowed(N, fin, LedgerAt(N, h), b.header.timestamp, N.producerOf(b.header).value))
              && var now := TipOf(h).header.timestamp;
                 StepAll(N.rules, Gc(LedgerAt(N, h), now), b.transactions, now).error == None
  {
    hide HistoryOk, LedgerAt, StepAll, Gc, Allowed, HashInRam, NetworkOk;
  }

  /** Every refusal names a cause that is there. */
  lemma RefusedBlock(N: Network, h: seq<Block>, base: nat, fin: Option<FinalizedBase>, replayed: bool, b: Block)
    requires h != [] && PushVerdict(N, h, base, fin, replayed, b).Some?
    ensures match PushVerdict(N, h, base, fin, replayed, b).value
            case ParentNotTip =>
              && b.header.prevHash != HashOf(N, TipOf(h))
              && exists k: nat :: k < |h| && (k == 0 || base <= k) && HashOf(N, h[k]) == b.header.prevHash
            case BlockPruned(p) => b.header.height == p + 1 && 1 <= p < base
            case UnknownParent =>
              && (b.header.height < 2 || base < b.header.height)
              && forall k: nat :: k < |h| && (k == 0 || base <= k) ==> HashOf(N, h[k]) != b.header.prevHash
            case InvalidHeight(expected, got) =>
              got == b.header.height && got != |h| && expected == if |h| <= U64_MAX then |h| else U64_MAX
            case InvalidVersion(v) => v == b.header.version != N.version
            case TooManyTransactions(n) => n == |b.transactions| > N.maxTxs
            case MerkleMismatch => N.txRootOf(b.transactions).Some? && N.txRootOf(b.transactions) != Some(b.header.txRoot)
            case NotEncodable => N.txRootOf(b.transactions) == None || N.blockHash(b.header) == None
            case TxReplay => replayed
            case HeaderRejected => !N.headerOk(b.header)
            case InvalidProducer => !ProducerOk(N, fin, LedgerAt(N, h), b.header)
            case Refused(e) =>
              var now := TipOf(h).header.timestamp;
              StepAll(N.rules, Gc(LedgerAt(N, h), now), b.transactions, now).error == Some(e)
            case _ => false
  {
    hide LedgerAt, StepAll, Gc, ProducerOk, HashInRam;
    HeldMeans(N, h, base, b.header.prevHash);
  }

  lemma HeldMeans(N: Network, h: seq<Block>, base: nat, hash: Word32)
    ensures HashInRam(N, h, base, hash) <==> exists k: nat :: k < |h| && (k == 0 || base <= k) && HashOf(N, h[k]) == hash
  {
    if HashInRam(N, h, base, hash) {
      var k: nat :| k < |h| && InRam(base, |h|, k) && HashOf(N, h[k]) == hash;
    }
    forall k: nat | k < |h| && (k == 0 || base <= k) && HashOf(N, h[k]) == hash ensures HashInRam(N, h, base, hash) {
      assert InRam(base, |h|, k);
    }
  }

  /** A producer is refused without a signature that verifies, or outside an allowed set that is not empty. */
  lemma RefusedProducer(N: Network, fin: Option<FinalizedBase>, l: Ledger, header: Header)
    ensures !ProducerOk(N, fin, l, header) <==>
              || N.producerOf(header) == None
              || (!Allowed(N, fin, l, header.timestamp, N.producerOf(header).value)
                  && exists k :: Allowed(N, fin, l, header.timestamp, k))
  {
    hide Allowed;
  }

  /** What an expiry pass reports: exactly the names due at the parent's time, by expiry and then by id. */
  lemma ReportedExpiry(N: Network, h: seq<Block>, expired: seq<DomainId>)
    requires h != [] && GcOf(N, h, expired)
    ensures var (l, now) := (LedgerAt(N, h), h[|h| - 1].header.timestamp);
            && (forall d :: d in expired <==> d in l.domains && l.domains[d].validUntil <= now)
            && forall i, j :: 0 <= i < j < |expired| ==>
                 && expired[i] in l.domains && expired[j] in l.domains
                 && var (x, y) := (l.domains[expired[i]].validUntil, l.domains[expired[j]].validUntil);
                    x < y || (x == y && expired[i] < expired[j])
  {
    hide LedgerAt;
    var l, now := LedgerAt(N, h), h[|h| - 1].header.timestamp;
    forall d ensures d in expired <==> d in l.domains && l.domains[d].validUntil <= now {
      assert d in Elems(expired) <==> d in Expired(l, now);
    }
  }

  // ----- whole chains -----

  /** What every block of a chain that replays carries, and what suffices for it to replay one block further: the
      parent's hash, the height, this version, a bounded list of transactions under their own root, no id of the 256
      blocks before, an encoding, a valid header, an allowed producer, and transactions accepted where they stand. */
  lemma ReplaysExactly(N: Network, fin: Option<FinalizedBase>, h: seq<Block>, n: nat)
    requires 0 < n < |h|
    ensures Replays(N, fin, h[..1]) <==> h[0] == N.genesis
    ensures Replays(N, fin, h[..n + 1]) <==>
              && Replays(N, fin, h[..n])
              && h[n].header.prevHash == HashOf(N, h[n - 1]) && h[n].header.height == n
              && h[n].header.version == N.version && |h[n].transactions| <= N.maxTxs
              && N.txRootOf(h[n].transactions) == Some(h[n].header.txRoot)
              && (forall j :: 0 <= j < n <= j + 256 ==> Ids(N, h[j].transactions) !! Ids(N, h[n].transactions))
              && N.blockHash(h[n].header).Some? && N.headerOk(h[n].header)
              && N.producerOf(h[n].header).Some?
              && ((forall k :: !Allowed(N, fin, LedgerAt(N, h[..n]), h[n].header.timestamp, k))
                  || Allowed(N, fin, LedgerAt(N, h[..n]), h[n].header.timestamp, N.producerOf(h[n].header).value))
              && var now := h[n - 1].header.timestamp;
                 StepAll(N.rules, Gc(LedgerAt(N, h[..n]), now), h[n].transactions, now).error == None
  {
    hide LedgerAt, StepAll, Gc, Allowed, Ids, Replays, ReplayedIn;
    OnlyGenesisReplays(N, fin, h);
    if Replays(N, fin, h[..n + 1]) {
      ReplaysPrefix(N, fin, h[..n + 1], n);
      assert h[..n + 1][..n] == h[..n];
    }
    if Replays(N, fin, h[..n]) { ReplaysOneMore(N, fin, h, n); }
    NoIdRepeats(N, h, n);
  }

  lemma OnlyGenesisReplays(N: Network, fin: Option<FinalizedBase>, h: seq<Block>)
    requires h != []
    ensures Replays(N, fin, h[..1]) <==> h[0] == N.genesis
  {
  }

  lemma NoIdRepeats(N: Network, h: seq<Block>, i: nat)
    requires 0 < i < |h|
    ensures !ReplayedIn(N, h[..i], h[i]) <==>
              forall j :: 0 <= j < i <= j + 256 ==> Ids(N, h[j].transactions) !! Ids(N, h[i].transactions)
  {
    hide Ids;
    var front := h[..i];
    if !ReplayedIn(N, front, h[i]) {
      forall j | 0 <= j < i <= j + 256 ensures Ids(N, h[j].transactions) !! Ids(N, h[i].transactions) {
        assert front[j] == h[j];
        NotReplayed(N, front, h[i], j);
      }
    }
    if forall j :: 0 <= j < i <= j + 256 ==> Ids(N, h[j].transactions) !! Ids(N, h[i].transactions) {
      forall j, id | 0 <= j < i && j + REPLAY_WINDOW_BLOCKS >= i && id in Ids(N, front[j].transactions)
        ensures id !in Ids(N, h[i].transactions)
      {
        assert Ids(N, h[j].transactions) !! Ids(N, h[i].transactions);
      }
    }
  }

  // ----- branches -----

  /** A branch replaces the chain exactly when it forks off it, has every checkpoint from the fork point on, is longer,
      or as long with a lower tip hash, can be rebuilt from what is in RAM, and replays. */
  lemma AdoptedExactly(N: Network, h: seq<Block>, base: nat, cps: seq<Checkpoint>, fin: Option<FinalizedBase>,
      blocks: seq<Block>)
    requires h != []
    ensures Adoptable(N, h, base, cps, fin, blocks) <==>
              && blocks != [] && 0 < blocks[0].header.height <= |h|
              && var g := h[..blocks[0].header.height] + blocks;
                 && (forall cp :: cp in cps && cp.data.height + 1 >= blocks[0].header.height ==>
                       cp.data.height < |g| && N.blockHash(g[cp.data.height].header) == Some(cp.data.blockHash))
                 && (|g| > |h| || (|g| == |h| && HashOf(N, g[|g| - 1]) < HashOf(N, h[|h| - 1])))
                 && (base <= 1 || blocks[0].header.height == 1)
                 && Replays(N, fin, g)
  {
    hide Replays;
  }

  /** A single block replaces the tip exactly when it stands at its height, has a lower hash and replays in its place. */
  lemma SisterExactly(N: Network, h: seq<Block>, base: nat, fin: Option<FinalizedBase>, b: Block)
    requires h != []
    ensures Sister(N, h, base, fin, b) <==>
              && |h| > 1 && b.header.height == |h| - 1 && HashOf(N, b) < HashOf(N, h[|h| - 1])
              && (base <= 1 || |h| == 2) && Replays(N, fin, h[..|h| - 1] + [b])
  {
    hide Replays;
  }

  /** Every refusal of a block beside the tip names a cause that is there. */
  lemma RefusedSister(N: Network, h: seq<Block>, base: nat, b: Block)
    requires h != [] && SisterRefusal(N, h, base, b).Some?
    ensures var parentHeld := exists k: nat :: k < |h| && (k == 0 || base <= k) && HashOf(N, h[k]) == b.header.prevHash;
            match SisterRefusal(N, h, base, b).value
            case BlockPruned(p) => !parentHeld && b.header.height == p + 1 && 1 <= p < base
            case UnknownParent => !parentHeld && (b.header.height < 2 || base < b.header.height)
            case ParentNotTip =>
              parentHeld && (b.header.height != |h| - 1 || HashOf(N, b) >= HashOf(N, h[|h| - 1]))
            case NotEncodable => parentHeld && N.blockHash(b.header) == None
            case _ => false
  {
    hide HashInRam;
    HeldMeans(N, h, base, b.header.prevHash);
  }

  /** Every refusal of a branch names a cause that is there. */
  lemma RefusedBranch(N: Network, h: seq<Block>, base: nat, cps: seq<Checkpoint>, blocks: seq<Block>)
    requires blocks != [] && BranchVerdict(N, h, base, cps, blocks).Some?
    ensures match BranchVerdict(N, h, base, cps, blocks).value
            case BranchDoesNotChain => exists i ::
              && 0 < i < |blocks| && N.blockHash(blocks[i - 1].header).Some?
              && N.blockHash(blocks[i - 1].header) != Some(blocks[i].header.prevHash)
            case NotEncodable => exists i :: 0 <= i < |blocks| && N.blockHash(blocks[i].header) == None
            case BlockPruned(p) =>
              || (blocks[0].header.height == 0 && p == U64_MAX)
              || (blocks[0].header.height == p + 1 && (p >= |h| || 0 < p < base))
            case UnknownParent =>
              var p := blocks[0].header.height;
              0 < p <= |h| && HashOf(N, h[p - 1]) != blocks[0].header.prevHash
            case ContradictsCheckpoint => exists cp ::
              && cp in cps && cp.data.height + 1 >= blocks[0].header.height > 0 && blocks[0].header.height <= |h|
              && var g := h[..blocks[0].header.height] + blocks;
                 cp.data.height >= |g| || N.blockHash(g[cp.data.height].header) != Some(cp.data.blockHash)
            case _ => false
  {
    hide ChainBreak;
    if ChainBreak(N, blocks, 1).Some? { BreakIsTrue(N, blocks, 1); }
  }

  lemma {:induction false} BreakIsTrue(N: Network, blocks: seq<Block>, i: nat)
    requires i > 0 && ChainBreak(N, blocks, i).Some?
    ensures match ChainBreak(N, blocks, i).value
            case BranchDoesNotChain => exists j ::
              && 0 < j < |blocks| && N.blockHash(blocks[j - 1].header).Some?
              && N.blockHash(blocks[j - 1].header) != Some(blocks[j].header.prevHash)
            case NotEncodable => exists j :: 0 <= j < |blocks| && N.blockHash(blocks[j].header) == None
            case _ => false
    decreases |blocks| - i
  {
    if N.blockHash(blocks[i - 1].header) == Some(blocks[i].header.prevHash) { BreakIsTrue(N, blocks, i + 1); }
  }

  // ----- producers and committees -----

  lemma {:induction false} CommitteeExists(c: Crypto, seed: Word32, pool: set<PublicKey>, size: nat)
    returns (committee: seq<PublicKey>)
    ensures IsCommittee(c, seed, pool, size, committee)
    decreases size
  {
    committee := [];
    if pool != {} && size > 0 {
      var first := FirstOf(c, seed, pool);
      var others := CommitteeExists(c, seed, pool - {first}, size - 1);
      committee := [first] + others;
      forall i, j | 0 <= i < j < |committee| ensures Precedes(c, seed, committee[i], committee[j]) {
        assert committee[j] == others[j - 1] && others[j - 1] in others;
      }
    }
  }

  /** Which committee is elected in a round: before finality the draw over the live pool by the genesis hash, and none in
      a recovery round; afterwards the draws over the frozen pool, by the base's seed or the round's. */
  lemma ElectedExactly(N: Network, fin: Option<FinalizedBase>, l: Ledger, recovery: nat, committee: seq<PublicKey>)
    requires NetworkOk(N)
    ensures Elected(N, fin, l, recovery, committee) <==>
              match fin
              case None =>
                if recovery != 0 then committee == []
                else
                  IsCommittee(N.rules.crypto, N.rules.crypto.nextSeed(N.blockHash(N.genesis.header).value), Pool(l),
                      N.committeeSize, committee)
              case Some(base) =>
                IsCommittee(N.rules.crypto,
                    if recovery == 0 then base.seed else N.rules.crypto.recoverySeed(base.seed, recovery),
                    (set k | k in base.pool), N.committeeSize, committee)
  {
    hide IsCommittee;
  }

  /** Who may produce a block dated ts: the members of the committee of the normal round and of every recovery round
      whose delay since the finalized block has passed. */
  lemma ProducersAreElected(N: Network, fin: Option<FinalizedBase>, l: Ledger, ts: U64, k: PublicKey)
    ensures Allowed(N, fin, l, ts, k) <==>
              exists r: nat, committee: seq<PublicKey> ::
                && Elected(N, fin, l, r, committee) && k in committee
                && (r > 0 ==> fin.Some? && r <= N.recoveryMax && SaturatingSub(ts, fin.value.blockTs) >= r * N.epochSecs)
  {
    hide IsCommittee, Drawn;
    var c := N.rules.crypto;
    forall r: nat, committee: seq<PublicKey> | Elected(N, fin, l, r, committee) && (fin.Some? || r == 0)
      ensures k in committee <==> Drawn(c, CommitteeSeed(N, fin, r), CommitteePool(fin, l), N.committeeSize, k)
    {
      CommitteeIsDrawn(c, CommitteeSeed(N, fin, r), CommitteePool(fin, l), N.committeeSize, committee, k);
    }
    if Allowed(N, fin, l, ts, k) {
      var r: nat := 0;
      if fin.Some? && !Drawn(c, fin.value.seed, SetOf(fin.value.pool), N.committeeSize, k) {
        r :| Recovered(N, fin.value, ts, r, k);
      }
      var committee := CommitteeExists(c, CommitteeSeed(N, fin, r), CommitteePool(fin, l), N.committeeSize);
      assert Elected(N, fin, l, r, committee);
    }
    forall r: nat, committee: seq<PublicKey> | Elected(N, fin, l, r, committee) && k in committee
      ensures r == 0 ==> Allowed(N, fin, l, ts, k)
      ensures fin.Some? && 0 < r <= N.recoveryMax && SaturatingSub(ts, fin.value.blockTs) >= r * N.epochSecs ==>
                Allowed(N, fin, l, ts, k)
    {
      if fin.Some? && 0 < r <= N.recoveryMax && SaturatingSub(ts, fin.value.blockTs) >= r * N.epochSecs {
        assert Recovered(N, fin.value, ts, r, k);
      }
    }
  }
}
