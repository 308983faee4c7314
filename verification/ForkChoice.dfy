/** Choosing between branches: which branch may replace the chain, that finality survives, and that
    nodes that saw the same branches agree (crates/scone-blockchain/src/fork_choice.rs). */
module ForkChoice {
  import opened Prelude
  import opened Checkpoints
  import opened Ledger
  import opened Blocks
  import opened Finality
  import opened History

  /** Block i was accepted on top of the blocks before it. */
  ghost predicate AcceptedAt(N: Network, fin: Option<FinalizedBase>, h: seq<Block>, i: nat)
    requires 0 < i < |h|
  {
    && h[i].header.prevHash == HashOf(N, h[i - 1])
    && Fits(N, h[..i], fin, ReplayedIn(N, h[..i], h[i]), h[i]) == None
  }

  /** Replaying the whole list from genesis, against this finalized base, succeeds. */
  ghost predicate Replays(N: Network, fin: Option<FinalizedBase>, h: seq<Block>) {
    && |h| > 0 && h[0] == N.genesis
    && forall i :: 0 < i < |h| ==> AcceptedAt(N, fin, h, i)
  }

  lemma ReplaysPrefix(N: Network, fin: Option<FinalizedBase>, h: seq<Block>, n: nat)
    requires Replays(N, fin, h) && 0 < n <= |h|
    ensures Replays(N, fin, h[..n])
  {
    hide AcceptedAt;
    forall i | 0 < i < n ensures AcceptedAt(N, fin, h[..n], i) {
      AcceptedInPrefix(N, fin, h, n, i);
    }
  }

  lemma ReplaysOneMore(N: Network, fin: Option<FinalizedBase>, h: seq<Block>, n: nat)
    requires 0 < n < |h| && Replays(N, fin, h[..n])
    ensures Replays(N, fin, h[..n + 1]) <==> AcceptedAt(N, fin, h, n)
  {
    hide AcceptedAt;
    var f, g := h[..n], h[..n + 1];
    forall i: nat | 0 < i < |g| ensures AcceptedAt(N, fin, g, i) <==> AcceptedAt(N, fin, h, i) {
      AcceptedInPrefix(N, fin, h, n + 1, i);
    }
    forall i: nat | 0 < i < n ensures AcceptedAt(N, fin, h, i) {
      assert AcceptedAt(N, fin, f, i);
      AcceptedInPrefix(N, fin, h, n, i);
    }
    assert AcceptedAt(N, fin, g, n) <==> AcceptedAt(N, fin, h, n);
  }

  lemma AcceptedInPrefix(N: Network, fin: Option<FinalizedBase>, h: seq<Block>, n: nat, i: nat)
    requires 0 < i < n <= |h|
    ensures AcceptedAt(N, fin, h[..n], i) <==> AcceptedAt(N, fin, h, i)
  {
    assert h[..n][..i] == h[..i];
  }

  lemma ReplayedIsHistory(N: Network, fin: Option<FinalizedBase>, h: seq<Block>)
    requires NetworkOk(N) && Replays(N, fin, h)
    ensures HistoryOk(N, h)
  {
    hide Fits, ReplayedIn;
    forall i | 0 <= i < |h| ensures LinkOk(N, h, i) {
      if i > 0 {
        assert AcceptedAt(N, fin, h, i);
        FitsMeans(N, h[..i], fin, ReplayedIn(N, h[..i], h[i]), h[i]);
        if i > 1 {
          assert AcceptedAt(N, fin, h, i - 1);
          FitsMeans(N, h[..i - 1], fin, ReplayedIn(N, h[..i - 1], h[i - 1]), h[i - 1]);
        }
      }
    }
  }

  /** Pushing the next block of a list succeeds exactly when the list replays one block further. */
  lemma PushStep(N: Network, fin: Option<FinalizedBase>, target: seq<Block>, n: nat, index: map<Word32, U64>, base: nat)
    requires NetworkOk(N) && 0 < n < |target| && Replays(N, fin, target[..n]) && IndexOk(N, target[..n], index)
    ensures var b := target[n];
            if PushVerdict(N, target[..n], base, fin, Replayed(N, index, b), b) == None then
              && b.header.height == n && Replays(N, fin, target[..n] + [b])
              && IndexOk(N, target[..n] + [b], Recorded(N, index, b.transactions, n))
            else !Replays(N, fin, target)
  {
    var h, b := target[..n], target[n];
    assert h + [b] == target[..n + 1];
    ReplayedByIndex(N, h, index, b);
    ReplaysOneMore(N, fin, target, n);
    if Replays(N, fin, target) { assert AcceptedAt(N, fin, target, n); }
    if PushVerdict(N, h, base, fin, Replayed(N, index, b), b) == None {
      assert AcceptedAt(N, fin, target, n);
      ReplayedIsHistory(N, fin, h);
      FitsMeans(N, h, fin, ReplayedIn(N, h, b), b);
      IndexGrows(N, h, index, b);
    }
  }

  /** A list that replays repeats no transaction id within 256 blocks. */
  lemma ReplayedHasNoReplay(N: Network, fin: Option<FinalizedBase>, h: seq<Block>)
    requires Replays(N, fin, h)
    ensures NoReplay(N, h)
  {
    hide ReplayedIn;
    forall i, j | 0 <= i < j < |h|
        && j - i <= REPLAY_WINDOW_BLOCKS ensures Ids(N, h[i].transactions) !! Ids(N, h[j].transactions) {
      assert AcceptedAt(N, fin, h, j);
      FitsMeans(N, h[..j], fin, ReplayedIn(N, h[..j], h[j]), h[j]);
      NotReplayed(N, h[..j], h[j], i);
    }
  }

  lemma NotReplayed(N: Network, h: seq<Block>, b: Block, i: nat)
    requires !ReplayedIn(N, h, b) && i < |h| && i + REPLAY_WINDOW_BLOCKS >= |h|
    ensures Ids(N, h[i].transactions) !! Ids(N, b.transactions)
  {
    forall id ensures id !in Ids(N, h[i].transactions) || id !in Ids(N, b.transactions) {}
  }

  // ----- the order on chains -----

  /** Longer wins; at equal length the lower tip hash. */
  predicate Better(N: Network, a: seq<Block>, b: seq<Block>)
    requires a != [] && b != []
  {
    |a| > |b| || (|a| == |b| && HashOf(N, TipOf(a)) < HashOf(N, TipOf(b)))
  }

  // ----- finality -----

  /** The checkpoint's block is the one this history has at its height. */
  predicate Placed(N: Network, cp: Checkpoint, h: seq<Block>) {
    cp.data.height < |h| && N.blockHash(h[cp.data.height].header) == Some(cp.data.blockHash)
  }

  ghost predicate OnHistory(N: Network, cps: seq<Checkpoint>, h: seq<Block>) {
    forall cp :: cp in cps ==> Placed(N, cp, h)
  }

  /** A new checkpoint keeps the window on this history exactly when its own block is on it. */
  lemma NewestPlaced(N: Network, cps: seq<Checkpoint>, cp: Checkpoint, h: seq<Block>)
    requires OnHistory(N, cps, h)
    ensures OnHistory(N, Windowed(cps, cp), h) <==> Placed(N, cp, h)
  {
    var w := Windowed(cps, cp);
    assert w[|w| - 1] in w;
  }

  /** So the content rules alone do not keep it there: another block hash passes them just as well. */
  lemma ForeignBlockPasses(N: Network, cps: seq<Checkpoint>, tipHeight: U64, elapsed: nat, cp: Checkpoint,
      h: seq<Block>, other: Word32)
    requires OnHistory(N, cps, h) && Placed(N, cp, h) && other != cp.data.blockHash
    requires CheckpointDataOk(N, cps, tipHeight, elapsed, cp.data)
    ensures var foreign := cp.(data := cp.data.(blockHash := other));
            && CheckpointDataOk(N, cps, tipHeight, elapsed, foreign.data)
            && !OnHistory(N, Windowed(cps, foreign), h)
  {
    hide OnHistory, CheckpointDataOk;
    BlockHashIsNotAsked(N, cps, tipHeight, elapsed, cp.data, other);
    NewestPlaced(N, cps, cp.(data := cp.data.(blockHash := other)), h);
  }

  /** The pool frozen with a checkpoint below the tip is the tip's: a key banned since then is missing from it. */
  lemma BannedSinceCheckpoint(N: Network, h: seq<Block>, height: nat, key: PublicKey)
    requires height < |h| && InPool(LedgerAt(N, h[..height + 1]), key) && key in LedgerAt(N, h).banned
    ensures Pool(LedgerAt(N, h)) != Pool(LedgerAt(N, h[..height + 1]))
  {
    hide LedgerAt;
    PoolIsInPool(LedgerAt(N, h), key);
    PoolIsInPool(LedgerAt(N, h[..height + 1]), key);
  }

  /** Every checkpoint at or above the fork point sits on the new history. */
  ghost predicate KeepsCheckpoints(N: Network, cps: seq<Checkpoint>, fork: nat, h: seq<Block>) {
    forall cp :: cp in cps && cp.data.height >= fork ==> Placed(N, cp, h)
  }

  /** The history that forks off h after height fork. */
  function Branched(h: seq<Block>, fork: nat, blocks: seq<Block>): seq<Block>
    requires fork < |h|
  {
    h[..fork + 1] + blocks
  }

  /** A branch that respects the checkpoints from its fork point on respects all of them. */
  lemma FinalitySurvives(N: Network, cps: seq<Checkpoint>, h: seq<Block>, fork: nat, blocks: seq<Block>)
    requires fork < |h| && OnHistory(N, cps, h)
    ensures KeepsCheckpoints(N, cps, fork, Branched(h, fork, blocks)) <==> OnHistory(N, cps, Branched(h, fork, blocks))
  {
    forall cp | cp in cps && cp.data.height < fork ensures Placed(N, cp, Branched(h, fork, blocks)) {
      assert Placed(N, cp, h);
    }
  }

  lemma FinalityGrows(N: Network, cps: seq<Checkpoint>, h: seq<Block>, b: Block)
    requires OnHistory(N, cps, h)
    ensures OnHistory(N, cps, h + [b])
  {
    forall cp | cp in cps ensures Placed(N, cp, h + [b]) { assert Placed(N, cp, h); }
  }

  /** What an accepted block keeps: a right index, no replay within 256 blocks, checkpoints on the history. */
  lemma PushKeepsPromises(N: Network, h: seq<Block>, index: map<Word32, U64>, cps: seq<Checkpoint>, b: Block)
    requires NetworkOk(N) && HistoryOk(N, h) && !Replayed(N, index, b) && b.header.height == |h|
    ensures IndexOk(N, h, index) ==> IndexOk(N, h + [b], Recorded(N, index, b.transactions, |h|))
    ensures IndexOk(N, h, index) && NoReplay(N, h) ==> NoReplay(N, h + [b])
    ensures OnHistory(N, cps, h) ==> OnHistory(N, cps, h + [b])
  {
    hide IndexOk, NoReplay, OnHistory, Recorded, HistoryOk;
    if IndexOk(N, h, index) {
      IndexGrows(N, h, index, b);
      if NoReplay(N, h) { NoReplayGrows(N, h, index, b); }
    }
    if OnHistory(N, cps, h) { FinalityGrows(N, cps, h, b); }
  }

  // ----- adoption -----

  ghost predicate ChainsInternally(N: Network, blocks: seq<Block>) {
    forall i :: 0 < i < |blocks| ==> N.blockHash(blocks[i - 1].header) == Some(blocks[i].header.prevHash)
  }

  /** The fork point and everything below it is still in RAM. */
  predicate PrefixHeld(base: nat, fork: nat) {
    base <= 1 || fork == 0
  }

  /** Switching to the branch would be an improvement. */
  predicate Outweighs(N: Network, h: seq<Block>, blocks: seq<Block>)
    requires h != []
  {
    && blocks != [] && 0 < blocks[0].header.height <= |h|
    && Better(N, Branched(h, blocks[0].header.height - 1, blocks), h)
  }

  /** When a branch replaces the chain. */
  ghost predicate Adoptable(N: Network, h: seq<Block>, base: nat, cps: seq<Checkpoint>, fin: Option<FinalizedBase>,
      blocks: seq<Block>)
    requires h != []
  {
    && blocks != [] && blocks[0].header.height > 0
    && var fork := blocks[0].header.height - 1;
       && fork < |h|
       && KeepsCheckpoints(N, cps, fork, Branched(h, fork, blocks))
       && Outweighs(N, h, blocks)
       && PrefixHeld(base, fork)
       && Replays(N, fin, Branched(h, fork, blocks))
  }

  /** When a single block next to the tip replaces it. */
  ghost predicate Sister(N: Network, h: seq<Block>, base: nat, fin: Option<FinalizedBase>, b: Block)
    requires h != []
  {
    && |h| > 1 && b.header.height == |h| - 1
    && Better(N, Branched(h, |h| - 2, [b]), h)
    && PrefixHeld(base, |h| - 2)
    && Replays(N, fin, Branched(h, |h| - 2, [b]))
  }

  /** A block that replaces the tip names the held block below it. */
  lemma SisterNamesParent(N: Network, h: seq<Block>, base: nat, fin: Option<FinalizedBase>, b: Block)
    requires NetworkOk(N) && HistoryOk(N, h) && base < |h| && Sister(N, h, base, fin, b)
    ensures HashInRam(N, h, base, b.header.prevHash) && N.blockHash(b.header).Some?
    ensures HashOf(N, b) < HashOf(N, TipOf(h))
  {
    var g := Branched(h, |h| - 2, [b]);
    ReplayedIsHistory(N, fin, g);
    hide Replays;
    assert LinkOk(N, g, |h| - 1) && g[|h| - 1] == b && g[|h| - 2] == h[|h| - 2];
    assert InRam(base, |h|, |h| - 2);
  }

  /** Why a block beside the tip is refused before any replay. */
  ghost function SisterRefusal(N: Network, h: seq<Block>, base: nat, b: Block): Option<ChainError>
    requires h != []
  {
    if !HashInRam(N, h, base, b.header.prevHash) then Some(ClassifyMiss(base, b.header.height))
    else if b.header.height != |h| - 1 then Some(ParentNotTip)
    else if N.blockHash(b.header) == None then Some(NotEncodable)
    else if HashOf(N, b) >= HashOf(N, TipOf(h)) then Some(ParentNotTip)
    else None
  }

  /** The cheap checks decide everything but the replay. */
  lemma SisterChecks(N: Network, h: seq<Block>, base: nat, fin: Option<FinalizedBase>, b: Block)
    requires NetworkOk(N) && HistoryOk(N, h) && base < |h| && b.header.prevHash != HashOf(N, TipOf(h))
    ensures var cheap := SisterRefusal(N, h, base, b) == None;
            && (cheap ==> |h| > 1)
            && (Sister(N, h, base, fin, b) <==>
                  cheap && PrefixHeld(base, |h| - 2) && Replays(N, fin, Branched(h, |h| - 2, [b])))
  {
    if Sister(N, h, base, fin, b) { SisterNamesParent(N, h, base, fin, b); }
    hide Replays;
  }

  predicate BelowTip(cps: seq<Checkpoint>, tipHeight: nat) {
    cps == [] || cps[|cps| - 1].data.height < tipHeight
  }

  /** Replacing the tip makes no checkpoint check: the checkpoints stay on the history exactly when the
      last of them is strictly below the tip. */
  lemma SisterKeepsFinality(N: Network, cps: seq<Checkpoint>, h: seq<Block>, base: nat, fin: Option<FinalizedBase>, b: Block)
    requires h != [] && CheckpointsOk(N.rules.crypto, cps, fin) && OnHistory(N, cps, h) && Sister(N, h, base, fin, b)
    ensures OnHistory(N, cps, Branched(h, |h| - 2, [b])) <==> BelowTip(cps, |h| - 1)
  {
    hide Replays;
    var g := Branched(h, |h| - 2, [b]);
    if BelowTip(cps, |h| - 1) {
      forall cp | cp in cps ensures Placed(N, cp, g) {
        assert Placed(N, cp, h);
        var i :| 0 <= i < |cps| && cps[i] == cp;
        CheckpointHeightsRise(N.rules.crypto, cps, fin, i, |cps| - 1);
      }
    } else {
      var last := cps[|cps| - 1];
      assert Placed(N, last, h);
      assert !Placed(N, last, g);
    }
  }

  lemma AdoptedMeans(N: Network, h: seq<Block>, base: nat, cps: seq<Checkpoint>, fin: Option<FinalizedBase>,
      blocks: seq<Block>)
    requires h != [] && 0 < |blocks| && 0 < blocks[0].header.height <= |h|
    ensures var g := Branched(h, blocks[0].header.height - 1, blocks);
            Adoptable(N, h, base, cps, fin, blocks) ==>
              && Better(N, g, h) && KeepsCheckpoints(N, cps, blocks[0].header.height - 1, g)
              && (OnHistory(N, cps, h) ==> OnHistory(N, cps, g))
  {
    hide Replays, KeepsCheckpoints, OnHistory;
    if OnHistory(N, cps, h) { FinalitySurvives(N, cps, h, blocks[0].header.height - 1, blocks); }
  }

  /** The first place where a branch does not link up, scanning from block i. */
  function ChainBreak(N: Network, blocks: seq<Block>, i: nat): Option<ChainError>
    requires i > 0
    decreases |blocks| - i
  {
    if i >= |blocks| then None
    else if N.blockHash(blocks[i - 1].header) == None then Some(NotEncodable)
    else if N.blockHash(blocks[i - 1].header) != Some(blocks[i].header.prevHash) then Some(BranchDoesNotChain)
    else ChainBreak(N, blocks, i + 1)
  }

  lemma {:induction false} NoBreak(N: Network, blocks: seq<Block>, i: nat)
    requires i > 0 && forall j :: i <= j < |blocks| ==> N.blockHash(blocks[j - 1].header) == Some(blocks[j].header.prevHash)
    ensures ChainBreak(N, blocks, i) == None
    decreases |blocks| - i
  {
    if i < |blocks| { NoBreak(N, blocks, i + 1); }
  }

  /** Why a branch is refused before any replay; None for one that would at least be weighed. */
  ghost function BranchVerdict(N: Network, h: seq<Block>, base: nat, cps: seq<Checkpoint>,
      blocks: seq<Block>): Option<ChainError>
    requires blocks != []
  {
    var first := blocks[0].header;
    if ChainBreak(N, blocks, 1).Some? then ChainBreak(N, blocks, 1)
    else if first.height == 0 then Some(BlockPruned(U64_MAX))
    else if first.height - 1 >= |h| || !InRam(base, |h|, first.height - 1) then Some(BlockPruned(first.height - 1))
    else if HashOf(N, h[first.height - 1]) != first.prevHash then Some(UnknownParent)
    else if !KeepsCheckpoints(N, cps, first.height - 1, Branched(h, first.height - 1,
        blocks)) then Some(ContradictsCheckpoint)
    else if N.blockHash(TipOf(blocks).header) == None then Some(NotEncodable)
    else None
  }

  /** A branch that replays is hash-linked, inside and to its fork point. */
  lemma ReplayedBranchLinks(N: Network, fin: Option<FinalizedBase>, h: seq<Block>, fork: nat, blocks: seq<Block>)
    requires NetworkOk(N) && fork < |h| && blocks != [] && Replays(N, fin, Branched(h, fork, blocks))
    ensures ChainsInternally(N, blocks) && blocks[0].header.prevHash == HashOf(N, h[fork]) &&
        blocks[0].header.height == fork + 1
    ensures N.blockHash(TipOf(blocks).header).Some?
  {
    var g := Branched(h, fork, blocks);
    ReplayedIsHistory(N, fin, g);
    hide Replays;
    assert LinkOk(N, g, fork + 1) && g[fork + 1] == blocks[0] && g[fork] == h[fork];
    forall i | 0 < i < |blocks| ensures N.blockHash(blocks[i - 1].header) == Some(blocks[i].header.prevHash) {
      assert LinkOk(N, g, fork + 1 + i);
      assert g[fork + 1 + i] == blocks[i] && g[fork + i] == blocks[i - 1];
    }
    assert LinkOk(N, g, |g| - 1);
  }

  /** The cheap checks and the comparison decide everything but the replay. */
  lemma AdoptionChecks(N: Network, h: seq<Block>, base: nat, cps: seq<Checkpoint>, fin: Option<FinalizedBase>,
      blocks: seq<Block>)
    requires NetworkOk(N) && HistoryOk(N, h) && base < |h| && blocks != []
    ensures var cheap := BranchVerdict(N, h, base, cps, blocks) == None;
            && (cheap ==> 0 < blocks[0].header.height <= |h|)
            && (Adoptable(N, h, base, cps, fin, blocks) <==>
                  && cheap && Outweighs(N, h, blocks)
                  && PrefixHeld(base, blocks[0].header.height - 1)
                  && Replays(N, fin, Branched(h, blocks[0].header.height - 1, blocks)))
  {
    if Adoptable(N, h, base, cps, fin, blocks) {
      ReplayedBranchLinks(N, fin, h, blocks[0].header.height - 1, blocks);
      hide Replays;
      NoBreak(N, blocks, 1);
    }
    hide Replays, KeepsCheckpoints;
  }

  lemma NothingAdopted(N: Network, h: seq<Block>, base: nat, cps: seq<Checkpoint>, fin: Option<FinalizedBase>)
    requires h != []
    ensures !Adoptable(N, h, base, cps, fin, [])
  {
  }

  // ----- convergence -----

  /** A full branch from genesis that replays with no checkpoint in force. */
  ghost predicate ValidBranch(N: Network, branch: seq<Block>) {
    branch != [] && Replays(N, None, [N.genesis] + branch)
  }

  /** What offering a full branch does to a chain without checkpoints. */
  ghost function Offer(N: Network, h: seq<Block>, branch: seq<Block>): (r: seq<Block>)
    requires h != []
    ensures r != []
  {
    if ValidBranch(N, branch) && Better(N, [N.genesis] + branch, h) then [N.genesis] + branch else h
  }

  lemma AdoptingIsOffering(N: Network, h: seq<Block>, base: nat, branch: seq<Block>)
    requires NetworkOk(N) && HistoryOk(N, h) && (branch != [] ==> branch[0].header.height == 1)
    ensures Offer(N, h, branch) == if Adoptable(N, h, base, [], None, branch) then Branched(h, 0, branch) else h
  {
    hide Replays;
    assert h[..1] == [N.genesis];
  }

  ghost function OfferAll(N: Network, h: seq<Block>, offers: seq<seq<Block>>): (r: seq<Block>)
    requires h != []
    ensures r != []
    decreases |offers|
  {
    if offers == [] then h else OfferAll(N, Offer(N, h, offers[0]), offers[1..])
  }

  /** After any offers the chain is the old one or a valid offered branch, and none of those is better. */
  lemma {:induction false} OffersEndAtTheBest(N: Network, h: seq<Block>, offers: seq<seq<Block>>)
    requires h != []
    ensures var r := OfferAll(N, h, offers);
            && (r == h || exists b :: b in offers && ValidBranch(N, b) && r == [N.genesis] + b)
            && !Better(N, h, r)
            && forall b :: b in offers && ValidBranch(N, b) ==> !Better(N, [N.genesis] + b, r)
    decreases |offers|
  {
    hide ValidBranch;
    if offers != [] {
      OffersEndAtTheBest(N, Offer(N, h, offers[0]), offers[1..]);
      assert forall b :: b in offers <==> b == offers[0] || b in offers[1..];
    }
  }

  /** Two nodes that start at the same tip and see the same branches, in any order and any number of
      times, end at the same height and tip hash. */
  lemma Convergence(N: Network, h: seq<Block>, h': seq<Block>, offers: seq<seq<Block>>, offers': seq<seq<Block>>)
    requires h != [] && h' != [] && |h| == |h'| && HashOf(N, TipOf(h)) == HashOf(N, TipOf(h'))
    requires forall b :: b in offers <==> b in offers'
    ensures var (r, r') := (OfferAll(N, h, offers), OfferAll(N, h', offers'));
            |r| == |r'| && HashOf(N, TipOf(r)) == HashOf(N, TipOf(r'))
  {
    hide ValidBranch, OfferAll;
    OffersEndAtTheBest(N, h, offers);
    OffersEndAtTheBest(N, h', offers');
    assert !Better(N, OfferAll(N, h, offers), OfferAll(N, h', offers'));
    assert !Better(N, OfferAll(N, h', offers'), OfferAll(N, h, offers));
  }
}
