/** A chain as its full list of blocks: the ledger it leads to, when one more block fits, which
    transaction ids are protected, and which part of it a RAM window holds. */
module History {
  import opened Prelude
  import opened Checkpoints
  import opened Ledger
  import opened Blocks
  import opened Finality

  const REPLAY_WINDOW_BLOCKS: nat := 256
  const RAM_WINDOW_BLOCKS: nat := 512

  // ----- the full history -----

  ghost predicate LinkOk(N: Network, h: seq<Block>, i: nat)
    requires i < |h|
  {
    && h[i].header.height == i
    && N.blockHash(h[i].header).Some?
    && (i > 0 ==> N.blockHash(h[i - 1].header) == Some(h[i].header.prevHash))
  }

  /** Genesis first, consecutive heights, each block naming the hash of the one before. */
  ghost predicate HistoryOk(N: Network, h: seq<Block>) {
    && |h| > 0 && h[0] == N.genesis
    && forall i :: 0 <= i < |h| ==> LinkOk(N, h, i)
  }

  function HashOf(N: Network, b: Block): Word32 {
    var x := N.blockHash(b.header);
    if x.Some? then x.value else 0
  }

  function TipOf(h: seq<Block>): Block
    requires h != []
  {
    h[|h| - 1]
  }

  /** The fold of a history: expiry at the parent's time, then the block's transactions in order. */
  ghost function LedgerAt(N: Network, h: seq<Block>): Ledger
    decreases |h|
  {
    if |h| <= 1 then EMPTY
    else
      var front := h[..|h| - 1];
      var now := TipOf(front).header.timestamp;
      StepAll(N.rules, Gc(LedgerAt(N, front), now), TipOf(h).transactions, now).ledger
  }

  // ----- when a block fits -----

  /** Everything checked before a block is applied, its parent being the tip. */
  ghost function Checked(N: Network, h: seq<Block>, fin: Option<FinalizedBase>, replayed: bool,
      b: Block): Option<ChainError> {
    if b.header.height != |h| then Some(InvalidHeight(Min(|h|, U64_MAX), b.header.height))
    else if b.header.version != N.version then Some(InvalidVersion(b.header.version))
    else if |b.transactions| > N.maxTxs then Some(TooManyTransactions(|b.transactions|))
    else if N.txRootOf(b.transactions) == None then Some(NotEncodable)
    else if N.txRootOf(b.transactions) != Some(b.header.txRoot) then Some(MerkleMismatch)
    else if replayed then Some(TxReplay)
    else if N.blockHash(b.header) == None then Some(NotEncodable)
    else if !N.headerOk(b.header) then Some(HeaderRejected)
    else if !ProducerOk(N, fin, LedgerAt(N, h), b.header) then Some(InvalidProducer)
    else None
  }

  /** The block's work on top of a history: expiry and transactions at the time of the tip. */
  ghost function Applied(N: Network, h: seq<Block>, b: Block): Outcome
    requires h != []
  {
    var now := TipOf(h).header.timestamp;
    StepAll(N.rules, Gc(LedgerAt(N, h), now), b.transactions, now)
  }

  /** The verdict on a block whose parent is the tip. */
  ghost function Fits(N: Network, h: seq<Block>, fin: Option<FinalizedBase>, replayed: bool, b: Block): Option<ChainError>
    requires h != []
  {
    if Checked(N, h, fin, replayed, b).Some? then Checked(N, h, fin, replayed, b)
    else if Applied(N, h, b).error.Some? then Some(Refused(Applied(N, h, b).error.value))
    else None
  }

  /** Heights whose block a window that starts at base still holds; genesis never leaves. */
  predicate InRam(base: nat, height: nat, k: nat) {
    k == 0 || base <= k < height
  }

  ghost predicate HashInRam(N: Network, h: seq<Block>, base: nat, hash: Word32) {
    exists k: nat :: k < |h| && InRam(base, |h|, k) && HashOf(N, h[k]) == hash
  }

  function ClassifyMiss(base: nat, childHeight: U64): ChainError {
    if childHeight >= 2 && childHeight - 1 < base then BlockPruned(childHeight - 1) else UnknownParent
  }

  /** The verdict on one block offered to a chain. */
  ghost function PushVerdict(N: Network, h: seq<Block>, base: nat, fin: Option<FinalizedBase>, replayed: bool,
      b: Block): Option<ChainError>
    requires h != []
  {
    if b.header.prevHash == HashOf(N, TipOf(h)) then Fits(N, h, fin, replayed, b)
    else if HashInRam(N, h, base, b.header.prevHash) then Some(ParentNotTip)
    else Some(ClassifyMiss(base, b.header.height))
  }

  /** A block on the tip extends the history, and the ledger by exactly its own effect. */
  lemma HistoryGrows(N: Network, h: seq<Block>, b: Block)
    requires HistoryOk(N, h) && b.header.prevHash == HashOf(N, TipOf(h))
    requires b.header.height == |h| && N.blockHash(b.header).Some?
    ensures HistoryOk(N, h + [b]) && LedgerAt(N, h + [b]) == Applied(N, h, b).ledger
    ensures var now := h[|h| - 1].header.timestamp;
            LedgerAt(N, h + [b]) == StepAll(N.rules, Gc(LedgerAt(N, h), now), b.transactions, now).ledger
  {
    hide LedgerAt, StepAll, Gc;
    var g := h + [b];
    forall i | 0 <= i < |g| ensures LinkOk(N, g, i) {
      if i < |h| {
        assert LinkOk(N, h, i);
      } else {
        assert LinkOk(N, h, i - 1);
      }
    }
    LedgerStep(N, h, b);
  }

  ghost predicate AppliesAt(N: Network, h: seq<Block>, i: nat)
    requires 0 < i < |h|
  {
    Applied(N, h[..i], h[i]).error == None
  }

  /** Every transaction of every block was accepted where it stands. */
  ghost predicate Applies(N: Network, h: seq<Block>) {
    forall i :: 0 < i < |h| ==> AppliesAt(N, h, i)
  }

  lemma AppliesGrows(N: Network, h: seq<Block>, b: Block)
    requires h != [] && Applies(N, h) && Applied(N, h, b).error == None
    ensures Applies(N, h + [b])
  {
    hide Applied;
    var g := h + [b];
    forall i | 0 < i < |g| ensures AppliesAt(N, g, i) {
      if i < |h| {
        assert AppliesAt(N, h, i) && g[..i] == h[..i];
      } else {
        assert g[..i] == h;
      }
    }
  }

  lemma AppliesPrefix(N: Network, h: seq<Block>, n: nat)
    requires Applies(N, h) && n <= |h|
    ensures Applies(N, h[..n])
  {
    hide Applied;
    forall i | 0 < i < n ensures AppliesAt(N, h[..n], i) {
      assert AppliesAt(N, h, i) && h[..n][..i] == h[..i];
    }
  }

  lemma FitsMeans(N: Network, h: seq<Block>, fin: Option<FinalizedBase>, replayed: bool, b: Block)
    requires h != [] && Fits(N, h, fin, replayed, b) == None
    ensures b.header.height == |h| && N.blockHash(b.header).Some? && !replayed && Applied(N, h, b).error == None
  {
    hide LedgerAt, Applied, ProducerOk;
  }

  lemma LedgerStep(N: Network, h: seq<Block>, b: Block)
    requires h != []
    ensures LedgerAt(N, h + [b]) == Applied(N, h, b).ledger
  {
    hide StepAll, Gc;
    assert (h + [b])[..|h|] == h;
  }

  // ----- what expiry reports -----

  /** The names the next block's expiry pass retires, in the order of the pass. */
  ghost predicate GcOf(N: Network, h: seq<Block>, expired: seq<DomainId>)
    requires h != []
  {
    && GcOrder(LedgerAt(N, h), expired)
    && Elems(expired) == Expired(LedgerAt(N, h), TipOf(h).header.timestamp)
  }

  /** The same over every block from height `from` on, block after block. */
  ghost predicate GcLog(N: Network, h: seq<Block>, from: nat, log: seq<DomainId>)
    requires 0 < from <= |h|
    decreases |h|
  {
    if |h| == from then log == []
    else
      var front := h[..|h| - 1];
      exists k: nat :: k <= |log| && GcLog(N, front, from, log[..k]) && GcOf(N, front, log[k..])
  }

  lemma GcLogGrows(N: Network, h: seq<Block>, from: nat, log: seq<DomainId>, b: Block, more: seq<DomainId>)
    requires 0 < from <= |h| && GcLog(N, h, from, log) && GcOf(N, h, more)
    ensures GcLog(N, h + [b], from, log + more)
  {
    hide GcOf;
    var k := |log|;
    assert (h + [b])[..|h|] == h && (log + more)[..k] == log && (log + more)[k..] == more;
  }

  lemma {:induction false} SameOrder(l: Ledger, a: seq<DomainId>, b: seq<DomainId>)
    requires GcOrder(l, a) && GcOrder(l, b) && Elems(a) == Elems(b)
    ensures a == b
    decreases |a|
  {
    hide ExpireEntries, Elems;
    NoElems(a);
    NoElems(b);
    if a != [] {
      SplitOrder(l, a);
      SplitOrder(l, b);
      LastIsSame(l, a, b);
      SameOrder(l, a[..|a| - 1], b[..|b| - 1]);
    }
  }

  lemma NoElems(order: seq<DomainId>)
    ensures Elems(order) == {} <==> order == []
  {
    if order != [] { assert order[0] in Elems(order); }
  }

  lemma LastIsSame(l: Ledger, a: seq<DomainId>, b: seq<DomainId>)
    requires GcOrder(l, a) && GcOrder(l, b) && Elems(a) == Elems(b) && a != [] && b != []
    ensures a[|a| - 1] == b[|b| - 1]
  {
    var x, y := a[|a| - 1], b[|b| - 1];
    assert x in Elems(a) && y in Elems(b);
    assert x in Elems(b) && y in Elems(a);
    var i :| 0 <= i < |b| && b[i] == x;
    var j :| 0 <= j < |a| && a[j] == y;
  }

  lemma SameReport(N: Network, h: seq<Block>, a: seq<DomainId>, b: seq<DomainId>)
    requires h != [] && GcOf(N, h, a) && GcOf(N, h, b)
    ensures a == b
  {
    hide GcOrder, Elems, Expired, LedgerAt;
    SameOrder(LedgerAt(N, h), a, b);
  }

  /** The report is determined by the chain. */
  lemma {:induction false} GcLogUnique(N: Network, h: seq<Block>, from: nat, a: seq<DomainId>, b: seq<DomainId>)
    requires 0 < from <= |h| && GcLog(N, h, from, a) && GcLog(N, h, from, b)
    ensures a == b
    decreases |h|
  {
    if |h| > from {
      hide GcOf, LedgerAt;
      var front := h[..|h| - 1];
      var j: nat :| j <= |a| && GcLog(N, front, from, a[..j]) && GcOf(N, front, a[j..]);
      var k: nat :| k <= |b| && GcLog(N, front, from, b[..k]) && GcOf(N, front, b[k..]);
      SameReport(N, front, a[j..], b[k..]);
      GcLogUnique(N, front, from, a[..j], b[..k]);
      assert a == a[..j] + a[j..] && b == b[..k] + b[k..];
    }
  }

  // ----- anti-replay -----

  function Ids(N: Network, txs: seq<Transaction>): set<Word32> {
    set t | t in txs && N.txId(t).Some? :: N.txId(t).value
  }

  predicate Replayed(N: Network, index: map<Word32, U64>, b: Block) {
    exists id :: id in Ids(N, b.transactions) && id in index
  }

  /** id was last included at height k. */
  ghost predicate LastAt(N: Network, h: seq<Block>, id: Word32, k: nat) {
    && k < |h| && id in Ids(N, h[k].transactions)
    && forall j :: k < j < |h| ==> id !in Ids(N, h[j].transactions)
  }

  ghost predicate IndexEntry(N: Network, h: seq<Block>, index: map<Word32, U64>, id: Word32, k: nat) {
    (id in index && index[id] == k) <==> (LastAt(N, h, id, k) && k + REPLAY_WINDOW_BLOCKS >= |h|)
  }

  /** The index is the map from the ids of the last 256 blocks to their last inclusion height. */
  ghost predicate IndexOk(N: Network, h: seq<Block>, index: map<Word32, U64>) {
    forall id: Word32, k: nat :: IndexEntry(N, h, index, id, k)
  }

  /** No id in two blocks whose heights differ by 256 or less. */
  ghost predicate NoReplay(N: Network, h: seq<Block>) {
    forall i, j :: 0 <= i < j < |h| && j - i <= REPLAY_WINDOW_BLOCKS ==>
        Ids(N, h[i].transactions) !! Ids(N, h[j].transactions)
  }

  /** What a push leaves in the index: the block's ids at its height, minus what left the window. */
  function Recorded(N: Network, index: map<Word32, U64>, txs: seq<Transaction>, height: U64): map<Word32, U64> {
    Pruned(index + map id | id in Ids(N, txs) :: height, height)
  }

  function Pruned(index: map<Word32, U64>, height: U64): map<Word32, U64> {
    if height > REPLAY_WINDOW_BLOCKS then map id | id in index &&
        index[id] > height - REPLAY_WINDOW_BLOCKS :: index[id] else index
  }

  lemma IndexGrows(N: Network, h: seq<Block>, index: map<Word32, U64>, b: Block)
    requires HistoryOk(N, h) && N.genesis.transactions == []
    requires IndexOk(N, h, index) && b.header.height == |h|
    ensures IndexOk(N, h + [b], Recorded(N, index, b.transactions, |h|))
  {
    var g, next := h + [b], Recorded(N, index, b.transactions, |h|);
    forall id: Word32, k: nat ensures IndexEntry(N, g, next, id, k) {
      IndexEntryGrows(N, h, index, b, id, k);
    }
  }

  lemma IndexEntryGrows(N: Network, h: seq<Block>, index: map<Word32, U64>, b: Block, id: Word32, k: nat)
    requires HistoryOk(N, h) && N.genesis.transactions == []
    requires IndexOk(N, h, index) && b.header.height == |h|
    ensures IndexEntry(N, h + [b], Recorded(N, index, b.transactions, |h|), id, k)
  {
    hide IndexOk, HistoryOk, Ids;
    var g := h + [b];
    assert IndexEntry(N, h, index, id, k) by { LookUp(N, h, index, id, k); }
    if id in index { LookUp(N, h, index, id, index[id]); }
    NotInGenesis(N, h, id);
    if k < |h| {
      assert g[k] == h[k];
      assert LastAt(N, g, id, k) <==> LastAt(N, h, id, k) && id !in Ids(N, b.transactions) by {
        if LastAt(N, g, id, k) { assert forall j :: k < j < |h| ==> g[j] == h[j]; assert g[|h|] == b; }
      }
    } else if k == |h| {
      assert g[k] == b;
    }
  }

  lemma LookUp(N: Network, h: seq<Block>, index: map<Word32, U64>, id: Word32, k: nat)
    requires IndexOk(N, h, index)
    ensures IndexEntry(N, h, index, id, k)
  {
  }

  lemma NotInGenesis(N: Network, h: seq<Block>, id: Word32)
    requires HistoryOk(N, h) && N.genesis.transactions == []
    ensures !LastAt(N, h, id, 0) && id !in Ids(N, h[0].transactions)
  {
  }

  /** A block that the index lets through repeats no id of the last 256 blocks. */
  lemma NoReplayGrows(N: Network, h: seq<Block>, index: map<Word32, U64>, b: Block)
    requires IndexOk(N, h, index) && NoReplay(N, h) && !Replayed(N, index, b)
    ensures NoReplay(N, h + [b])
  {
    var g := h + [b];
    forall i, j | 0 <= i < j < |g|
        && j - i <= REPLAY_WINDOW_BLOCKS ensures Ids(N, g[i].transactions) !! Ids(N, g[j].transactions) {
      if j == |h| {
        forall id ensures id !in Ids(N, g[i].transactions) || id !in Ids(N, b.transactions) {
          if id in Ids(N, h[i].transactions) {
            var k := LastInclusion(N, h, id, i);
            LookUp(N, h, index, id, k);
          }
        }
      }
    }
  }

  lemma {:induction false} LastInclusion(N: Network, h: seq<Block>, id: Word32, i: nat) returns (k: nat)
    requires i < |h| && id in Ids(N, h[i].transactions)
    ensures i <= k && LastAt(N, h, id, k)
    decreases |h| - i
  {
    k := i;
    if j :| i < j < |h| && id in Ids(N, h[j].transactions) {
      k := LastInclusion(N, h, id, j);
    }
  }

  /** Protected ids, read off the history itself. */
  ghost predicate ReplayedIn(N: Network, h: seq<Block>, b: Block) {
    exists i, id :: 0 <= i < |h| && i + REPLAY_WINDOW_BLOCKS >= |h| && id in Ids(N, h[i].transactions) &&
        id in Ids(N, b.transactions)
  }

  lemma ReplayedByIndex(N: Network, h: seq<Block>, index: map<Word32, U64>, b: Block)
    requires IndexOk(N, h, index)
    ensures Replayed(N, index, b) <==> ReplayedIn(N, h, b)
  {
    if Replayed(N, index, b) {
      var id :| id in Ids(N, b.transactions) && id in index;
      LookUp(N, h, index, id, index[id]);
      assert id in Ids(N, h[index[id]].transactions);
    }
    if ReplayedIn(N, h, b) {
      var i, id :| 0 <= i < |h| && i + REPLAY_WINDOW_BLOCKS >= |h| && id in Ids(N, h[i].transactions)
          && id in Ids(N, b.transactions);
      var k := LastInclusion(N, h, id, i);
      LookUp(N, h, index, id, k);
    }
  }

  /** Two indexes of one history are equal. */
  lemma IndexUnique(N: Network, h: seq<Block>, a: map<Word32, U64>, b: map<Word32, U64>)
    requires IndexOk(N, h, a) && IndexOk(N, h, b)
    ensures a == b
  {
    forall id ensures id in a <==> id in b {
      if id in a { LookUp(N, h, a, id, a[id]); LookUp(N, h, b, id, a[id]); }
      if id in b { LookUp(N, h, a, id, b[id]); LookUp(N, h, b, id, b[id]); }
    }
    forall id | id in a ensures a[id] == b[id] {
      LookUp(N, h, a, id, a[id]);
      LookUp(N, h, b, id, a[id]);
    }
  }

  // ----- rebuilding the index -----

  /** Entries in order, skipping heights outside the window of the tip; a later entry overrides. */
  function Rebuilt(entries: seq<(Word32, U64)>, index: map<Word32, U64>, tip: U64): map<Word32, U64>
    decreases |entries|
  {
    if entries == [] then index
    else
      var before := Rebuilt(entries[..|entries| - 1], index, tip);
      var (id, height) := entries[|entries| - 1];
      if height > tip || height <= SaturatingSub(tip, REPLAY_WINDOW_BLOCKS) then before else before[id := height]
  }

  /** Taken from this chain. */
  ghost predicate FromChain(N: Network, h: seq<Block>, entries: seq<(Word32, U64)>) {
    forall e :: e in entries ==> e.1 < |h| && e.0 in Ids(N, h[e.1].transactions)
  }

  /** Every inclusion of the window is listed. */
  ghost predicate CoversWindow(N: Network, h: seq<Block>, entries: seq<(Word32, U64)>) {
    forall k: U64, id :: k < |h| && k + REPLAY_WINDOW_BLOCKS >= |h| && id in Ids(N, h[k].transactions) ==> (id, k) in entries
  }

  /** The rebuilt index maps exactly the listed window inclusions. */
  ghost predicate RebuiltEntry(entries: seq<(Word32, U64)>, index: map<Word32, U64>, tip: U64, e: (Word32, U64)) {
    (e.0 in index && index[e.0] == e.1) <==> (e in entries && SaturatingSub(tip, REPLAY_WINDOW_BLOCKS) < e.1 <= tip)
  }

  lemma {:induction false} RebuiltIs(N: Network, h: seq<Block>, entries: seq<(Word32, U64)>, tip: U64, e: (Word32, U64))
    requires NoReplay(N, h) && FromChain(N, h, entries) && |h| == tip + 1
    ensures RebuiltEntry(entries, Rebuilt(entries, map[], tip), tip, e)
    decreases |entries|
  {
    if entries != [] {
      var front, last := entries[..|entries| - 1], entries[|entries| - 1];
      hide NoReplay, FromChain, Rebuilt, RebuiltEntry;
      assert FromChain(N, h, front) by { Listed(N, h, entries, last); }
      RebuiltIs(N, h, front, tip, e);
      RebuiltIs(N, h, front, tip, (last.0, e.1));
      RebuiltLast(N, h, entries, tip, e);
    }
  }

  lemma Listed(N: Network, h: seq<Block>, entries: seq<(Word32, U64)>, e: (Word32, U64))
    requires FromChain(N, h, entries) && e in entries
    ensures e.1 < |h| && e.0 in Ids(N, h[e.1].transactions) && FromChain(N, h, entries[..|entries| - 1])
  {
  }

  lemma RebuiltLast(N: Network, h: seq<Block>, entries: seq<(Word32, U64)>, tip: U64, e: (Word32, U64))
    requires NoReplay(N, h) && FromChain(N, h, entries) && |h| == tip + 1 && entries != []
    requires RebuiltEntry(entries[..|entries| - 1], Rebuilt(entries[..|entries| - 1], map[], tip), tip, e)
    ensures RebuiltEntry(entries, Rebuilt(entries, map[], tip), tip, e)
  {
    hide NoReplay, FromChain;
    var front, last := entries[..|entries| - 1], entries[|entries| - 1];
    assert e in entries <==> e in front || e == last;
    Listed(N, h, entries, last);
    var cutoff := SaturatingSub(tip, REPLAY_WINDOW_BLOCKS);
    if e in front && e.0 == last.0 && cutoff < e.1 <= tip && cutoff < last.1 {
      Listed(N, h, entries, e);
      SameInclusion(N, h, last.0, e.1, last.1);
    }
  }

  lemma SameInclusion(N: Network, h: seq<Block>, id: Word32, j: nat, k: nat)
    requires NoReplay(N, h) && j < |h| && k < |h| && -256 <= j - k <= 256
    requires id in Ids(N, h[j].transactions) && id in Ids(N, h[k].transactions)
    ensures j == k
  {
  }

  /** From any list of inclusions that covers the window, the rebuilt index is the one pushing would have left. */
  lemma RebuildRestoresIndex(N: Network, h: seq<Block>, entries: seq<(Word32, U64)>, tip: U64)
    requires HistoryOk(N, h) && N.genesis.transactions == [] && NoReplay(N, h) && |h| == tip + 1
    requires FromChain(N, h, entries) && CoversWindow(N, h, entries)
    ensures IndexOk(N, h, Rebuilt(entries, map[], tip))
  {
    hide NoReplay, Rebuilt, HistoryOk, Ids;
    var index := Rebuilt(entries, map[], tip);
    forall id: Word32, k: nat ensures IndexEntry(N, h, index, id, k) {
      NotInGenesis(N, h, id);
      if k <= tip {
        RebuiltIs(N, h, entries, tip, (id, k));
        if (id, k as U64) in entries && k + REPLAY_WINDOW_BLOCKS >= |h| {
          Listed(N, h, entries, (id, k));
          forall j | k < j < |h| ensures id !in Ids(N, h[j].transactions) {
            if id in Ids(N, h[j].transactions) { SameInclusion(N, h, id, k, j); }
          }
        }
      } else if id in index {
        RebuiltIs(N, h, entries, tip, (id, index[id]));
        Listed(N, h, entries, (id, index[id]));
      }
    }
  }

  /** So a node that restarted and a node that never stopped hold the same index. */
  lemma RebuiltIsLive(N: Network, h: seq<Block>, index: map<Word32, U64>, entries: seq<(Word32, U64)>, tip: U64)
    requires HistoryOk(N, h) && N.genesis.transactions == [] && NoReplay(N, h) && |h| == tip + 1
    requires FromChain(N, h, entries) && CoversWindow(N, h, entries) && IndexOk(N, h, index)
    ensures Rebuilt(entries, map[], tip) == index
  {
    hide IndexOk, HistoryOk, NoReplay, FromChain, CoversWindow, Rebuilt;
    RebuildRestoresIndex(N, h, entries, tip);
    IndexUnique(N, h, Rebuilt(entries, map[], tip), index);
  }

  // ----- the RAM window -----

  /** What is kept of a history whose window starts at base: everything, or genesis and the blocks from base on. */
  function WindowOf(h: seq<Block>, base: nat): seq<Block>
    requires base < |h|
  {
    if base == 0 then h else [h[0]] + h[base..]
  }

  ghost predicate HashesOk(N: Network, h: seq<Block>, base: nat, hashes: map<U64, Word32>) {
    && (forall k: U64 :: k in hashes <==> k < |h| && InRam(base, |h|, k))
    && (forall k: U64 :: k in hashes ==> hashes[k] == HashOf(N, h[k]))
  }

  /** Where the window starts after a push: never above the finality floor, and not at all without one. */
  function NextBase(base: nat, tip: nat, cps: seq<Checkpoint>): nat {
    if cps == [] then base
    else Max(base, Min(SaturatingSub(tip, RAM_WINDOW_BLOCKS - 1), cps[|cps| - 1].data.height))
  }

  /** Nothing at or above the floor is evicted, nothing before the first checkpoint, and once the floor
      is within 511 blocks of the tip at most 513 blocks stay. */
  lemma WindowBounds(h: seq<Block>, base: nat, cps: seq<Checkpoint>)
    requires base < |h|
    ensures var next := NextBase(base, |h| - 1, cps);
            && base <= next < |h|
            && (cps == [] ==> next == base)
            && (cps != [] ==> forall k: nat :: InRam(base, |h|, k) && k >= cps[|cps| - 1].data.height ==> InRam(next, |h|, k))
            && (forall k: nat :: k + 512 >= |h| && InRam(base, |h|, k) ==> InRam(next, |h|, k))
            && (cps != [] && cps[|cps| - 1].data.height + 512 >= |h| ==> |WindowOf(h, next)| <= 513)
  {
  }
}
