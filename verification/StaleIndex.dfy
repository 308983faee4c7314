/** The anti-replay index after a reorg, which keeps the index of the chain it leaves
    (crates/scone-blockchain/src/fork_choice.rs): when it is still right, what it lets through, and when it heals. */
module StaleIndex {
  import opened Prelude
  import opened Ledger
  import opened Blocks
  import opened History
  import opened ForkChoice

  function IdsAt(N: Network, h: seq<Block>, k: nat): set<Word32>
    requires k < |h|
  {
    Ids(N, h[k].transactions)
  }

  /** id was included at height k, and k is among the last 256 blocks. */
  ghost predicate Windowed(N: Network, h: seq<Block>, id: Word32, k: nat) {
    k < |h| && k + REPLAY_WINDOW_BLOCKS >= |h| && id in IdsAt(N, h, k)
  }

  lemma EntryIsLast(N: Network, h: seq<Block>, index: map<Word32, U64>, id: Word32, k: nat)
    requires IndexOk(N, h, index)
    ensures (id in index && index[id] == k) <==> Windowed(N, h, id, k) && LastAt(N, h, id, k)
  {
    LookUp(N, h, index, id, k);
  }

  // ----- when the kept index is still right -----

  /** Replacing the tip keeps the index right exactly when the two blocks include the same ids. */
  lemma SisterKeepsIndex(N: Network, h: seq<Block>, index: map<Word32, U64>, b: Block)
    requires IndexOk(N, h, index) && |h| > 1
    ensures IndexOk(N, Branched(h, |h| - 2, [b]), index) <==> Ids(N, TipOf(h).transactions) == Ids(N, b.transactions)
  {
    hide IndexOk, Ids;
    var g, top := Branched(h, |h| - 2, [b]), |h| - 1;
    assert g[top] == b && forall k :: 0 <= k < top ==> g[k] == h[k];
    if IndexOk(N, g, index) {
      forall id ensures id in Ids(N, h[top].transactions) <==> id in Ids(N, b.transactions) {
        EntryIsLast(N, h, index, id, top);
        EntryIsLast(N, g, index, id, top);
      }
    }
    if Ids(N, h[top].transactions) == Ids(N, b.transactions) {
      forall id, k: nat ensures IndexEntry(N, g, index, id, k) {
        LookUp(N, h, index, id, k);
        SameIdsSameLast(N, h, g, id, k);
      }
      AllEntries(N, g, index);
    }
  }

  lemma SameIdsSameLast(N: Network, h: seq<Block>, g: seq<Block>, id: Word32, k: nat)
    requires |h| == |g| && forall j :: 0 <= j < |h| ==> IdsAt(N, h, j) == IdsAt(N, g, j)
    ensures LastAt(N, h, id, k) <==> LastAt(N, g, id, k)
  {
    if LastAt(N, h, id, k) {
      assert IdsAt(N, h, k) == IdsAt(N, g, k);
      forall j | k < j < |g| ensures id !in Ids(N, g[j].transactions) { assert IdsAt(N, h, j) == IdsAt(N, g, j); }
    }
    if LastAt(N, g, id, k) {
      assert IdsAt(N, h, k) == IdsAt(N, g, k);
      forall j | k < j < |h| ensures id !in Ids(N, h[j].transactions) { assert IdsAt(N, h, j) == IdsAt(N, g, j); }
    }
  }

  lemma AllEntries(N: Network, h: seq<Block>, index: map<Word32, U64>)
    requires forall id: Word32, k: nat :: IndexEntry(N, h, index, id, k)
    ensures IndexOk(N, h, index)
  {
  }

  /** On a chain without replays an inclusion in the window is the last one of its id. */
  lemma WindowedIsLast(N: Network, h: seq<Block>, id: Word32, k: nat)
    requires NoReplay(N, h)
    ensures Windowed(N, h, id, k) <==> LastAt(N, h, id, k) && k + REPLAY_WINDOW_BLOCKS >= |h|
  {
    if Windowed(N, h, id, k) {
      forall j | k < j < |h| ensures id !in Ids(N, h[j].transactions) {
        assert Ids(N, h[k].transactions) !! Ids(N, h[j].transactions);
      }
    }
  }

  /** Old blocks that leave the window because the chain grows. */
  ghost predicate NothingLeaves(N: Network, h: seq<Block>, g: seq<Block>) {
    forall k :: 0 <= k < |h| && |h| <= k + REPLAY_WINDOW_BLOCKS < |g| ==> IdsAt(N, h, k) == {}
  }

  /** Replaced blocks still in the window, height by height. */
  ghost predicate ReplacedAlike(N: Network, h: seq<Block>, fork: nat, g: seq<Block>) {
    forall k :: fork < k < |h| && k < |g| && k + REPLAY_WINDOW_BLOCKS >= |g| ==> IdsAt(N, h, k) == IdsAt(N, g, k)
  }

  /** Blocks above the old tip. */
  ghost predicate NothingAdded(N: Network, h: seq<Block>, g: seq<Block>) {
    forall k :: |h| <= k < |g| && k + REPLAY_WINDOW_BLOCKS >= |g| ==> IdsAt(N, g, k) == {}
  }

  /** Switching to a branch keeps the index right exactly when the blocks that leave the window include
      nothing, the replaced ones include the same ids height by height, and the added ones include nothing. */
  lemma BranchKeepsIndex(N: Network, h: seq<Block>, fork: nat, blocks: seq<Block>, index: map<Word32, U64>)
    requires fork < |h| && |h| <= |Branched(h, fork, blocks)| && IndexOk(N, h, index)
    requires NoReplay(N, h) && NoReplay(N, Branched(h, fork, blocks))
    ensures var g := Branched(h, fork, blocks);
            IndexOk(N, g, index) <==> NothingLeaves(N, h, g) && ReplacedAlike(N, h, fork, g) && NothingAdded(N, h, g)
  {
    hide IndexOk, NoReplay, Ids, LastAt;
    var g := Branched(h, fork, blocks);
    assert forall k :: 0 <= k <= fork ==> g[k] == h[k];
    if IndexOk(N, g, index) {
      forall id, k: nat ensures Windowed(N, h, id, k) <==> Windowed(N, g, id, k) {
        SameEntry(N, h, g, index, id, k);
      }
      WindowsAgree(N, h, fork, g);
    }
    if NothingLeaves(N, h, g) && ReplacedAlike(N, h, fork, g) && NothingAdded(N, h, g) {
      forall id, k: nat ensures IndexEntry(N, g, index, id, k) {
        assert Windowed(N, h, id, k) <==> Windowed(N, g, id, k);
        WindowedIsLast(N, h, id, k);
        WindowedIsLast(N, g, id, k);
        LookUp(N, h, index, id, k);
      }
      AllEntries(N, g, index);
    }
  }

  lemma SameEntry(N: Network, h: seq<Block>, g: seq<Block>, index: map<Word32, U64>, id: Word32, k: nat)
    requires IndexOk(N, h, index) && IndexOk(N, g, index) && NoReplay(N, h) && NoReplay(N, g)
    ensures Windowed(N, h, id, k) <==> Windowed(N, g, id, k)
  {
    hide IndexOk, NoReplay, LastAt, Ids;
    WindowedIsLast(N, h, id, k);
    WindowedIsLast(N, g, id, k);
    LookUp(N, h, index, id, k);
    LookUp(N, g, index, id, k);
  }

  lemma WindowsAgree(N: Network, h: seq<Block>, fork: nat, g: seq<Block>)
    requires |h| <= |g| && forall id, k: nat :: Windowed(N, h, id, k) <==> Windowed(N, g, id, k)
    ensures NothingLeaves(N, h, g) && ReplacedAlike(N, h, fork, g) && NothingAdded(N, h, g)
  {
    hide Ids;
    forall k: nat | k < |h| && |h| <= k + REPLAY_WINDOW_BLOCKS < |g| ensures IdsAt(N, h, k) == {} {
      forall id ensures id !in IdsAt(N, h, k) { assert Windowed(N, h, id, k) <==> Windowed(N, g, id, k); }
    }
    forall k: nat | fork < k < |h| && k < |g| && k + REPLAY_WINDOW_BLOCKS >= |g| ensures IdsAt(N, h, k) == IdsAt(N, g, k) {
      forall id ensures id in IdsAt(N, h, k) <==> id in IdsAt(N, g, k) {
        assert Windowed(N, h, id, k) <==> Windowed(N, g, id, k);
      }
    }
    forall k: nat | |h| <= k < |g| && k + REPLAY_WINDOW_BLOCKS >= |g| ensures IdsAt(N, g, k) == {} {
      forall id ensures id !in IdsAt(N, g, k) { assert Windowed(N, h, id, k) <==> Windowed(N, g, id, k); }
    }
  }

  /** One way it fails: an id only the replaced tip had included stays refused, although the new chain does
      not contain it. */
  lemma DroppedIdStaysRefused(N: Network, h: seq<Block>, index: map<Word32, U64>, sister: Block, id: Word32)
    requires IndexOk(N, h, index) && |h| > 1 && id in Ids(N, TipOf(h).transactions) && id !in Ids(N, sister.transactions)
    requires forall j :: 0 <= j < |h| - 1 ==> id !in Ids(N, h[j].transactions)
    ensures var g := Branched(h, |h| - 2, [sister]);
            && id in index && !IndexOk(N, g, index)
            && forall j :: 0 <= j < |g| ==> id !in Ids(N, g[j].transactions)
  {
    hide IndexOk, Ids;
    EntryIsLast(N, h, index, id, |h| - 1);
    SisterKeepsIndex(N, h, index, sister);
  }

  /** The other way: an id that only the adopted branch included is let through, and the chain repeats it. */
  lemma AdoptedIdIsLetThrough(N: Network, h: seq<Block>, fork: nat, blocks: seq<Block>, index: map<Word32, U64>,
      id: Word32, k: nat, b: Block)
    requires fork < |h| && IndexOk(N, h, index) && Windowed(N, Branched(h, fork, blocks), id, k)
    requires (forall j: nat :: !Windowed(N, h, id, j)) && Ids(N, b.transactions) == {id}
    ensures var g := Branched(h, fork, blocks);
            !Replayed(N, index, b) && ReplayedIn(N, g, b) && !NoReplay(N, g + [b])
  {
    hide IndexOk, Ids;
    var g := Branched(h, fork, blocks);
    if id in index { EntryIsLast(N, h, index, id, index[id]); }
    var next := g + [b];
    assert next[k] == g[k] && next[|g|] == b;
    assert id in Ids(N, next[k].transactions) && id in Ids(N, next[|g|].transactions);
  }

  // ----- pushing after a reorg -----

  /** The index knows every windowed id outside the heights the reorg brought in, from fork + 1 to top - 1. */
  ghost predicate Covers(N: Network, h: seq<Block>, fork: nat, top: nat, index: map<Word32, U64>) {
    forall id: Word32, k: nat {:trigger Windowed(N, h, id, k)} ::
      Windowed(N, h, id, k) && (k <= fork || top <= k) ==> id in index && index[id] >= k
  }

  /** What a right index still covers after the switch. */
  lemma CoversAfterReorg(N: Network, h: seq<Block>, fork: nat, blocks: seq<Block>, index: map<Word32, U64>)
    requires fork < |h| && |h| <= |Branched(h, fork, blocks)| && IndexOk(N, h, index)
    ensures Covers(N, Branched(h, fork, blocks), fork, |Branched(h, fork, blocks)|, index)
  {
    hide IndexOk, Ids;
    var g := Branched(h, fork, blocks);
    forall id: Word32, k: nat | Windowed(N, g, id, k) && (k <= fork || |g| <= k) ensures id in index && index[id] >= k {
      assert g[k] == h[k];
      var last := LastInclusion(N, h, id, k);
      EntryIsLast(N, h, index, id, last);
    }
  }

  lemma CoversGrows(N: Network, g: seq<Block>, fork: nat, top: nat, index: map<Word32, U64>, b: Block)
    requires Covers(N, g, fork, top, index) && top <= |g| == b.header.height
    ensures Covers(N, g + [b], fork, top, Recorded(N, index, b.transactions, b.header.height))
  {
    hide Ids;
    var next := Recorded(N, index, b.transactions, b.header.height);
    forall id: Word32, k: nat | Windowed(N, g + [b], id, k) && (k <= fork || top <= k) ensures id in next && next[id] >= k {
      if k < |g| {
        assert (g + [b])[k] == g[k];
        assert Windowed(N, g, id, k);
      } else {
        assert (g + [b])[k] == b;
      }
    }
  }

  /** The blocks the reorg brought in that are within 256 heights of the next block. */
  ghost predicate AvoidsBranch(N: Network, g: seq<Block>, fork: nat, top: nat, b: Block) {
    forall k :: fork < k < top && k < |g| && k + REPLAY_WINDOW_BLOCKS >= |g| ==> IdsAt(N, g, k) !! Ids(N, b.transactions)
  }

  /** A block the kept index admits repeats nothing exactly when it repeats nothing of the adopted branch. */
  lemma PushAfterReorg(N: Network, g: seq<Block>, fork: nat, top: nat, index: map<Word32, U64>, b: Block)
    requires Covers(N, g, fork, top, index) && NoReplay(N, g) && !Replayed(N, index, b)
    ensures NoReplay(N, g + [b]) <==> AvoidsBranch(N, g, fork, top, b)
  {
    hide Ids;
    var next := g + [b];
    if NoReplay(N, next) {
      forall k | fork < k < top && k < |g| && k + REPLAY_WINDOW_BLOCKS >= |g|
        ensures IdsAt(N, g, k) !! Ids(N, b.transactions)
      {
        assert next[k] == g[k] && next[|g|] == b;
        assert Ids(N, next[k].transactions) !! Ids(N, next[|g|].transactions);
      }
    }
    if AvoidsBranch(N, g, fork, top, b) {
      forall i, j | 0 <= i < j < |next| && j - i <= REPLAY_WINDOW_BLOCKS
        ensures Ids(N, next[i].transactions) !! Ids(N, next[j].transactions)
      {
        if j < |g| {
          assert Ids(N, g[i].transactions) !! Ids(N, g[j].transactions);
        } else {
          assert next[i] == g[i] && next[j] == b;
          if !(fork < i < top) {
            forall id ensures id !in Ids(N, g[i].transactions) || id !in Ids(N, b.transactions) {
              if id in Ids(N, g[i].transactions) { assert Windowed(N, g, id, i); }
            }
          } else {
            assert IdsAt(N, g, i) !! Ids(N, b.transactions);
          }
        }
      }
    }
  }

  // ----- whole runs of pushes -----

  /** The index after pushing these blocks one after the other. */
  function IndexAfter(N: Network, index: map<Word32, U64>, blocks: seq<Block>): map<Word32, U64> {
    if blocks == [] then index
    else
      var last := blocks[|blocks| - 1];
      Recorded(N, IndexAfter(N, index, blocks[..|blocks| - 1]), last.transactions, last.header.height)
  }

  /** Every block was admitted by the index it met. */
  ghost predicate Admitted(N: Network, index: map<Word32, U64>, blocks: seq<Block>) {
    forall j :: 0 <= j < |blocks| ==> AdmittedAt(N, index, blocks, j)
  }

  ghost predicate AdmittedAt(N: Network, index: map<Word32, U64>, blocks: seq<Block>, j: nat)
    requires j < |blocks|
  {
    !Replayed(N, IndexAfter(N, index, blocks[..j]), blocks[j])
  }

  ghost predicate HeightsFrom(start: nat, blocks: seq<Block>) {
    forall j :: 0 <= j < |blocks| ==> blocks[j].header.height == start + j
  }

  /** Pushed block j repeats nothing of the adopted blocks within 256 heights below it. */
  ghost predicate Avoids(N: Network, g: seq<Block>, fork: nat, blocks: seq<Block>, j: nat)
    requires j < |blocks|
  {
    forall k :: fork < k < |g| && k + REPLAY_WINDOW_BLOCKS >= |g| + j ==> IdsAt(N, g, k) !! Ids(N, blocks[j].transactions)
  }

  lemma {:induction false} CoversRun(N: Network, g: seq<Block>, fork: nat, index: map<Word32, U64>, blocks: seq<Block>)
    requires Covers(N, g, fork, |g|, index) && HeightsFrom(|g|, blocks)
    ensures Covers(N, g + blocks, fork, |g|, IndexAfter(N, index, blocks))
    decreases |blocks|
  {
    hide Covers, Recorded;
    if blocks == [] {
      assert g + blocks == g;
    } else {
      var front, last := blocks[..|blocks| - 1], blocks[|blocks| - 1];
      CoversRun(N, g, fork, index, front);
      CoversGrows(N, g + front, fork, |g|, IndexAfter(N, index, front), last);
      assert g + front + [last] == g + blocks;
    }
  }

  /** Over any run of pushes after a reorg the chain repeats no id within 256 blocks exactly when no pushed
      block repeats an id of the adopted branch. */
  lemma {:induction false} RunAfterReorg(N: Network, g: seq<Block>, fork: nat, index: map<Word32, U64>, blocks: seq<Block>)
    requires Covers(N, g, fork, |g|, index) && NoReplay(N, g) && HeightsFrom(|g|, blocks) && Admitted(N, index, blocks)
    ensures NoReplay(N, g + blocks) <==> forall j :: 0 <= j < |blocks| ==> Avoids(N, g, fork, blocks, j)
    decreases |blocks|
  {
    hide Covers, NoReplay, Replayed, Ids;
    if blocks == [] {
      assert g + blocks == g;
    } else {
      var n := |blocks| - 1;
      var front, last := blocks[..n], blocks[n];
      assert AdmittedAt(N, index, blocks, n);
      forall j | 0 <= j < n
        ensures AdmittedAt(N, index, front, j) && (Avoids(N, g, fork, front, j) <==> Avoids(N, g, fork, blocks, j))
      {
        assert AdmittedAt(N, index, blocks, j) && front[..j] == blocks[..j];
      }
      RunAfterReorg(N, g, fork, index, front);
      CoversRun(N, g, fork, index, front);
      assert g + front + [last] == g + blocks;
      NoReplayPrefix(N, g + front, last);
      if NoReplay(N, g + front) {
        PushAfterReorg(N, g + front, fork, |g|, IndexAfter(N, index, front), last);
        LastAvoids(N, g, fork, front, last, blocks);
      }
    }
  }

  lemma NoReplayPrefix(N: Network, g: seq<Block>, b: Block)
    ensures NoReplay(N, g + [b]) ==> NoReplay(N, g)
  {
    var next := g + [b];
    if NoReplay(N, next) {
      forall i, j | 0 <= i < j < |g| && j - i <= REPLAY_WINDOW_BLOCKS
        ensures Ids(N, g[i].transactions) !! Ids(N, g[j].transactions)
      {
        assert Ids(N, next[i].transactions) !! Ids(N, next[j].transactions);
      }
    }
  }

  lemma LastAvoids(N: Network, g: seq<Block>, fork: nat, front: seq<Block>, last: Block, blocks: seq<Block>)
    requires blocks == front + [last]
    ensures AvoidsBranch(N, g + front, fork, |g|, last) <==> Avoids(N, g, fork, blocks, |front|)
  {
    hide Ids;
    assert forall k :: 0 <= k < |g| ==> (g + front)[k] == g[k];
    if AvoidsBranch(N, g + front, fork, |g|, last) {
      forall k | fork < k < |g| && k + REPLAY_WINDOW_BLOCKS >= |g| + |front|
        ensures IdsAt(N, g, k) !! Ids(N, last.transactions)
      {
        assert IdsAt(N, g + front, k) == IdsAt(N, g, k);
      }
    }
    if Avoids(N, g, fork, blocks, |front|) {
      forall k | fork < k < |g| && k + REPLAY_WINDOW_BLOCKS >= |g + front|
        ensures IdsAt(N, g + front, k) !! Ids(N, last.transactions)
      {
        assert IdsAt(N, g + front, k) == IdsAt(N, g, k);
      }
    }
  }

  // ----- healing -----

  /** Right for every inclusion from height `start` on. */
  ghost predicate RightFrom(N: Network, h: seq<Block>, index: map<Word32, U64>, start: nat) {
    forall id: Word32, k: nat {:trigger IndexEntry(N, h, index, id, k)} :: k >= start ==> IndexEntry(N, h, index, id, k)
  }

  /** All entries lie in the window or below `start`; once the chain is long enough, in the window. */
  ghost predicate InWindow(h: seq<Block>, index: map<Word32, U64>, start: nat) {
    forall id :: id in index ==>
      && index[id] < |h|
      && (|h| > start && |h| > REPLAY_WINDOW_BLOCKS + 1 ==> index[id] + REPLAY_WINDOW_BLOCKS >= |h|)
  }

  lemma RightFromGrows(N: Network, g: seq<Block>, index: map<Word32, U64>, start: nat, b: Block)
    requires RightFrom(N, g, index, start) && InWindow(g, index, start) && 0 < start <= |g| == b.header.height
    ensures RightFrom(N, g + [b], Recorded(N, index, b.transactions, b.header.height), start)
    ensures InWindow(g + [b], Recorded(N, index, b.transactions, b.header.height), start)
  {
    hide Ids;
    var next, h := Recorded(N, index, b.transactions, b.header.height), g + [b];
    forall id: Word32, k: nat | k >= start ensures IndexEntry(N, h, next, id, k) {
      RightEntryGrows(N, g, index, start, b, id, k);
    }
  }

  lemma RightEntryGrows(N: Network, g: seq<Block>, index: map<Word32, U64>, start: nat, b: Block, id: Word32, k: nat)
    requires RightFrom(N, g, index, start) && 0 < start <= k && start <= |g| == b.header.height
    ensures IndexEntry(N, g + [b], Recorded(N, index, b.transactions, b.header.height), id, k)
  {
    hide RightFrom, Ids;
    assert IndexEntry(N, g, index, id, k) by { RightLookUp(N, g, index, start, id, k); }
    var h := g + [b];
    if k < |g| {
      assert h[k] == g[k];
      assert LastAt(N, h, id, k) <==> LastAt(N, g, id, k) && id !in Ids(N, b.transactions) by {
        if LastAt(N, h, id, k) { assert forall j :: k < j < |g| ==> h[j] == g[j]; assert h[|g|] == b; }
      }
    } else if k == |g| {
      assert h[k] == b;
      if id in index { RightLookUp(N, g, index, start, id, k); }
    }
    if id in index && index[id] >= start { RightLookUp(N, g, index, start, id, index[id]); }
  }

  lemma RightLookUp(N: Network, h: seq<Block>, index: map<Word32, U64>, start: nat, id: Word32, k: nat)
    requires RightFrom(N, h, index, start) && k >= start
    ensures IndexEntry(N, h, index, id, k)
  {
  }

  lemma {:induction false} RightRun(N: Network, g: seq<Block>, index: map<Word32, U64>, blocks: seq<Block>)
    requires |g| >= 2 && HeightsFrom(|g|, blocks) && forall id :: id in index ==> index[id] < |g|
    ensures RightFrom(N, g + blocks, IndexAfter(N, index, blocks), |g|)
    ensures InWindow(g + blocks, IndexAfter(N, index, blocks), |g|)
    decreases |blocks|
  {
    if blocks == [] {
      assert g + blocks == g;
    } else {
      hide Recorded, RightFrom, InWindow;
      var front, last := blocks[..|blocks| - 1], blocks[|blocks| - 1];
      RightRun(N, g, index, front);
      RightFromGrows(N, g + front, IndexAfter(N, index, front), |g|, last);
      assert g + front + [last] == g + blocks;
    }
  }

  /** Whatever index the chain carries, after 256 more pushes it is the right one again. */
  lemma IndexHeals(N: Network, g: seq<Block>, index: map<Word32, U64>, blocks: seq<Block>)
    requires |g| >= 2 && HeightsFrom(|g|, blocks) && |blocks| >= REPLAY_WINDOW_BLOCKS
    requires forall id :: id in index ==> index[id] < |g|
    ensures IndexOk(N, g + blocks, IndexAfter(N, index, blocks))
  {
    hide RightFrom, IndexAfter, Ids;
    RightRun(N, g, index, blocks);
    var h, next := g + blocks, IndexAfter(N, index, blocks);
    forall id: Word32, k: nat ensures IndexEntry(N, h, next, id, k) {
      if k >= |g| { RightLookUp(N, h, next, |g|, id, k); }
    }
    AllEntries(N, h, next);
  }
}
