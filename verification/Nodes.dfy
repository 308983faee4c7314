/** Two nodes side by side: the same branches lead to the same tip, and the same finalized base to the same
    next checkpoint (crates/scone-blockchain/src/fork_choice.rs, finality.rs). */
module Nodes {
  import opened Prelude
  import opened Checkpoints
  import opened Ledger
  import opened Quorum
  import opened Blocks
  import opened Finality
  import opened History
  import opened ForkChoice
  import opened Signer
  import opened Agreement
  import opened Chain

  // ----- the same branches -----

  /** Whole branches, each from the first block after genesis. */
  ghost predicate FromGenesis(offers: seq<seq<Block>>) {
    forall b: seq<Block> :: b in offers && b != [] ==> b[0].header.height == 1
  }

  /** Offers the branches one after the other to a node without checkpoints. */
  method OfferBranches(node: Blockchain, offers: seq<seq<Block>>)
    requires node.Valid() && node.checkpoints == [] && FromGenesis(offers)
    modifies node
    ensures node.Valid() && node.checkpoints == [] && old(node.history) != []
    ensures node.history == OfferAll(node.N, old(node.history), offers)
  {
    hide Blockchain.Valid, Adoptable, Offer, OfferAll, FromGenesis, NetworkOk, HistoryOk, Branched,
        BranchVerdict, Outweighs, OnHistory, Better, KeepsCheckpoints, NoReplay, IndexOk, LedgerAt;
    NodeBasics(node);
    ghost var start := node.history;
    NoOffers(node.N, start);
    var i := 0;
    while i < |offers|
      invariant 0 <= i <= |offers|
      invariant node.Valid() && node.checkpoints == []
      invariant node.history == OfferAll(node.N, start, offers[..i])
    {
      NodeBasics(node);
      OfferIsAdoption(node.N, node.history, node.baseHeight, offers, i);
      OneMoreOffer(node.N, start, offers, i);
      var error, adopted := node.AdoptBranch(offers[i]);
      i := i + 1;
    }
    assert offers[..i] == offers;
  }

  lemma NodeBasics(node: Blockchain)
    requires node.Valid()
    ensures NetworkOk(node.N) && HistoryOk(node.N, node.history) && node.history != []
    ensures node.tip == HashOf(node.N, TipOf(node.history))
    ensures node.checkpoints == [] ==> node.finalized == None
    ensures node.finalized == None ==> node.checkpoints == []
  {
    hide NetworkOk, HashesOk, WindowOf, LinkOk;
    node.Basics();
  }

  lemma NoOffers(N: Network, h: seq<Block>)
    requires h != []
    ensures OfferAll(N, h, []) == h
  {
  }

  lemma OfferIsAdoption(N: Network, h: seq<Block>, base: nat, offers: seq<seq<Block>>, i: nat)
    requires NetworkOk(N) && HistoryOk(N, h) && h != [] && FromGenesis(offers) && i < |offers|
    ensures Offer(N, h, offers[i]) == if Adoptable(N, h, base, [], None, offers[i]) then Branched(h, 0, offers[i]) else h
    ensures Adoptable(N, h, base, [], None, offers[i]) ==> offers[i] != [] && offers[i][0].header.height == 1
  {
    hide Adoptable, Offer, HistoryOk, NetworkOk;
    AdoptingIsOffering(N, h, base, offers[i]);
    NothingAdopted(N, h, base, [], None);
  }

  lemma {:induction false} OneMoreOffer(N: Network, h: seq<Block>, offers: seq<seq<Block>>, i: nat)
    requires h != [] && i < |offers|
    ensures OfferAll(N, h, offers[..i + 1]) == Offer(N, OfferAll(N, h, offers[..i]), offers[i])
    decreases i
  {
    hide Offer;
    var upTo := offers[..i + 1];
    if i > 0 {
      OneMoreOffer(N, Offer(N, h, offers[0]), offers[1..], i - 1);
      assert upTo[1..] == offers[1..][..i] && offers[..i][1..] == offers[1..][..i - 1];
    } else {
      assert upTo[1..] == [];
    }
  }

  /** Two nodes without checkpoints that start at one tip and are offered the same branches, in any order and
      any number of times, end at one tip. */
  method MeetAtTheBest(a: Blockchain, b: Blockchain, offers: seq<seq<Block>>, offers': seq<seq<Block>>)
    requires a != b && a.Valid() && b.Valid() && a.N == b.N && a.checkpoints == [] && b.checkpoints == []
    requires |a.history| == |b.history| && a.tip == b.tip
    requires FromGenesis(offers) && FromGenesis(offers') && forall x :: x in offers <==> x in offers'
    modifies a, b
    ensures a.Valid() && b.Valid() && |a.history| == |b.history| && a.tip == b.tip
  {
    hide *;
    NodeBasics(a);
    NodeBasics(b);
    Convergence(a.N, a.history, b.history, offers, offers');
    OfferBranches(a, offers);
    OfferBranches(b, offers');
    NodeBasics(a);
    NodeBasics(b);
  }

  // ----- the same base -----

  /** Who may be faulty in the committee of one round, and what is asked of the others for two contents. */
  ghost predicate MostlyGuarded(N: Network, validKey: PublicKey -> bool, guards: map<PublicKey, Life>,
      committee: seq<PublicKey>, a: CheckpointData, b: CheckpointData) {
    && |Unguarded(committee, guards)| <= MaxFaulty(|committee|)
    && forall k :: k in committee && k in guards ==>
         && OnlyThroughGuard(N.rules.crypto, validKey, guards[k], k)
         && HashNamesEpoch(N.rules.crypto, guards[k], k, a) && HashNamesEpoch(N.rules.crypto, guards[k], k, b)
  }

  /** Certificates of committees elected in one round of one base certify one content. */
  lemma OneRoundOneContent(N: Network, fin: Option<FinalizedBase>, l: Ledger, l': Ledger, recovery: nat,
      validKey: PublicKey -> bool, guards: map<PublicKey, Life>,
      committee: seq<PublicKey>, a: Checkpoint, committee': seq<PublicKey>, b: Checkpoint)
    requires fin.Some? || Pool(l) == Pool(l')
    requires Elected(N, fin, l, recovery, committee) && Elected(N, fin, l', recovery, committee')
    requires Certified(N, committee, a) && Certified(N, committee', b) && a.data.epoch == b.data.epoch
    requires MostlyGuarded(N, validKey, guards, committee, a.data, b.data)
    ensures N.rules.crypto.signingHash(a.data) == N.rules.crypto.signingHash(b.data)
  {
    hide Elected, HasQuorum, OnlyThroughGuard, HashNamesEpoch, Unguarded;
    SamePoolElects(N, fin, l, l', recovery, committee');
    ElectedUnique(N, fin, l, recovery, committee, committee');
    ElectedDistinct(N, fin, l, recovery, committee);
    Agreement.Agreement(N.rules.crypto, validKey, committee, guards, a, b);
  }

  lemma SamePoolElects(N: Network, fin: Option<FinalizedBase>, l: Ledger, l': Ledger, recovery: nat,
      committee: seq<PublicKey>)
    requires fin.Some? || Pool(l) == Pool(l')
    ensures Elected(N, fin, l, recovery, committee) <==> Elected(N, fin, l', recovery, committee)
  {
  }

  lemma ElectedDistinct(N: Network, fin: Option<FinalizedBase>, l: Ledger, recovery: nat, committee: seq<PublicKey>)
    requires Elected(N, fin, l, recovery, committee)
    ensures Distinct(committee)
  {
  }

  /** Two nodes on one base each accept a checkpoint of one recovery round: they certify the same content,
      whatever the tips they hold. */
  method AcceptApart(x: Blockchain, y: Blockchain, a: Checkpoint, b: Checkpoint, ghost validKey: PublicKey -> bool,
      ghost guards: map<PublicKey, Life>) returns (both: bool)
    requires x != y && x.Valid() && y.Valid() && x.N == y.N && x.finalized == y.finalized
    requires x.finalized.Some? || Pool(LedgerAt(x.N, x.history)) == Pool(LedgerAt(y.N, y.history))
    requires a.data.recovery == b.data.recovery
    requires forall committee :: Elected(x.N, x.finalized, LedgerAt(x.N, x.history), a.data.recovery, committee) ==>
               MostlyGuarded(x.N, validKey, guards, committee, a.data, b.data)
    modifies x, y
    ensures x.Valid() && y.Valid()
    ensures both ==> x.finalized.Some? && x.finalized.value.checkpoint == a
    ensures both ==> y.finalized.Some? && y.finalized.value.checkpoint == b
    ensures both ==> x.N.rules.crypto.signingHash(a.data) == x.N.rules.crypto.signingHash(b.data)
  {
    hide *;
    ghost var fin, l, l' := x.finalized, LedgerAt(x.N, x.history), LedgerAt(y.N, y.history);
    var error, isNew, committee := x.AcceptCheckpoint(a);
    var error', isNew', committee' := y.AcceptCheckpoint(b);
    both := isNew && isNew';
    if both {
      OneRoundOneContent(x.N, fin, l, l', a.data.recovery, validKey, guards, committee, a, committee', b);
    }
  }
}
