/** Committees and quorum certificates: election, verification, intersection and accountability. */
module Quorum {
  import opened Prelude
  import opened Checkpoints

  const MIN_FINALITY_COMMITTEE_SIZE: nat := 4

  /** floor(2n/3) + 1 of the elected size. */
  function QuorumFor(n: nat): nat {
    (2 * n) / 3 + 1
  }

  /** The largest number of faulty members an n-member committee tolerates. */
  function MaxFaulty(n: nat): nat {
    if n == 0 then 0 else (n - 1) / 3
  }

  ghost function SetOf(s: seq<PublicKey>): set<PublicKey> {
    set k | k in s
  }

  // ----- election -----

  /** a ranks before b in the draw of this seed; ties, if any, by key. */
  predicate Precedes(c: Crypto, seed: Word32, a: PublicKey, b: PublicKey) {
    c.rank(seed, a) < c.rank(seed, b) || (c.rank(seed, a) == c.rank(seed, b) && a < b)
  }

  /** The first `size` eligible keys in rank order. */
  ghost predicate IsCommittee(c: Crypto, seed: Word32, eligible: set<PublicKey>, size: nat, committee: seq<PublicKey>) {
    && (forall i, j :: 0 <= i < j < |committee| ==> Precedes(c, seed, committee[i], committee[j]))
    && (forall k :: k in committee ==> k in eligible)
    && (|committee| < size ==> forall k :: k in eligible ==> k in committee)
    && |committee| <= size
    && (forall k, m :: k in eligible && k !in committee && m in committee ==> Precedes(c, seed, m, k))
  }

  /** The draw does not depend on the order or the repetitions in which eligible keys are listed. */
  method SelectCommittee(c: Crypto, seed: Word32, eligible: seq<PublicKey>, size: nat) returns (committee: seq<PublicKey>)
    ensures IsCommittee(c, seed, SetOf(eligible), size, committee)
  {
    var left := set k | k in eligible;
    committee := [];
    while left != {} && |committee| < size
      invariant |committee| <= size
      invariant forall k :: k in eligible <==> k in committee || k in left
      invariant forall k, m :: k in left && m in committee ==> Precedes(c, seed, m, k)
      invariant forall i, j :: 0 <= i < j < |committee| ==> Precedes(c, seed, committee[i], committee[j])
      decreases left
    {
      var best := FirstRanked(c, seed, left);
      assert forall m :: m in committee ==> Precedes(c, seed, m, best);
      committee, left := committee + [best], left - {best};
    }
  }

  method FirstRanked(c: Crypto, seed: Word32, keys: set<PublicKey>) returns (best: PublicKey)
    requires keys != {}
    ensures best in keys && forall k :: k in keys && k != best ==> Precedes(c, seed, best, k)
  {
    best :| best in keys;
    var left := keys - {best};
    while left != {}
      invariant best in keys && left <= keys && best !in left
      invariant forall k :: k in keys && k !in left && k != best ==> Precedes(c, seed, best, k)
      decreases left
    {
      var x :| x in left;
      if Precedes(c, seed, x, best) { best := x; }
      left := left - {x};
    }
  }

  /** Every node draws the same committee. */
  lemma {:induction false} CommitteeUnique(c: Crypto, seed: Word32, eligible: set<PublicKey>, size: nat,
                                           a: seq<PublicKey>, b: seq<PublicKey>)
    requires IsCommittee(c, seed, eligible, size, a) && IsCommittee(c, seed, eligible, size, b)
    ensures a == b
    decreases |a|
  {
    if a == [] || b == [] {
      EmptyCommittee(c, seed, eligible, size, a, b);
      EmptyCommittee(c, seed, eligible, size, b, a);
    } else {
      HeadIsFirst(c, seed, eligible, size, a, b[0]);
      HeadIsFirst(c, seed, eligible, size, b, a[0]);
      DropHead(c, seed, eligible, size, a);
      DropHead(c, seed, eligible, size, b);
      CommitteeUnique(c, seed, eligible - {a[0]}, size - 1, a[1..], b[1..]);
    }
  }

  lemma EmptyCommittee(c: Crypto, seed: Word32, eligible: set<PublicKey>, size: nat, a: seq<PublicKey>, b: seq<PublicKey>)
    requires IsCommittee(c, seed, eligible, size, a) && IsCommittee(c, seed, eligible, size, b)
    ensures a == [] ==> b == []
  {
    assert b != [] ==> b[0] in b;
  }

  lemma HeadIsFirst(c: Crypto, seed: Word32, eligible: set<PublicKey>, size: nat, a: seq<PublicKey>, k: PublicKey)
    requires IsCommittee(c, seed, eligible, size, a) && a != [] && k in eligible
    ensures a[0] in eligible && (a[0] == k || Precedes(c, seed, a[0], k))
  {
    assert a[0] in a;
    if k in a {
      var i :| 0 <= i < |a| && a[i] == k;
    }
  }

  lemma DropHead(c: Crypto, seed: Word32, eligible: set<PublicKey>, size: nat, a: seq<PublicKey>)
    requires IsCommittee(c, seed, eligible, size, a) && a != []
    ensures size > 0 && IsCommittee(c, seed, eligible - {a[0]}, size - 1, a[1..])
  {
    assert forall k :: k in a[1..] ==> k in a;
    forall k | k in a && k != a[0] ensures k in a[1..] {
      var i :| 0 <= i < |a| && a[i] == k;
      assert a[1..][i - 1] == k;
    }
  }

  lemma {:induction false} CommitteeSize(c: Crypto, seed: Word32, eligible: set<PublicKey>, size: nat, a: seq<PublicKey>)
    requires IsCommittee(c, seed, eligible, size, a)
    ensures |SetOf(a)| == |a| == Min(size, |eligible|)
  {
    var members := SetOf(a);
    DistinctSize(a);
    assert members <= eligible;
    SubsetSize(members, eligible);
    if |a| < size { assert members == eligible; }
  }

  lemma {:induction false} DistinctSize(a: seq<PublicKey>)
    requires forall i, j :: 0 <= i < j < |a| ==> a[i] != a[j]
    ensures |SetOf(a)| == |a|
  {
    if a != [] {
      DistinctSize(a[1..]);
      assert SetOf(a) == {a[0]} + SetOf(a[1..]);
      assert a[0] !in a[1..];
    }
  }

  lemma {:induction false} SubsetSize<T>(a: set<T>, b: set<T>)
    requires a <= b
    ensures |a| <= |b|
  {
    assert b == a + (b - a);
    assert |b| == |a| + |b - a|;
  }

  /** In words: members stand in the order of their draw, lowest first, ties by key; whoever is eligible and not
      elected ranks after every member. */
  lemma CommitteeRanks(c: Crypto, seed: Word32, eligible: set<PublicKey>, size: nat, a: seq<PublicKey>)
    requires IsCommittee(c, seed, eligible, size, a)
    ensures forall i, j :: 0 <= i < j < |a| ==>
              c.rank(seed, a[i]) < c.rank(seed, a[j]) || (c.rank(seed, a[i]) == c.rank(seed, a[j]) && a[i] < a[j])
    ensures forall k, m :: k in eligible && k !in a && m in a ==>
              c.rank(seed, m) < c.rank(seed, k) || (c.rank(seed, m) == c.rank(seed, k) && m < k)
    ensures forall m :: m in a ==> m in eligible
  {
    forall i, j | 0 <= i < j < |a|
      ensures c.rank(seed, a[i]) < c.rank(seed, a[j]) || (c.rank(seed, a[i]) == c.rank(seed, a[j]) && a[i] < a[j])
    {
      assert Precedes(c, seed, a[i], a[j]);
    }
    forall k, m | k in eligible && k !in a && m in a
      ensures c.rank(seed, m) < c.rank(seed, k) || (c.rank(seed, m) == c.rank(seed, k) && m < k)
    {
      assert Precedes(c, seed, m, k);
    }
  }

  // ----- verification -----

  /** The first signature listed under this key, among the first n, verifies. */
  ghost predicate SignedFirst(c: Crypto, cp: Checkpoint, n: nat, key: PublicKey)
    requires n <= |cp.signatures|
  {
    exists i :: 0 <= i < n && FirstListed(cp, i, key) && c.verify(key, c.signingHash(cp.data), cp.signatures[i].1)
  }

  ghost predicate FirstListed(cp: Checkpoint, i: nat, key: PublicKey)
    requires i < |cp.signatures|
  {
    cp.signatures[i].0 == key && forall j :: 0 <= j < i ==> cp.signatures[j].0 != key
  }

  /** Committee members whose first listed signature verifies. */
  ghost function Signers(c: Crypto, cp: Checkpoint, committee: seq<PublicKey>, n: nat): set<PublicKey>
    requires n <= |cp.signatures|
  {
    set k | k in committee && SignedFirst(c, cp, n, k)
  }

  ghost predicate HasQuorum(c: Crypto, cp: Checkpoint, committee: seq<PublicKey>, quorum: nat) {
    |Signers(c, cp, committee, |cp.signatures|)| >= quorum
  }

  ghost predicate Listed(cp: Checkpoint, n: nat, key: PublicKey)
    requires n <= |cp.signatures|
  {
    exists j :: 0 <= j < n && cp.signatures[j].0 == key
  }

  ghost predicate SeenSoFar(cp: Checkpoint, committee: seq<PublicKey>, n: nat, signers: set<PublicKey>)
    requires n <= |cp.signatures|
  {
    forall k :: k in signers <==> k in committee && Listed(cp, n, k)
  }

  lemma NothingSeen(c: Crypto, cp: Checkpoint, committee: seq<PublicKey>)
    ensures SeenSoFar(cp, committee, 0, {}) && Signers(c, cp, committee, 0) == {}
  {
  }

  lemma OneMoreSeen(cp: Checkpoint, committee: seq<PublicKey>, i: nat, signers: set<PublicKey>)
    requires i < |cp.signatures| && SeenSoFar(cp, committee, i, signers)
    ensures var pk := cp.signatures[i].0;
            && SeenSoFar(cp, committee, i + 1, if pk in committee then signers + {pk} else signers)
            && (pk in committee ==> (pk in signers <==> Listed(cp, i, pk)))
  {
    var pk := cp.signatures[i].0;
    forall k ensures Listed(cp, i + 1, k) <==> Listed(cp, i, k) || k == pk {
      assert cp.signatures[i].0 == pk;
    }
  }

  /** A member counts when the first signature listed under its key verifies over the content: a later one under
      the same key is never looked at, and nobody outside the committee counts. */
  lemma SignerCounts(c: Crypto, cp: Checkpoint, committee: seq<PublicKey>, k: PublicKey)
    ensures k in Signers(c, cp, committee, |cp.signatures|) <==>
              && k in committee
              && exists i ::
                   && 0 <= i < |cp.signatures| && cp.signatures[i].0 == k
                   && (forall j :: 0 <= j < i ==> cp.signatures[j].0 != k)
                   && c.verify(k, c.signingHash(cp.data), cp.signatures[i].1)
  {
    forall i | 0 <= i < |cp.signatures|
      ensures FirstListed(cp, i, k) <==> cp.signatures[i].0 == k && forall j :: 0 <= j < i ==> cp.signatures[j].0 != k
    {
    }
    if SignedFirst(c, cp, |cp.signatures|, k) {
      var i :| 0 <= i < |cp.signatures| && FirstListed(cp, i, k) && c.verify(k, c.signingHash(cp.data), cp.signatures[i].1);
    }
  }

  method VerifyQuorum(c: Crypto, cp: Checkpoint, committee: seq<PublicKey>, quorum: nat) returns (ok: bool)
    ensures ok <==> HasQuorum(c, cp, committee, quorum)
  {
    hide Signers, SeenSoFar, Listed;
    NothingSeen(c, cp, committee);
    var signers: set<PublicKey>, msg, valid := {}, c.signingHash(cp.data), 0;
    var i := 0;
    while i < |cp.signatures|
      invariant 0 <= i <= |cp.signatures|
      invariant SeenSoFar(cp, committee, i, signers)
      invariant valid == |Signers(c, cp, committee, i)|
    {
      var (pk, sig) := cp.signatures[i];
      OneMoreSignature(c, cp, committee, i);
      OneMoreSeen(cp, committee, i, signers);
      if pk in committee {
        if pk !in signers {
          signers := signers + {pk};
          if c.verify(pk, msg, sig) {
            valid := valid + 1;
          }
        } else {
          assert signers + {pk} == signers;
        }
      }
      i := i + 1;
    }
    ok := valid >= quorum;
  }

  lemma OneMoreSignature(c: Crypto, cp: Checkpoint, committee: seq<PublicKey>, i: nat)
    requires i < |cp.signatures|
    ensures var (pk, sig) := cp.signatures[i];
            var counts := pk in committee && !Listed(cp, i, pk) && c.verify(pk, c.signingHash(cp.data), sig);
            && Signers(c, cp, committee, i + 1) == Signers(c, cp, committee, i) + (if counts then {pk} else {})
            && |Signers(c, cp, committee, i + 1)| == |Signers(c, cp, committee, i)| + if counts then 1 else 0
  {
    hide Signers, SignedFirst;
    var (pk, sig) := cp.signatures[i];
    var counts := pk in committee && !Listed(cp, i, pk) && c.verify(pk, c.signingHash(cp.data), sig);
    var a, b := Signers(c, cp, committee, i), Signers(c, cp, committee, i + 1);
    forall k ensures k in b <==> k in a || (counts && k == pk) {
      IsSigner(c, cp, committee, i, k);
      IsSigner(c, cp, committee, i + 1, k);
      FirstStaysFirst(c, cp, i, k);
    }
    assert counts ==> pk !in a by {
      IsSigner(c, cp, committee, i, pk);
      SignedIsListed(c, cp, i, pk);
    }
    assert b == a + if counts then {pk} else {};
  }

  lemma IsSigner(c: Crypto, cp: Checkpoint, committee: seq<PublicKey>, n: nat, k: PublicKey)
    requires n <= |cp.signatures|
    ensures k in Signers(c, cp, committee, n) <==> k in committee && SignedFirst(c, cp, n, k)
  {
    hide SignedFirst;
  }

  lemma SignedIsListed(c: Crypto, cp: Checkpoint, n: nat, k: PublicKey)
    requires n <= |cp.signatures|
    ensures SignedFirst(c, cp, n, k) ==> Listed(cp, n, k)
  {
  }

  lemma FirstStaysFirst(c: Crypto, cp: Checkpoint, i: nat, k: PublicKey)
    requires i < |cp.signatures|
    ensures var (pk, sig) := cp.signatures[i];
            SignedFirst(c, cp, i + 1, k) <==>
              SignedFirst(c, cp, i, k) || (k == pk && !Listed(cp, i, pk) && c.verify(pk, c.signingHash(cp.data), sig))
  {
    var (pk, sig) := cp.signatures[i];
    if SignedFirst(c, cp, i + 1, k) {
      var j :| 0 <= j < i + 1 && FirstListed(cp, j, k) && c.verify(k, c.signingHash(cp.data), cp.signatures[j].1);
    }
    if SignedFirst(c, cp, i, k) {
      var j :| 0 <= j < i && FirstListed(cp, j, k) && c.verify(k, c.signingHash(cp.data), cp.signatures[j].1);
    }
    if k == pk && !Listed(cp, i, pk) && c.verify(pk, c.signingHash(cp.data), sig) { assert FirstListed(cp, i, k); }
  }

  // ----- intersection and accountability -----

  lemma Intersection(n: nat, committee: set<PublicKey>, a: set<PublicKey>, b: set<PublicKey>)
    requires |committee| == n && a <= committee && b <= committee
    requires |a| >= QuorumFor(n) && |b| >= QuorumFor(n)
    ensures |a * b| >= MaxFaulty(n) + 1
  {
    assert |a + b| == |a| + |b| - |a * b|;
    SubsetSize(a + b, committee);
  }

  /** The quorum is the least number above two thirds, and the tolerated number the largest below one third. */
  lemma QuorumBounds(n: nat)
    ensures 3 * QuorumFor(n) > 2 * n && 3 * (QuorumFor(n) - 1) <= 2 * n
    ensures n > 0 ==> 3 * MaxFaulty(n) < n <= 3 * MaxFaulty(n) + 3 && QuorumFor(n) <= n - MaxFaulty(n)
  {
  }

  /** The honest members alone can certify: with at most the tolerated number of members silent or wrong, the
      certificate of the others has its quorum. */
  lemma HonestMembersCertify(c: Crypto, cp: Checkpoint, committee: seq<PublicKey>, silent: set<PublicKey>)
    requires Distinct(committee) && committee != [] && |silent| <= MaxFaulty(|committee|)
    requires forall k :: k in committee && k !in silent ==>
               exists i ::
                 && 0 <= i < |cp.signatures| && cp.signatures[i].0 == k
                 && (forall j :: 0 <= j < i ==> cp.signatures[j].0 != k)
                 && c.verify(k, c.signingHash(cp.data), cp.signatures[i].1)
    ensures HasQuorum(c, cp, committee, QuorumFor(|committee|))
  {
    hide Signers;
    var members, signers := SetOf(committee), Signers(c, cp, committee, |cp.signatures|);
    DistinctSize(committee);
    forall k | k in members - silent ensures k in signers { SignerCounts(c, cp, committee, k); }
    SubsetSize(members - silent, signers);
    assert |members| == |members - silent| + |members * silent|;
    SubsetSize(members * silent, silent);
    QuorumBounds(|committee|);
  }

  lemma SignersAreMembers(c: Crypto, cp: Checkpoint, committee: seq<PublicKey>)
    ensures Signers(c, cp, committee, |cp.signatures|) <= SetOf(committee)
  {
  }

  ghost predicate Distinct(committee: seq<PublicKey>) {
    forall i, j :: 0 <= i < j < |committee| ==> committee[i] != committee[j]
  }

  /** Members that signed both checkpoints. */
  ghost function Equivocators(c: Crypto, a: Checkpoint, b: Checkpoint, committee: seq<PublicKey>): set<PublicKey> {
    Signers(c, a, committee, |a.signatures|) * Signers(c, b, committee, |b.signatures|)
  }

  /** Two certificates over different contents of one epoch and one parent convict more members
      than the committee tolerates: each of them yields evidence that verifies. */
  lemma Accountability(c: Crypto, a: Checkpoint, b: Checkpoint, committee: seq<PublicKey>)
    requires Distinct(committee)
    requires HasQuorum(c, a, committee, QuorumFor(|committee|)) && HasQuorum(c, b, committee, QuorumFor(|committee|))
    requires a.data.epoch == b.data.epoch && a.data.prevCheckpointHash == b.data.prevCheckpointHash
    requires c.signingHash(a.data) != c.signingHash(b.data)
    ensures |Equivocators(c, a, b, committee)| >= MaxFaulty(|committee|) + 1
    ensures forall k :: k in Equivocators(c, a, b, committee) ==>
                          k in committee && exists sigA, sigB :: VerifyEvidence(c, Evidence(k, a.data, sigA, b.data, sigB))
  {
    DistinctSize(committee);
    SignersAreMembers(c, a, committee);
    SignersAreMembers(c, b, committee);
    Intersection(|committee|, SetOf(committee), Signers(c, a, committee, |a.signatures|),
        Signers(c, b, committee, |b.signatures|));
    forall k | k in Equivocators(c, a, b, committee)
      ensures k in committee && exists sigA, sigB :: VerifyEvidence(c, Evidence(k, a.data, sigA, b.data, sigB))
    {
      var i :| 0 <= i < |a.signatures| && FirstListed(a, i, k) && c.verify(k, c.signingHash(a.data), a.signatures[i].1);
      var j :| 0 <= j < |b.signatures| && FirstListed(b, j, k) && c.verify(k, c.signingHash(b.data), b.signatures[j].1);
      assert VerifyEvidence(c, Evidence(k, a.data, a.signatures[i].1, b.data, b.signatures[j].1));
    }
  }
}
