/** The root commits to the content: equal roots mean equal content, unless two of the
    byte strings actually hashed to build the two roots collide. */
module SmtBinding {
  import opened Prelude
  import opened SmtSpec

  /** What is hashed; the tags of the source make these four forms distinct byte strings. */
  datatype Preimage<E> = EmptyLeaf | NodeOf(left: Digest, right: Digest) | PairOf(left: Digest,
      right: Digest) | LeafOf(entry: E)

  type Hash<!E> = Preimage<E> -> Digest

  /** h hashes nodes, pairs and the empty leaf with H. */
  ghost predicate Models<E>(h: Hasher, H: Hash<E>) {
    && h.empty == H(EmptyLeaf)
    && (forall l, r {:trigger h.node(l, r)} :: h.node(l, r) == H(NodeOf(l, r)))
    && (forall l, r {:trigger h.pair(l, r)} :: h.pair(l, r) == H(PairOf(l, r)))
  }

  ghost predicate NoCollision<E>(H: Hash<E>, s: set<Preimage<E>>) {
    forall x, y :: x in s && y in s && H(x) == H(y) ==> x == y
  }

  ghost predicate IsLeaf<E>(H: Hash<E>, s: set<Preimage<E>>, x: Digest) {
    exists y :: y in s && y.LeafOf? && H(y) == x
  }

  // ----- what is hashed -----

  ghost function PairAt<E>(level: seq<Digest>, i: nat): Preimage<E>
    requires 2 * i < |level|
  {
    PairOf(level[2 * i], level[if 2 * i + 1 < |level| then 2 * i + 1 else 2 * i])
  }

  ghost function BucketTrace<E>(h: Hasher, level: seq<Digest>): set<Preimage<E>>
    decreases |level|
  {
    if |level| <= 1 then {}
    else (set i: nat | 0 <= i < (|level| + 1) / 2 :: PairAt(level, i)) + BucketTrace(h, PairUp(h, level))
  }

  /** Every preimage hashed on the way to the root of the subtree at p. */
  ghost function Trace<E>(h: Hasher, c: Content, p: seq<bool>): set<Preimage<E>>
    requires |p| <= D
    decreases D - |p|
  {
    if |p| < D then
      {NodeOf(Naive(h, c, p + [false]), Naive(h, c, p + [true]))} + Trace(h, c, p + [false]) + Trace(h, c, p + [true])
    else if p in c then BucketTrace(h, Sorted(c[p]))
    else {EmptyLeaf}
  }

  // ----- buckets -----

  /** x is a hash of the i-th level above the leaves of some bucket. */
  ghost predicate Rank<E>(H: Hash<E>, s: set<Preimage<E>>, i: nat, x: Digest) {
    if i == 0 then IsLeaf(H, s, x)
    else exists y :: y in s && y.PairOf? && H(y) == x && Rank(H, s, i - 1, y.left)
  }

  lemma {:induction false} RankUnique<E>(H: Hash<E>, s: set<Preimage<E>>, i: nat, j: nat, x: Digest)
    requires NoCollision(H, s) && Rank(H, s, i, x) && Rank(H, s, j, x)
    ensures i == j
  {
    if i > 0 && j > 0 {
      var y :| y in s && y.PairOf? && H(y) == x && Rank(H, s, i - 1, y.left);
      var z :| z in s && z.PairOf? && H(z) == x && Rank(H, s, j - 1, z.left);
      RankUnique(H, s, i - 1, j - 1, y.left);
    }
  }

  ghost function Height(n: nat): nat {
    if n <= 1 then 0 else 1 + Height((n + 1) / 2)
  }

  ghost predicate AllRank<E>(H: Hash<E>, s: set<Preimage<E>>, i: nat, level: seq<Digest>) {
    forall k :: 0 <= k < |level| ==> Rank(H, s, i, level[k])
  }

  ghost predicate Distinct(level: seq<Digest>) {
    forall i, j :: 0 <= i < j < |level| ==> level[i] != level[j]
  }

  /** The next level is one rank higher, and still free of duplicates. */
  lemma NextLevel<E>(h: Hasher, H: Hash<E>, s: set<Preimage<E>>, i: nat, level: seq<Digest>)
    requires Models(h, H) && NoCollision(H, s) && AllRank(H, s, i, level) && Distinct(level)
    requires |level| >= 2 && BucketTrace(h, level) <= s
    ensures AllRank(H, s, i + 1, PairUp(h, level)) && Distinct(PairUp(h, level))
    ensures forall k: nat :: 2 * k < |level| ==> PairAt(level, k) in s && PairUp(h, level)[k] == H(PairAt(level, k))
  {
    var next := PairUp(h, level);
    forall k: nat | 2 * k < |level| ensures PairAt(level, k) in s && next[k] == H(PairAt(level, k)) {
      PairUpAt(h, level, k);
      assert PairAt<E>(level, k) in BucketTrace(h, level);
    }
    forall k | 0 <= k < |next| ensures Rank(H, s, i + 1, next[k]) {
      assert 2 * k < |level|;
      assert H(PairAt(level, k)) == next[k] && Rank(H, s, i, level[2 * k]);
    }
    forall j, k | 0 <= j < k < |next| ensures next[j] != next[k] {
      assert 2 * j < 2 * k < |level|;
      assert PairAt<E>(level, j).left != PairAt<E>(level, k).left;
    }
  }

  lemma SingleRank<E>(H: Hash<E>, s: set<Preimage<E>>, i: nat, level: seq<Digest>)
    requires AllRank(H, s, i, level) && |level| == 1
    ensures Rank(H, s, i, level[0])
  {
    hide Rank;
  }

  lemma {:induction false} RootRank<E>(h: Hasher, H: Hash<E>, s: set<Preimage<E>>, i: nat, level: seq<Digest>)
    requires Models(h, H) && NoCollision(H, s) && AllRank(H, s, i, level) && Distinct(level)
    requires |level| >= 1 && BucketTrace(h, level) <= s
    ensures Rank(H, s, i + Height(|level|), BucketRoot(h, level))
    decreases |level|
  {
    hide PairUp, Rank, NoCollision, AllRank, Distinct, Models;
    if |level| == 1 {
      SingleRank(H, s, i, level);
    } else {
      NextLevel(h, H, s, i, level);
      RootRank(h, H, s, i + 1, PairUp(h, level));
    }
  }

  /** Duplicating an odd last hash cannot make two buckets meet: their members are distinct. */
  lemma {:induction false} BucketBinding<E>(h: Hasher, H: Hash<E>, s: set<Preimage<E>>, i: nat, a: seq<Digest>,
      b: seq<Digest>)
    requires Models(h, H) && NoCollision(H, s)
    requires |a| >= 1 && AllRank(H, s, i, a) && Distinct(a) && BucketTrace(h, a) <= s
    requires |b| >= 1 && AllRank(H, s, i, b) && Distinct(b) && BucketTrace(h, b) <= s
    requires BucketRoot(h, a) == BucketRoot(h, b)
    ensures a == b
    decreases |a|
  {
    hide PairUp, Rank, NoCollision, AllRank, Distinct, Models;
    RootRank(h, H, s, i, a);
    RootRank(h, H, s, i, b);
    RankUnique(H, s, i + Height(|a|), i + Height(|b|), BucketRoot(h, a));
    if |a| > 1 {
      assert |b| > 1;
      NextLevel(h, H, s, i, a);
      NextLevel(h, H, s, i, b);
      BucketBinding(h, H, s, i + 1, PairUp(h, a), PairUp(h, b));
      PairsAgree(h, H, s, a, b);
    }
  }

  lemma PairsAgree<E>(h: Hasher, H: Hash<E>, s: set<Preimage<E>>, a: seq<Digest>, b: seq<Digest>)
    requires NoCollision(H, s) && Distinct(a) && Distinct(b) && |a| >= 2 && |b| >= 2
    requires PairUp(h, a) == PairUp(h, b)
    requires forall k: nat :: 2 * k < |a| ==> PairAt(a, k) in s && PairUp(h, a)[k] == H(PairAt(a, k))
    requires forall k: nat :: 2 * k < |b| ==> PairAt(b, k) in s && PairUp(h, b)[k] == H(PairAt(b, k))
    ensures a == b
  {
    assert (|a| + 1) / 2 == (|b| + 1) / 2;
    forall k: nat | 2 * k < |a| && 2 * k < |b| ensures PairAt<E>(a, k) == PairAt<E>(b, k) {
      assert H(PairAt(a, k)) == H(PairAt(b, k));
    }
    var last := (|a| + 1) / 2 - 1;
    assert PairAt<E>(a, last) == PairAt<E>(b, last);
    assert |a| == |b|;
    forall n | 0 <= n < |a| ensures a[n] == b[n] {
      assert PairAt<E>(a, n / 2) == PairAt<E>(b, n / 2);
    }
  }

  // ----- the tree -----

  ghost predicate LeavesFrom<E>(H: Hash<E>, s: set<Preimage<E>>, c: Content) {
    forall k, x :: k in c && x in c[k] ==> IsLeaf(H, s, x)
  }

  lemma BucketReady<E>(h: Hasher, H: Hash<E>, s: set<Preimage<E>>, c: Content, k: Key)
    requires LeavesFrom(H, s, c) && WellFormed(c) && k in c
    ensures |Sorted(c[k])| >= 1 && AllRank(H, s, 0, Sorted(c[k])) && Distinct(Sorted(c[k]))
  {
    var v := Sorted(c[k]);
    forall i | 0 <= i < |v| ensures Rank(H, s, 0, v[i]) { assert v[i] in v; }
    var x :| x in c[k];
    assert x in v;
  }

  lemma OccupiedLeaf<E>(h: Hasher, H: Hash<E>, s: set<Preimage<E>>, c: Content, k: Key)
    requires Models(h, H) && NoCollision(H, s) && LeavesFrom(H, s, c) && WellFormed(c)
    requires k in c && Trace(h, c, k) <= s && EmptyLeaf in s
    ensures LeafValue(h, c, k) != h.empty
  {
    BucketReady(h, H, s, c, k);
    RootRank(h, H, s, 0, Sorted(c[k]));
  }

  /** Equal values of the subtrees at p: the two contents agree below p. */
  lemma {:induction false} Binding<E>(h: Hasher, H: Hash<E>, s: set<Preimage<E>>, a: Content, b: Content, p: seq<bool>)
    requires |p| <= D && Models(h, H) && NoCollision(H, s)
    requires WellFormed(a) && LeavesFrom(H, s, a) && Trace(h, a, p) <= s
    requires WellFormed(b) && LeavesFrom(H, s, b) && Trace(h, b, p) <= s
    requires Naive(h, a, p) == Naive(h, b, p)
    ensures forall k: Key :: Under(p, k) ==> (k in a <==> k in b) && (k in a ==> a[k] == b[k])
    decreases D - |p|
  {
    if |p| < D {
      var l, r := Naive(h, a, p + [false]), Naive(h, a, p + [true]);
      var l', r' := Naive(h, b, p + [false]), Naive(h, b, p + [true]);
      assert NodeOf(l, r) in Trace<E>(h, a, p) && NodeOf(l', r') in Trace<E>(h, b, p);
      assert h.node(l, r) == H(NodeOf(l, r)) && h.node(l', r') == H(NodeOf(l', r'));
      Binding(h, H, s, a, b, p + [false]);
      Binding(h, H, s, a, b, p + [true]);
      forall k: Key | Under(p, k) ensures (k in a <==> k in b) && (k in a ==> a[k] == b[k]) {
        SplitUnder(p, k, k[|p|]);
        assert Under(p + [k[|p|]], k);
        if k[|p|] { assert p + [true] == p + [k[|p|]]; } else { assert p + [false] == p + [k[|p|]]; }
      }
    } else {
      LeafBinding(h, H, s, a, b, p);
      forall k: Key | Under(p, k) ensures k == p { assert k == k[..D] == p; }
    }
  }

  lemma LeafBinding<E>(h: Hasher, H: Hash<E>, s: set<Preimage<E>>, a: Content, b: Content, k: Key)
    requires Models(h, H) && NoCollision(H, s)
    requires WellFormed(a) && LeavesFrom(H, s, a) && Trace(h, a, k) <= s
    requires WellFormed(b) && LeavesFrom(H, s, b) && Trace(h, b, k) <= s
    requires LeafValue(h, a, k) == LeafValue(h, b, k)
    ensures (k in a <==> k in b) && (k in a ==> a[k] == b[k])
  {
    if k in a && k in b {
      BucketReady(h, H, s, a, k);
      BucketReady(h, H, s, b, k);
      BucketBinding(h, H, s, 0, Sorted(a[k]), Sorted(b[k]));
      assert forall x :: x in a[k] <==> x in Sorted(a[k]);
      assert forall x :: x in b[k] <==> x in Sorted(b[k]);
    } else if k in a {
      OccupiedLeaf(h, H, s, a, k);
    } else if k in b {
      OccupiedLeaf(h, H, s, b, k);
    }
  }

  /** Equal roots, equal contents. */
  lemma RootBinding<E>(h: Hasher, H: Hash<E>, s: set<Preimage<E>>, a: Content, b: Content)
    requires Models(h, H) && NoCollision(H, s)
    requires WellFormed(a) && LeavesFrom(H, s, a) && Trace(h, a, []) <= s
    requires WellFormed(b) && LeavesFrom(H, s, b) && Trace(h, b, []) <= s
    ensures Naive(h, a, []) == Naive(h, b, []) <==> a == b
  {
    if Naive(h, a, []) == Naive(h, b, []) {
      Binding(h, H, s, a, b, []);
      forall k: Key ensures (k in a <==> k in b) && (k in a ==> a[k] == b[k]) { assert Under([], k); }
    }
  }
}
