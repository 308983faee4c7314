/** What the compact sparse Merkle tree is meant to be: the full depth-40 Merkle
    tree over the content, and the unique compact shape that a key set determines.

    A key is its 40 bits, most significant first, and a path is a prefix of keys;
    module Packing relates this to the packed 64-bit numbers of the source. */
module SmtSpec {
  import opened Prelude

  const D: nat := 40

  type Key = k: seq<bool> | |k| == D witness seq(D, _ => false)

  /** Content of a child slot: nothing, a chain down to one key, or the nearest branch point. */
  datatype Slot = Empty | Chain(key: Key) | Node(path: seq<bool>)

  datatype BranchNode = BranchNode(hash: Digest, left: Slot, right: Slot)

  /** The three hash uses of the tree; every result below holds for any such functions. */
  datatype Hasher = Hasher(empty: Digest, node: (Digest, Digest) -> Digest, pair: (Digest, Digest) -> Digest)

  /** Key to the non-empty set of leaves stored under it. */
  type Content = map<Key, set<Digest>>

  ghost predicate WellFormed(c: Content) {
    forall k :: k in c ==> c[k] != {}
  }

  ghost predicate Under(p: seq<bool>, k: seq<bool>) {
    p <= k
  }

  // ----- collision buckets -----

  /** One level of the bucket tree: neighbours are hashed, an odd last hash with itself. */
  function PairUp(h: Hasher, level: seq<Digest>): (r: seq<Digest>)
    ensures |r| == (|level| + 1) / 2
  {
    if |level| == 0 then []
    else if |level| == 1 then [h.pair(level[0], level[0])]
    else [h.pair(level[0], level[1])] + PairUp(h, level[2..])
  }

  /** Each hash of the next level covers two neighbours, the last one possibly the same hash twice. */
  lemma {:induction false} PairUpAt(h: Hasher, level: seq<Digest>, i: nat)
    requires 2 * i < |level|
    ensures PairUp(h, level)[i] == h.pair(level[2 * i], level[if 2 * i + 1 < |level| then 2 * i + 1 else 2 * i])
  {
    if i > 0 { PairUpAt(h, level[2..], i - 1); }
  }

  function BucketRoot(h: Hasher, level: seq<Digest>): Digest
    decreases |level|
  {
    if |level| == 0 then ZERO_DIGEST
    else if |level| == 1 then level[0]
    else BucketRoot(h, PairUp(h, level))
  }

  lemma LeastExists(s: set<Digest>) returns (least: Digest)
    requires s != {}
    ensures least in s && forall y :: y in s ==> least <= y
  {
    var x :| x in s;
    var rest := s - {x};
    if rest == {} {
      assert s == {x};
      least := x;
    } else {
      var m := LeastExists(rest);
      least := if x <= m then x else m;
      assert forall y :: y in s ==> y == x || y in rest;
    }
  }

  ghost function Least(s: set<Digest>): (x: Digest)
    requires s != {}
    ensures x in s && forall y :: y in s ==> x <= y
  {
    assert exists x :: x in s && forall y :: y in s ==> x <= y by {
      var least := LeastExists(s);
    }
    var x :| x in s && forall y :: y in s ==> x <= y;
    x
  }

  /** The elements of a set in ascending order. */
  ghost function Sorted(s: set<Digest>): (r: seq<Digest>)
    ensures Ascending(r) && forall x :: x in r <==> x in s
  {
    if s == {} then []
    else
      var x := Least(s);
      var rest := Sorted(s - {x});
      assert forall i :: 0 <= i < |rest| ==> rest[i] in s - {x};
      [x] + rest
  }

  lemma AscendingTail(s: seq<int>)
    requires Ascending(s) && s != []
    ensures Ascending(s[1..])
    ensures forall x :: x in s[1..] <==> x in s && x != s[0]
    ensures forall x :: x in s ==> s[0] <= x
  {
    forall x | x in s ensures s[0] <= x && (x in s[1..] || x == s[0]) {
      var i :| 0 <= i < |s| && s[i] == x;
      if i > 0 {
        assert s[1..][i - 1] == x;
      }
    }
  }

  /** An ascending sequence is determined by its elements. */
  lemma {:induction false} AscendingUnique(s: seq<int>, t: seq<int>)
    requires Ascending(s) && Ascending(t)
    requires forall x :: x in s <==> x in t
    ensures s == t
  {
    assert |s| > 0 ==> s[0] in s;
    assert |t| > 0 ==> t[0] in t;
    if s != [] && t != [] {
      AscendingTail(s);
      AscendingTail(t);
      assert s[0] in t && t[0] in s;
      AscendingUnique(s[1..], t[1..]);
    }
  }

  // ----- the full tree -----

  /** Value of an empty subtree of the given height. */
  function Default(h: Hasher, height: nat): Digest {
    if height == 0 then h.empty else h.node(Default(h, height - 1), Default(h, height - 1))
  }

  ghost function LeafValue(h: Hasher, c: Content, k: Key): Digest {
    if k in c then BucketRoot(h, Sorted(c[k])) else h.empty
  }

  /** Merkle root of the full subtree at path p: every one of its leaves is visited. */
  ghost function Naive(h: Hasher, c: Content, p: seq<bool>): Digest
    requires |p| <= D
    decreases D - |p|
  {
    if |p| == D then LeafValue(h, c, p)
    else h.node(Naive(h, c, p + [false]), Naive(h, c, p + [true]))
  }

  /** Value at depth d of a subtree whose only content is the subtree at q, of value v. */
  function Lift(h: Hasher, q: seq<bool>, v: Digest, d: nat): Digest
    requires d <= |q| <= D
    decreases |q| - d
  {
    if d == |q| then v
    else if q[d] then h.node(Default(h, D - 1 - d), Lift(h, q, v, d + 1))
    else h.node(Lift(h, q, v, d + 1), Default(h, D - 1 - d))
  }

  lemma SplitUnder(p: seq<bool>, k: seq<bool>, b: bool)
    requires |p| < |k|
    ensures Under(p + [b], k) <==> Under(p, k) && k[|p|] == b
  {
    if Under(p + [b], k) {
      assert (p + [b])[|p|] == k[|p|];
      assert forall i :: 0 <= i < |p| ==> (p + [b])[i] == p[i] == k[i];
    }
  }

  lemma {:induction false} EmptySubtree(h: Hasher, c: Content, p: seq<bool>)
    requires |p| <= D
    requires forall k :: k in c ==> !Under(p, k)
    ensures Naive(h, c, p) == Default(h, D - |p|)
    decreases D - |p|
  {
    if |p| == D {
      assert Under(p, p);
    } else {
      forall k, b | k in c ensures !Under(p + [b], k) { SplitUnder(p, k, b); }
      EmptySubtree(h, c, p + [false]);
      EmptySubtree(h, c, p + [true]);
    }
  }

  /** Along an implicit chain every key goes the way of q. */
  lemma ChainStep(ks: set<Key>, q: seq<bool>, d: nat)
    requires d < |q| <= D
    requires forall k :: k in ks && Under(q[..d], k) ==> Under(q, k)
    ensures q[..d] + [q[d]] == q[..d + 1]
    ensures forall k :: k in ks && Under(q[..d + 1], k) ==> Under(q, k)
    ensures forall k :: k in ks ==> !Under(q[..d] + [!q[d]], k)
  {
    assert q[..d] + [q[d]] == q[..d + 1];
    forall k | k in ks
      ensures Under(q[..d + 1], k) ==> Under(q, k)
      ensures !Under(q[..d] + [!q[d]], k)
    {
      SplitUnder(q[..d], k, q[d]);
      SplitUnder(q[..d], k, !q[d]);
    }
  }

  /** An implicit chain folds to the value of the full subtree it stands for. */
  lemma {:induction false} LiftIsNaive(h: Hasher, c: Content, q: seq<bool>, d: nat)
    requires d <= |q| <= D
    requires forall k :: k in c.Keys && Under(q[..d], k) ==> Under(q, k)
    ensures Lift(h, q, Naive(h, c, q), d) == Naive(h, c, q[..d])
    decreases |q| - d
  {
    hide Under;
    if d == |q| {
      assert q[..d] == q;
    } else {
      ChainStep(c.Keys, q, d);
      LiftIsNaive(h, c, q, d + 1);
      EmptySubtree(h, c, q[..d] + [!q[d]]);
    }
  }

  /** On the way from a key to the root the value so far stands on the side of its bit, the other subtree opposite. */
  lemma PathToRoot(h: Hasher, c: Content, k: Key, d: nat)
    requires d < 40
    ensures Naive(h, c, k[..d]) ==
              if k[d] then h.node(Naive(h, c, k[..d] + [false]), Naive(h, c, k[..d + 1]))
              else h.node(Naive(h, c, k[..d + 1]), Naive(h, c, k[..d] + [true]))
    ensures k !in c ==> Naive(h, c, k) == h.empty
  {
    assert k[..d + 1] == k[..d] + [k[d]];
  }

  /** A single leaf is its own root, two are paired in order, and an odd last one is paired with itself. */
  lemma SmallBuckets(h: Hasher, x: Digest, y: Digest, z: Digest)
    ensures BucketRoot(h, [x]) == x && BucketRoot(h, [x, y]) == h.pair(x, y)
    ensures BucketRoot(h, [x, y, z]) == h.pair(h.pair(x, y), h.pair(z, z))
  {
    var (a, b) := (h.pair(x, y), h.pair(z, z));
    assert PairUp(h, [x, y]) == [a];
    assert PairUp(h, [x, y, z]) == [a, b];
    assert PairUp(h, [a, b]) == [h.pair(a, b)];
    assert BucketRoot(h, [a, b]) == BucketRoot(h, [h.pair(a, b)]);
  }

  /** Two contents that agree below p have the same subtree there. */
  lemma {:induction false} NaiveFrame(h: Hasher, c: Content, c': Content, p: seq<bool>)
    requires |p| <= D
    requires forall k: Key :: Under(p, k) ==> (k in c <==> k in c') && (k in c ==> c[k] == c'[k])
    ensures Naive(h, c, p) == Naive(h, c', p)
    decreases D - |p|
  {
    if |p| == D {
      assert Under(p, p);
    } else {
      forall k: Key, b | Under(p + [b], k) ensures Under(p, k) { SplitUnder(p, k, b); }
      NaiveFrame(h, c, c', p + [false]);
      NaiveFrame(h, c, c', p + [true]);
    }
  }

  // ----- the compact shape -----

  ghost predicate Occupied(ks: set<Key>, p: seq<bool>) {
    exists k :: k in ks && Under(p, k)
  }

  /** A path below which the keys part ways. */
  ghost predicate IsBranch(ks: set<Key>, p: seq<bool>) {
    |p| < D && Occupied(ks, p + [false]) && Occupied(ks, p + [true])
  }

  /** s is what a slot at path p holds for this key set. */
  ghost predicate SlotOk(ks: set<Key>, p: seq<bool>, s: Slot) {
    match s
    case Empty => !Occupied(ks, p)
    case Chain(key) => key in ks && Under(p, key) && forall k :: k in ks && Under(p, k) ==> k == key
    case Node(q) => Under(p, q) && IsBranch(ks, q) && forall k :: k in ks && Under(p, k) ==> Under(q, k)
  }

  lemma BranchOccupied(ks: set<Key>, q: seq<bool>)
    requires IsBranch(ks, q)
    ensures exists k0, k1 :: k0 in ks && k1 in ks && Under(q, k0) && Under(q, k1) && !k0[|q|] && k1[|q|]
  {
    var k0 :| k0 in ks && Under(q + [false], k0);
    var k1 :| k1 in ks && Under(q + [true], k1);
    SplitUnder(q, k0, false);
    SplitUnder(q, k1, true);
  }

  lemma NestedBranch(ks: set<Key>, q: seq<bool>, r: seq<bool>)
    requires IsBranch(ks, q) && |r| <= D
    requires forall k :: k in ks && Under(q, k) ==> Under(r, k)
    ensures Under(r, q)
  {
    BranchOccupied(ks, q);
    var k0, k1 :| k0 in ks && k1 in ks && Under(q, k0) && Under(q, k1) && !k0[|q|] && k1[|q|];
    if |r| > |q| {
      assert false;
    }
    assert forall i :: 0 <= i < |r| ==> r[i] == k0[i] == q[i];
  }

  /** The slot at a path is a function of the key set. */
  lemma SlotUnique(ks: set<Key>, p: seq<bool>, s: Slot, t: Slot)
    requires SlotOk(ks, p, s) && SlotOk(ks, p, t)
    ensures s == t
  {
    if s.Node? && t.Node? {
      forall k | k in ks ensures Under(s.path, k) <==> Under(t.path, k) {
        assert Under(s.path, k) ==> Under(p, k);
        assert Under(t.path, k) ==> Under(p, k);
      }
      NestedBranch(ks, s.path, t.path);
      NestedBranch(ks, t.path, s.path);
    } else if s.Node? {
      BranchOccupied(ks, s.path);
    } else if t.Node? {
      BranchOccupied(ks, t.path);
    }
  }
}
