/** The incremental sparse Merkle tree (crates/scone-blockchain/src/smt.rs), updated in place. */
module SmtTree {
  import opened Prelude
  import opened SmtSpec
  import opened SmtShape

  /** The content after one leaf is added under a key. */
  ghost function Added(c: Content, key: Key, leaf: Digest): Content {
    c[key := (if key in c then c[key] else {}) + {leaf}]
  }

  /** The content after one leaf is removed from a key; an emptied key disappears. */
  ghost function Removed(c: Content, key: Key, leaf: Digest): Content {
    if key !in c then c
    else if c[key] - {leaf} == {} then c - {key}
    else c[key := c[key] - {leaf}]
  }

  /** v lists the elements of s in ascending order; there are at least two. */
  ghost predicate Bucket(v: seq<Digest>, s: set<Digest>) {
    |v| >= 2 && Ascending(v) && v[0] in s && forall x :: x in v <==> x in s
  }

  /** A single leaf is stored as it is, several form a sorted bucket. */
  ghost predicate KeyOk(c: Content, leaves: map<Key, Digest>, buckets: map<Key, seq<Digest>>, k: Key) {
    if k in buckets then k !in leaves && k in c && Bucket(buckets[k], c[k])
    else if k in leaves then k in c && c[k] == {leaves[k]}
    else k !in c
  }

  ghost predicate LeavesOk(c: Content, leaves: map<Key, Digest>, buckets: map<Key, seq<Digest>>) {
    forall k: Key {:trigger KeyOk(c, leaves, buckets, k)} :: KeyOk(c, leaves, buckets, k)
  }

  /** Only the representation of one key changed. */
  lemma OneKeyChanged(c: Content, leaves: map<Key, Digest>, buckets: map<Key, seq<Digest>>,
                      c': Content, leaves': map<Key, Digest>, buckets': map<Key, seq<Digest>>, key: Key)
    requires LeavesOk(c, leaves, buckets) && KeyOk(c', leaves', buckets', key)
    requires c' - {key} == c - {key} && leaves' - {key} == leaves - {key} && buckets' - {key} == buckets - {key}
    ensures LeavesOk(c', leaves', buckets')
  {
    forall k: Key ensures KeyOk(c', leaves', buckets', k) {
      assert KeyOk(c, leaves, buckets, k);
      if k != key {
        SameEntry(c, c', key, k);
        SameEntry(leaves, leaves', key, k);
        SameEntry(buckets, buckets', key, k);
      }
    }
  }

  lemma SameEntry<V>(m: map<Key, V>, m': map<Key, V>, key: Key, k: Key)
    requires m' - {key} == m - {key} && k != key
    ensures (k in m <==> k in m') && (k in m ==> m[k] == m'[k])
  {
    assert k in m <==> k in m - {key};
    assert k in m' <==> k in m' - {key};
    assert k in m ==> m[k] == (m - {key})[k];
    assert k in m' ==> m'[k] == (m' - {key})[k];
  }

  ghost predicate HashOk(h: Hasher, c: Content, nodes: map<seq<bool>, BranchNode>, p: seq<bool>)
    requires p in nodes
  {
    |p| < D && nodes[p].hash == Naive(h, c, p)
  }

  /** Every stored hash is right except perhaps those on the path of key above depth d. */
  ghost predicate Fresh(h: Hasher, c: Content, nodes: map<seq<bool>, BranchNode>, key: Key, d: nat) {
    forall p {:trigger HashOk(h, c, nodes, p)} :: p in nodes && !(Under(p, key) && |p| < d) ==> HashOk(h, c, nodes, p)
  }

  /** Changing the leaves of key and adding nodes on its path leaves every other hash right. */
  lemma StaleOnlyOnPath(h: Hasher, c: Content, c': Content, nodes: map<seq<bool>, BranchNode>,
                        nodes': map<seq<bool>, BranchNode>, key: Key)
    requires forall p {:trigger HashOk(h, c, nodes, p)} :: p in nodes ==> HashOk(h, c, nodes, p)
    requires forall k: Key :: k != key ==> (k in c <==> k in c') && (k in c ==> c[k] == c'[k])
    requires forall p :: p in nodes' ==>
                           (p in nodes && nodes'[p].hash == nodes[p].hash) || (Under(p, key) && |p| < D)
    ensures Fresh(h, c', nodes', key, D)
  {
    forall p | p in nodes' && !(Under(p, key) && |p| < D) ensures HashOk(h, c', nodes', p) {
      assert HashOk(h, c, nodes, p);
      NaiveFrame(h, c, c', p);
    }
  }

  lemma AllFresh(h: Hasher, c: Content, nodes: map<seq<bool>, BranchNode>, key: Key)
    requires Fresh(h, c, nodes, key, 0)
    ensures forall p {:trigger HashOk(h, c, nodes, p)} :: p in nodes ==> HashOk(h, c, nodes, p)
  {
  }

  lemma StepUp(ks: set<Key>, key: Key, d: nat)
    requires d < D && Occupied(ks, key[..d + 1])
    ensures key[..d] + [key[d]] == key[..d + 1] && Occupied(ks, key[..d])
  {
    var k :| k in ks && Under(key[..d + 1], k);
    assert key[..d] + [key[d]] == key[..d + 1];
    SplitUnder(key[..d], k, key[d]);
  }

  /** The sibling of a stored branch point's path child is off the path, so its hash is right. */
  lemma SiblingReady(h: Hasher, c: Content, nodes: map<seq<bool>, BranchNode>, key: Key, d: nat)
    requires ShapeOk(c.Keys, nodes) && d < D && Fresh(h, c, nodes, key, d + 1) && key[..d] in nodes
    ensures var sib := Side(nodes[key[..d]], !key[d]);
            && SlotOk(c.Keys, key[..d] + [!key[d]], sib)
            && (sib.Node? ==> sib.path in nodes && HashOk(h, c, nodes, sib.path))
  {
    var packed, w := key[..d], key[..d] + [!key[d]];
    var sib := Side(nodes[packed], !key[d]);
    assert NodeOk(c.Keys, nodes, packed);
    SplitUnder(packed, key, !key[d]);
    if sib.Node? {
      if Under(sib.path, key) { PrefixOfPrefix(w, sib.path, key); }
      assert HashOk(h, c, nodes, sib.path);
    }
  }

  lemma NoSibling(ks: set<Key>, nodes: map<seq<bool>, BranchNode>, key: Key, d: nat)
    requires ShapeOk(ks, nodes) && d < D && key[..d] !in nodes && Occupied(ks, key[..d + 1])
    ensures !Occupied(ks, key[..d] + [!key[d]])
  {
    assert key[..d] + [key[d]] == key[..d + 1];
    assert !IsBranch(ks, key[..d]);
  }

  /** Storing the right hash at depth d of the path moves the stale part up by one. */
  lemma HashStored(h: Hasher, c: Content, nodes: map<seq<bool>, BranchNode>, key: Key, d: nat)
    requires ShapeOk(c.Keys, nodes) && d < D && Fresh(h, c, nodes, key, d + 1)
    ensures key[..d] !in nodes ==> Fresh(h, c, nodes, key, d)
    ensures key[..d] in nodes ==>
              var nodes' := nodes[key[..d] := nodes[key[..d]].(hash := Naive(h, c, key[..d]))];
              ShapeOk(c.Keys, nodes') && Fresh(h, c, nodes', key, d)
  {
    var packed := key[..d];
    var nodes' := if packed in nodes then nodes[packed := nodes[packed].(hash := Naive(h, c, packed))] else nodes;
    forall p | p in nodes' ensures NodeOk(c.Keys, nodes', p) {
      assert NodeOk(c.Keys, nodes, p);
    }
    forall p | p in nodes' && !(Under(p, key) && |p| < d) ensures HashOk(h, c, nodes', p) {
      if Under(p, key) && |p| == d {
        assert p == packed;
      } else {
        assert HashOk(h, c, nodes, p);
      }
    }
  }

  /** Hashes after the deepest branch point r on the path is gone: all those off the path stay right. */
  lemma CollapsedHashes(h: Hasher, c: Content, nodes: map<seq<bool>, BranchNode>, nodes': map<seq<bool>, BranchNode>,
                        key: Key, d: nat)
    requires forall p {:trigger HashOk(h, c, nodes, p)} :: p in nodes ==> HashOk(h, c, nodes, p)
    requires forall p :: p in nodes' ==> p in nodes && nodes'[p].hash == nodes[p].hash && (Under(p, key) ==> |p| < d)
    ensures Fresh(h, c - {key}, nodes', key, d)
  {
    forall p | p in nodes' && !(Under(p, key) && |p| < d) ensures HashOk(h, c - {key}, nodes', p) {
      assert HashOk(h, c, nodes, p);
      NaiveFrame(h, c, c - {key}, p);
    }
  }

  ghost predicate SlotReady(h: Hasher, c: Content, nodes: map<seq<bool>, BranchNode>, w: seq<bool>, s: Slot) {
    && SlotOk(c.Keys, w, s)
    && (s.Node? ==> s.path in nodes && HashOk(h, c, nodes, s.path))
  }

  /** Everything the collapse of the deepest branch point needs to know. */
  lemma CollapseFacts(h: Hasher, c: Content, nodes: map<seq<bool>, BranchNode>, root: Slot, key: Key,
                      stack: seq<(seq<bool>, bool)>, slot: SlotRef, pos: seq<bool>)
    requires key in c && Located(c.Keys, nodes, root, key, stack, slot, Chain(key), pos) && stack != []
    requires forall p {:trigger HashOk(h, c, nodes, p)} :: p in nodes ==> HashOk(h, c, nodes, p)
    ensures var (r, b) := stack[|stack| - 1];
            && r in nodes && !Side(nodes[r], !b).Empty?
            && AboveLostOk(nodes - {r}, key, stack)
            && var (other, up, w) := (Side(nodes[r], !b), AboveLost(stack), AboveLostPath(stack));
               var (c', nodes') := (c - {key}, Written(nodes - {r}, up, other));
               && ShapeOk(c'.Keys, nodes') && SlotOk(c'.Keys, [], WrittenRoot(root, up, other))
               && SlotReady(h, c', nodes', w, other)
               && Occupied(c'.Keys, w) && c' != map[]
               && Fresh(h, c', nodes', key, |w|)
  {
    hide SlotOk, ShapeOk;
    var ks, c' := c.Keys, c - {key};
    assert c'.Keys == ks - {key};
    var (r, b) := stack[|stack| - 1];
    var other, up, w := Side(nodes[r], !b), AboveLost(stack), AboveLostPath(stack);
    LostSlot(ks, nodes, root, key, stack, slot, pos);
    ShrunkShape(ks, nodes, root, key, stack, slot, pos);
    AboveLostHolds(nodes, key, stack);
    var nodes' := Written(nodes - {r}, up, other);
    forall p | p in nodes' ensures Under(p, key) ==> |p| < |w| {
      if Under(p, key) { StackBelowLost(ks, nodes, key, stack, p); }
    }
    CollapsedHashes(h, c, nodes, nodes', key, |w|);
    NodeAt(ks, nodes, r);
    OtherSideOffPath(ks, key, r, other);
    if other.Node? { StoredBranch(ks, nodes, r, other, key, nodes', h, c', |w|); }
  }

  /** The deepest stored ancestor after the collapse is the second entry of the stack, if any. */
  ghost predicate AboveLostOk(nodes: map<seq<bool>, BranchNode>, key: Key, stack: seq<(seq<bool>, bool)>)
    requires stack != []
  {
    && stack[|stack| - 1].0 !in nodes
    && (|stack| >= 2 ==>
          var (p, b) := stack[|stack| - 2];
          p in nodes && |p| < D && p + [b] == key[..|p| + 1])
  }

  lemma AboveLostHolds(nodes: map<seq<bool>, BranchNode>, key: Key, stack: seq<(seq<bool>, bool)>)
    requires stack != [] && Trail(nodes, key, stack, D)
    ensures AboveLostOk(nodes - {stack[|stack| - 1].0}, key, stack)
    ensures Under(AboveLostPath(stack), key)
  {
  }

  lemma StackBelowLost(ks: set<Key>, nodes: map<seq<bool>, BranchNode>, key: Key, stack: seq<(seq<bool>, bool)>,
                       p: seq<bool>)
    requires stack != [] && ShapeOk(ks, nodes) && Trail(nodes, key, stack, D) && Complete(nodes, key, stack, D)
    requires p in nodes && Under(p, key) && p != stack[|stack| - 1].0
    ensures |p| < |AboveLostPath(stack)|
  {
    hide IsBranch, NodeOk;
    BranchDepth(ks, p);
    assert OnStack(stack, p);
    var i :| 0 <= i < |stack| && stack[i].0 == p;
    assert i <= |stack| - 2;
  }

  lemma NodeAt(ks: set<Key>, nodes: map<seq<bool>, BranchNode>, r: seq<bool>)
    requires ShapeOk(ks, nodes) && r in nodes
    ensures |r| < D && SlotOk(ks, r + [false], nodes[r].left) && SlotOk(ks, r + [true], nodes[r].right)
  {
    assert NodeOk(ks, nodes, r);
  }

  lemma StoredBranch(ks: set<Key>, nodes: map<seq<bool>, BranchNode>, r: seq<bool>, other: Slot, key: Key,
                     nodes': map<seq<bool>, BranchNode>, h: Hasher, c': Content, d: nat)
    requires ShapeOk(ks, nodes) && other.Node? && IsBranch(ks, other.path) && !Under(other.path, key) && Under(r, key)
    requires nodes'.Keys == nodes.Keys - {r} && Fresh(h, c', nodes', key, d)
    ensures other.path in nodes' && HashOk(h, c', nodes', other.path)
  {
    hide IsBranch, NodeOk, HashOk;
  }

  /** These fields store the content c: right leaves, right shape, right hashes. */
  ghost predicate Represents(h: Hasher, c: Content, leaves: map<Key, Digest>, buckets: map<Key, seq<Digest>>,
                             nodes: map<seq<bool>, BranchNode>, rootChild: Slot, rootHash: Option<Digest>)
  {
    && LeavesOk(c, leaves, buckets)
    && ShapeOk(c.Keys, nodes)
    && SlotOk(c.Keys, [], rootChild)
    && (forall p {:trigger HashOk(h, c, nodes, p)} :: p in nodes ==> HashOk(h, c, nodes, p))
    && rootHash == if c == map[] then None else Some(Naive(h, c, []))
  }

  // ----- the descent along a key -----

  lemma PushTrail(ks: set<Key>, nodes: map<seq<bool>, BranchNode>, key: Key, stack: seq<(seq<bool>, bool)>,
                  pos: seq<bool>, q: seq<bool>)
    requires ShapeOk(ks, nodes) && Under(pos, key) && SlotOk(ks, pos, Node(q)) && Under(q, key)
    requires Trail(nodes, key, stack, |pos|) && Complete(nodes, key, stack, |pos|)
    ensures Trail(nodes, key, stack + [(q, key[|q|])], |q| + 1)
    ensures Complete(nodes, key, stack + [(q, key[|q|])], |q| + 1)
  {
    var stack' := stack + [(q, key[|q|])];
    NodeSlotIsBranch(ks, pos, Node(q));
    hide SlotOk, IsBranch, Under, Trail;
    LongerTrail(nodes, key, stack, |pos|, q);
    assert stack'[|stack|].0 == q;
    forall p | p in nodes && Under(p, key) && |p| < |q| + 1 ensures OnStack(stack', p) {
      if |p| < |pos| {
        StillOnStack(stack, (q, key[|q|]), p);
      } else {
        NoBranchBetween(ks, key, pos, q, p);
      }
    }
  }

  lemma LongerTrail(nodes: map<seq<bool>, BranchNode>, key: Key, stack: seq<(seq<bool>, bool)>, len: nat, q: seq<bool>)
    requires Trail(nodes, key, stack, len) && len <= |q| < D && q in nodes && Under(q, key)
    ensures Trail(nodes, key, stack + [(q, key[|q|])], |q| + 1)
  {
  }

  lemma StillOnStack(stack: seq<(seq<bool>, bool)>, top: (seq<bool>, bool), p: seq<bool>)
    requires OnStack(stack, p)
    ensures OnStack(stack + [top], p)
  {
    var i :| 0 <= i < |stack| && stack[i].0 == p;
    assert (stack + [top])[i].0 == p;
  }

  lemma NoBranchBetween(ks: set<Key>, key: Key, pos: seq<bool>, q: seq<bool>, p: seq<bool>)
    requires Under(pos, key) && SlotOk(ks, pos, Node(q)) && Under(q, key)
    requires IsBranch(ks, p) && Under(p, key) && |pos| <= |p| <= |q|
    ensures p == q
  {
    PrefixOfPrefix(pos, p, key);
    OnPathSlot(ks, pos, Node(q), p);
    assert p == key[..|p|] == q;
  }

  lemma Descend(ks: set<Key>, nodes: map<seq<bool>, BranchNode>, key: Key, stack: seq<(seq<bool>, bool)>,
                pos: seq<bool>, q: seq<bool>)
    requires ShapeOk(ks, nodes) && Under(pos, key) && SlotOk(ks, pos, Node(q)) && Under(q, key)
    requires Trail(nodes, key, stack, |pos|) && Complete(nodes, key, stack, |pos|)
    ensures q in nodes && |pos| <= |q| < D && Under(q + [key[|q|]], key)
    ensures SlotOk(ks, q + [key[|q|]], Side(nodes[q], key[|q|]))
    ensures Trail(nodes, key, stack + [(q, key[|q|])], |q| + 1)
    ensures Complete(nodes, key, stack + [(q, key[|q|])], |q| + 1)
  {
    PushTrail(ks, nodes, key, stack, pos, q);
    assert NodeOk(ks, nodes, q);
    SplitUnder(q, key, key[|q|]);
  }

  lemma NoneAbove(nodes: map<seq<bool>, BranchNode>, key: Key)
    ensures Complete(nodes, key, [], 0)
  {
  }

  lemma TrailEnds(ks: set<Key>, nodes: map<seq<bool>, BranchNode>, key: Key, stack: seq<(seq<bool>, bool)>,
                  pos: seq<bool>, repr: Slot)
    requires ShapeOk(ks, nodes) && Under(pos, key) && SlotOk(ks, pos, repr)
    requires repr.Node? ==> !Under(repr.path, key)
    requires Complete(nodes, key, stack, |pos|)
    ensures Complete(nodes, key, stack, D)
  {
    forall p | p in nodes && Under(p, key) ensures |p| < |pos| {
      if |p| >= |pos| {
        PrefixOfPrefix(pos, p, key);
        OnPathSlot(ks, pos, repr, p);
        PrefixOfPrefix(repr.path, p, key);
      }
    }
  }

  class Smt {
    const h: Hasher
    var leaves: map<Key, Digest>
    var buckets: map<Key, seq<Digest>>
    var nodes: map<seq<bool>, BranchNode>
    var rootChild: Slot
    var rootHash: Option<Digest>
    /** The leaves the tree commits to. */
    ghost var content: Content

    ghost predicate Valid()
      reads this
    {
      Represents(h, content, leaves, buckets, nodes, rootChild, rootHash)
    }

    constructor (h: Hasher)
      ensures Valid() && content == map[] && this.h == h
    {
      this.h := h;
      leaves, buckets, nodes := map[], map[], map[];
      rootChild, rootHash := Empty, None;
      content := map[];
    }

    /** Cached root: the full Merkle tree over the content, in constant time. */
    method RootHash() returns (r: Digest)
      requires Valid()
      ensures r == Naive(h, content, [])
    {
      if rootHash.Some? {
        r := rootHash.value;
      } else {
        r := Default(h, D);
        EmptySubtree(h, content, []);
      }
    }

    static method BucketMerkleRoot(h: Hasher, entries: seq<Digest>) returns (r: Digest)
      ensures r == BucketRoot(h, entries)
    {
      if |entries| == 0 { return ZERO_DIGEST; }
      var level := entries;
      while |level| > 1
        invariant |level| >= 1
        invariant BucketRoot(h, level) == BucketRoot(h, entries)
        decreases |level|
      {
        level := HashPairs(h, level);
      }
      r := level[0];
    }

    /** One level up: an odd last hash is duplicated, then neighbours are hashed. */
    static method HashPairs(h: Hasher, input: seq<Digest>) returns (next: seq<Digest>)
      requires |input| >= 1
      ensures next == PairUp(h, input)
    {
      var level := input;
      if |level| % 2 != 0 {
        level := level + [level[|level| - 1]];
      }
      next := [];
      while 2 * |next| < |level|
        invariant 2 * |next| <= |level|
        invariant forall i :: 0 <= i < |next| ==> next[i] == PairUp(h, input)[i]
        decreases |level| - 2 * |next|
      {
        PairUpAt(h, input, |next|);
        next := next + [h.pair(level[2 * |next|], level[2 * |next| + 1])];
      }
    }

    method BucketRootOf(key: Key) returns (r: Digest)
      requires LeavesOk(content, leaves, buckets)
      ensures r == LeafValue(h, content, key)
    {
      assert KeyOk(content, leaves, buckets, key);
      if key in buckets {
        r := BucketMerkleRoot(h, buckets[key]);
        AscendingUnique(buckets[key], Sorted(content[key]));
      } else if key in leaves {
        r := leaves[key];
        AscendingUnique([r], Sorted(content[key]));
      } else {
        r := h.empty;
      }
    }

    /** Lifts the value v of the subtree at q to depth `from`, through an implicit chain. */
    method LiftChain(q: seq<bool>, v0: Digest, from: nat) returns (v: Digest)
      requires from <= |q| <= D
      ensures v == Lift(h, q, v0, from)
    {
      v := v0;
      for d := |q| downto from
        invariant v == Lift(h, q, v0, d)
      {
        v := if q[d] then h.node(Default(h, D - 1 - d), v) else h.node(v, Default(h, D - 1 - d));
      }
    }

    method Fold(k: Key, from: nat) returns (v: Digest)
      requires LeavesOk(content, leaves, buckets) && from <= D
      ensures v == Lift(h, k, LeafValue(h, content, k), from)
      ensures (forall other :: other in content.Keys && Under(k[..from], other) ==> other == k) ==>
                v == Naive(h, content, k[..from])
    {
      var leaf := BucketRootOf(k);
      v := LiftChain(k, leaf, from);
      if forall other :: other in content.Keys && Under(k[..from], other) ==> other == k {
        LiftIsNaive(h, content, k, from);
      }
    }

    /** Value of the full subtree at path w, read off the slot stored there. */
    method SlotValue(repr: Slot, ghost w: seq<bool>, depth: nat) returns (v: Digest)
      requires LeavesOk(content, leaves, buckets) && |w| == depth <= D
      requires SlotOk(content.Keys, w, repr)
      requires repr.Node? ==> repr.path in nodes && HashOk(h, content, nodes, repr.path)
      ensures v == Naive(h, content, w)
    {
      match repr
      case Empty =>
        EmptySubtree(h, content, w);
        v := Default(h, D - depth);
      case Chain(k) =>
        v := Fold(k, depth);
        assert k[..depth] == w;
        LiftIsNaive(h, content, k, depth);
      case Node(q) =>
        v := LiftChain(q, nodes[q].hash, depth);
        assert q[..depth] == w;
        LiftIsNaive(h, content, q, depth);
    }

    /** Descends along key to the terminal slot; the stack lists every branch point on the way. */
    method LocateFull(ghost ks: set<Key>, key: Key)
      returns (stack: seq<(seq<bool>, bool)>, slot: SlotRef, repr: Slot, ghost pos: seq<bool>)
      requires ShapeOk(ks, nodes) && SlotOk(ks, [], rootChild)
      ensures Located(ks, nodes, rootChild, key, stack, slot, repr, pos)
      ensures if slot.Root? then repr == rootChild else slot.parent in nodes && repr == Side(nodes[slot.parent], slot.bit)
    {
      hide SlotOk, ShapeOk, Complete;
      NoneAbove(nodes, key);
      stack, slot, repr, pos := [], Root, rootChild, [];
      while repr.Node? && repr.path <= key
        invariant Under(pos, key) && SlotOk(ks, pos, repr)
        invariant SlotAt(nodes, rootChild, stack, slot, repr, pos)
        invariant Trail(nodes, key, stack, |pos|) && Complete(nodes, key, stack, |pos|)
        decreases D - |pos|
      {
        var q := repr.path;
        Descend(ks, nodes, key, stack, pos, q);
        var bit := key[|q|];
        stack := stack + [(q, bit)];
        slot := Child(q, bit);
        pos := q + [bit];
        repr := Side(nodes[q], bit);
      }
      TrailEnds(ks, nodes, key, stack, pos, repr);
    }

    method WriteSlot(slot: SlotRef, val: Slot)
      requires slot.Child? ==> slot.parent in nodes
      modifies this`nodes, this`rootChild
      ensures nodes == Written(old(nodes), slot, val) && rootChild == WrittenRoot(old(rootChild), slot, val)
    {
      match slot
      case Root =>
        rootChild := val;
      case Child(parent, bit) =>
        nodes := nodes[parent := WithSide(nodes[parent], bit, val)];
    }

    /** Rewrites the hashes on the path of key above depth v0Depth, and the cached root. */
    method RecomputeFrom(key: Key, v0: Digest, v0Depth: nat)
      requires LeavesOk(content, leaves, buckets) && ShapeOk(content.Keys, nodes)
      requires v0Depth <= D && v0 == Naive(h, content, key[..v0Depth])
      requires Occupied(content.Keys, key[..v0Depth])
      requires Fresh(h, content, nodes, key, v0Depth)
      modifies this`nodes, this`rootHash
      ensures ShapeOk(content.Keys, nodes) && nodes.Keys == old(nodes.Keys)
      ensures forall p {:trigger HashOk(h, content, nodes, p)} :: p in nodes ==> HashOk(h, content, nodes, p)
      ensures rootHash == Some(Naive(h, content, []))
    {
      hide SlotOk, ShapeOk, Fresh, Under, LeavesOk;
      var v := v0;
      for d := v0Depth downto 0
        invariant v == Naive(h, content, key[..d]) && Occupied(content.Keys, key[..d])
        invariant ShapeOk(content.Keys, nodes) && nodes.Keys == old(nodes.Keys)
        invariant Fresh(h, content, nodes, key, d)
      {
        var packed, bit := key[..d], key[d];
        StepUp(content.Keys, key, d);
        HashStored(h, content, nodes, key, d);
        if packed in nodes {
          SiblingReady(h, content, nodes, key, d);
          var sibVal := SlotValue(Side(nodes[packed], !bit), packed + [!bit], d + 1);
          v := if bit then h.node(sibVal, v) else h.node(v, sibVal);
          nodes := nodes[packed := nodes[packed].(hash := v)];
        } else {
          NoSibling(content.Keys, nodes, key, d);
          EmptySubtree(h, content, packed + [!bit]);
          v := if bit then h.node(Default(h, D - 1 - d), v) else h.node(v, Default(h, D - 1 - d));
        }
      }
      assert key[..0] == [];
      rootHash := Some(v);
      AllFresh(h, content, nodes, key);
    }

    // ----- leaves -----

    static method BinarySearch(v: seq<Digest>, x: Digest) returns (found: bool, pos: nat)
      requires Ascending(v)
      ensures pos <= |v| && (found ==> pos < |v| && v[pos] == x)
      ensures !found ==> (forall i :: 0 <= i < pos ==> v[i] < x) && forall i :: pos <= i < |v| ==> x < v[i]
    {
      var lo, hi := 0, |v|;
      while lo < hi
        invariant lo <= hi <= |v|
        invariant (forall i :: 0 <= i < lo ==> v[i] < x) && forall i :: hi <= i < |v| ==> x < v[i]
      {
        var mid := (lo + hi) / 2;
        if v[mid] == x { return true, mid; }
        if v[mid] < x { lo := mid + 1; } else { hi := mid; }
      }
      found, pos := false, lo;
    }

    method InsertLeaf(key: Key, leaf: Digest) returns (touched: bool)
      requires LeavesOk(content, leaves, buckets)
      modifies this`leaves, this`buckets
      ensures LeavesOk(Added(content, key, leaf), leaves, buckets)
      ensures touched <==> !(key in content && leaf in content[key])
    {
      hide LeavesOk, Bucket, Ascending;
      AtKey(content, leaves, buckets, key);
      ghost var added := (if key in content then content[key] else {}) + {leaf};
      if key in buckets {
        var v := buckets[key];
        BucketFacts(v, content[key]);
        var found, pos := BinarySearch(v, leaf);
        touched := !found;
        if !found {
          NotInBucket(v, leaf, pos);
          BucketGrows(v, content[key], leaf, pos);
          buckets := buckets[key := v[..pos] + [leaf] + v[pos..]];
        } else {
          assert v[pos] in v;
          assert added == content[key];
        }
      } else if key in leaves {
        var first := leaves[key];
        touched := first != leaf;
        if first != leaf {
          var v := if first < leaf then [first, leaf] else [leaf, first];
          TwoLeaves(v);
          assert added == {v[0], v[1]};
          buckets := buckets[key := v];
          leaves := leaves - {key};
        } else {
          assert added == content[key];
        }
      } else {
        leaves := leaves[key := leaf];
        touched := true;
      }
      OneKeyChanged(content, old(leaves), old(buckets), Added(content, key, leaf), leaves, buckets, key);
    }

    method RemoveLeaf(key: Key, leaf: Digest) returns (touched: bool, keyEmptied: bool)
      requires LeavesOk(content, leaves, buckets)
      modifies this`leaves, this`buckets
      ensures LeavesOk(Removed(content, key, leaf), leaves, buckets)
      ensures touched <==> key in content && leaf in content[key]
      ensures keyEmptied <==> key in content && content[key] == {leaf}
    {
      hide LeavesOk, Bucket, Ascending;
      AtKey(content, leaves, buckets, key);
      ghost var left := if key in content then content[key] - {leaf} else {};
      keyEmptied, touched := false, false;
      if key in buckets {
        var v := buckets[key];
        BucketFacts(v, content[key]);
        var found, pos := BinarySearch(v, leaf);
        if found {
          assert v[pos] in v;
          var rest := v[..pos] + v[pos + 1..];
          BucketShrinks(v, content[key], pos);
          touched := true;
          if |rest| == 1 {
            buckets := buckets - {key};
            leaves := leaves[key := rest[0]];
          } else {
            buckets := buckets[key := rest];
            BucketFacts(rest, left);
          }
        } else {
          NotInBucket(v, leaf, pos);
          assert left == content[key];
        }
      } else if key in leaves && leaves[key] == leaf {
        leaves := leaves - {key};
        keyEmptied := true;
        touched := true;
      } else {
        assert key in content ==> left == content[key];
      }
      OneKeyChanged(content, old(leaves), old(buckets), Removed(content, key, leaf), leaves, buckets, key);
    }

    static lemma AtKey(c: Content, leaves: map<Key, Digest>, buckets: map<Key, seq<Digest>>, key: Key)
      requires LeavesOk(c, leaves, buckets)
      ensures KeyOk(c, leaves, buckets, key)
    {
    }

    static lemma BucketFacts(v: seq<Digest>, s: set<Digest>)
      requires Bucket(v, s)
      ensures |v| >= 2 && Ascending(v) && forall x :: x in v <==> x in s
      ensures s != {} && forall x :: s != {x}
    {
      assert v[0] in v && v[1] in v;
      assert v[0] != v[1];
      assert v[0] in s && v[1] in s;
    }

    static lemma TwoLeaves(v: seq<Digest>)
      requires |v| == 2 && v[0] < v[1]
      ensures Bucket(v, {v[0], v[1]})
    {
    }

    static lemma NotInBucket(v: seq<Digest>, x: Digest, pos: nat)
      requires pos <= |v| && (forall i :: 0 <= i < pos ==> v[i] < x) && forall i :: pos <= i < |v| ==> x < v[i]
      ensures x !in v
    {
    }

    static lemma BucketGrows(v: seq<Digest>, s: set<Digest>, x: Digest, pos: nat)
      requires Bucket(v, s) && pos <= |v|
      requires (forall i :: 0 <= i < pos ==> v[i] < x) && forall i :: pos <= i < |v| ==> x < v[i]
      ensures Bucket(v[..pos] + [x] + v[pos..], s + {x})
    {
      var w := v[..pos] + [x] + v[pos..];
      assert forall i :: 0 <= i < pos ==> w[i] == v[i];
      assert w[pos] == x;
      assert forall i :: pos < i < |w| ==> w[i] == v[i - 1];
      forall y | y in s ensures y in w {
        var i :| 0 <= i < |v| && v[i] == y;
        assert w[if i < pos then i else i + 1] == y;
      }
      forall y | y in w ensures y in s + {x} {
        var i :| 0 <= i < |w| && w[i] == y;
        if i != pos { assert y == v[if i < pos then i else i - 1]; }
      }
    }

    static lemma BucketShrinks(v: seq<Digest>, s: set<Digest>, pos: nat)
      requires Bucket(v, s) && pos < |v|
      ensures var rest := v[..pos] + v[pos + 1..];
              if |rest| == 1 then s - {v[pos]} == {rest[0]} else Bucket(rest, s - {v[pos]})
    {
      var rest := v[..pos] + v[pos + 1..];
      forall x | x in v && x != v[pos] ensures x in rest {
        var i :| 0 <= i < |v| && v[i] == x;
        assert rest[if i < pos then i else i - 1] == x;
      }
      assert rest[0] in rest;
    }

    // ----- insertion -----

    /** First position at which key leaves the stem t. */
    static method DivergenceDepth(t: seq<bool>, key: Key) returns (div: nat)
      requires |t| <= D && !(t <= key)
      ensures Diverges(t, key, div)
    {
      div := 0;
      while t[div] == key[div]
        invariant div < |t| && (forall i :: 0 <= i < div ==> t[i] == key[i]) && !(t <= key)
        decreases |t| - div
      {
        div := div + 1;
      }
    }

    static lemma NewBranchOnPath(key: Key, div: nat)
      requires div < D
      ensures Under(key[..div], key) && |key[..div]| < D
    {
    }

    /** Stores the new branch point and refers to it from the terminal slot. */
    method AddBranch(ghost ks: set<Key>, key: Key, ghost stack: seq<(seq<bool>, bool)>, slot: SlotRef, repr: Slot,
                     ghost pos: seq<bool>, div: nat)
      requires key !in ks && Located(ks, nodes, rootChild, key, stack, slot, repr, pos) && !repr.Empty?
      requires Diverges(Stem(repr), key, div)
      modifies this`nodes, this`rootChild
      ensures ShapeOk(ks + {key}, nodes) && SlotOk(ks + {key}, [], rootChild)
      ensures forall p :: p in nodes ==>
                            (p in old(nodes) && nodes[p].hash == old(nodes)[p].hash) || (Under(p, key) && |p| < D)
    {
      hide SlotOk, ShapeOk, Located, Under;
      NewBranchOnPath(key, div);
      var np := key[..div];
      var n := if key[div] then BranchNode(h.empty, repr, Chain(key)) else BranchNode(h.empty, Chain(key), repr);
      GrownShape(ks, nodes, rootChild, key, stack, slot, repr, pos, div, n);
      nodes := nodes[np := n];
      WriteSlot(slot, Node(np));
    }

    /** Makes room for key in the tree of the keys ks: one new branch point at most. */
    method GrowTree(ghost ks: set<Key>, key: Key)
      requires ShapeOk(ks, nodes) && SlotOk(ks, [], rootChild)
      modifies this`nodes, this`rootChild
      ensures ShapeOk(ks + {key}, nodes) && SlotOk(ks + {key}, [], rootChild)
      ensures forall p :: p in nodes ==>
                            (p in old(nodes) && nodes[p].hash == old(nodes)[p].hash) || (Under(p, key) && |p| < D)
    {
      hide SlotOk, ShapeOk, Located, Under;
      var stack, slot, repr, pos := LocateFull(ks, key);
      TerminalSlot(ks, nodes, rootChild, key, stack, slot, repr, pos);
      match repr {
        case Empty =>
          FirstKey(key);
          assert ks + {key} == {key};
          WriteSlot(slot, Chain(key));
        case Chain(k) =>
          if k != key {
            var div := DivergenceDepth(k, key);
            AddBranch(ks, key, stack, slot, repr, pos, div);
          } else {
            assert ks + {key} == ks;
          }
        case Node(q) =>
          var div := DivergenceDepth(q, key);
          AddBranch(ks, key, stack, slot, repr, pos, div);
      }
    }

    /** Adds a leaf under key: one new branch point at most, and only the hashes on the path change. */
    method Insert(key: Key, leaf: Digest)
      requires Valid()
      modifies this
      ensures Valid() && content == Added(old(content), key, leaf)
    {
      hide SlotOk, ShapeOk, LeavesOk, HashOk, Located, Under, Occupied;
      ghost var c, ks := content, content.Keys;
      var touched := InsertLeaf(key, leaf);
      content := Added(c, key, leaf);
      if !touched {
        assert c[key] + {leaf} == c[key];
        assert content == c;
        return;
      }
      GrowTree(ks, key);
      assert content.Keys == ks + {key};
      StaleOnlyOnPath(h, c, content, old(nodes), nodes, key);
      var v0 := BucketRootOf(key);
      OwnPath(content.Keys, key);
      RecomputeFrom(key, v0, D);
    }

    // ----- removal -----

    /** Removes a leaf from key; an emptied key collapses the one branch point above it. */
    method Remove(key: Key, leaf: Digest)
      requires Valid()
      modifies this
      ensures Valid() && content == Removed(old(content), key, leaf)
    {
      hide SlotOk, ShapeOk, LeavesOk, HashOk, Located, Under, Occupied;
      ghost var c, ks := content, content.Keys;
      var touched, keyEmptied := RemoveLeaf(key, leaf);
      content := Removed(c, key, leaf);
      if !touched {
        assert key in c ==> c[key] - {leaf} == c[key];
        EmptiedBucket(c, old(leaves), old(buckets), key);
        assert content == c;
        return;
      }
      if keyEmptied {
        assert content.Keys == ks - {key};
        RemoveKey(c, key);
      } else {
        assert content.Keys == ks;
        StaleOnlyOnPath(h, c, content, nodes, nodes, key);
        var v0 := BucketRootOf(key);
        OwnPath(content.Keys, key);
        RecomputeFrom(key, v0, D);
        assert key in content;
      }
    }

    static lemma EmptiedBucket(c: Content, leaves: map<Key, Digest>, buckets: map<Key, seq<Digest>>, key: Key)
      requires LeavesOk(c, leaves, buckets)
      ensures key in c ==> c[key] != {}
    {
      assert KeyOk(c, leaves, buckets, key);
    }

    /** The deepest ancestor still stored takes the promoted subtree, and the hashes above it are refreshed. */
    method PlacePromoted(key: Key, stack: seq<(seq<bool>, bool)>, promoted: Slot)
      requires LeavesOk(content, leaves, buckets) && content != map[] && stack != []
      requires AboveLostOk(nodes, key, stack)
      requires var (up, w) := (AboveLost(stack), AboveLostPath(stack));
               var nodes' := Written(nodes, up, promoted);
               && ShapeOk(content.Keys, nodes') && SlotOk(content.Keys, [], WrittenRoot(rootChild, up, promoted))
               && SlotReady(h, content, nodes', w, promoted)
               && Occupied(content.Keys, w) && Fresh(h, content, nodes', key, |w|)
      modifies this`nodes, this`rootChild, this`rootHash
      ensures Valid()
    {
      hide SlotOk, ShapeOk, LeavesOk, HashOk, Occupied, Fresh, Under;
      var j := |stack|;
      while j > 0 && stack[j - 1].0 !in nodes
        invariant |stack| - 1 <= j <= |stack|
      {
        j := j - 1;
      }
      if j > 0 {
        var (p, b) := stack[j - 1];
        WriteSlot(Child(p, b), promoted);
        var v0 := SlotValue(promoted, p + [b], |p| + 1);
        RecomputeFrom(key, v0, |p| + 1);
      } else {
        rootChild := promoted;
        var v := SlotValue(rootChild, [], 0);
        AllFresh(h, content, nodes, key);
        rootHash := Some(v);
      }
    }

    /** Unlinks a key that lost its last leaf. */
    method RemoveKey(ghost c: Content, key: Key)
      requires key in c && content == c - {key} && LeavesOk(content, leaves, buckets)
      requires ShapeOk(c.Keys, nodes) && SlotOk(c.Keys, [], rootChild)
      requires forall p {:trigger HashOk(h, c, nodes, p)} :: p in nodes ==> HashOk(h, c, nodes, p)
      modifies this`nodes, this`rootChild, this`rootHash
      ensures Valid()
    {
      hide SlotOk, ShapeOk, LeavesOk, HashOk, Located, Under, Occupied;
      ghost var ks := c.Keys;
      assert content.Keys == ks - {key};
      var stack, slot, repr, pos := LocateFull(ks, key);
      TerminalSlot(ks, nodes, rootChild, key, stack, slot, repr, pos);
      if stack != [] { CollapseFacts(h, c, nodes, rootChild, key, stack, slot, pos); }
      // Climb from the deepest branch point until one with another child is found.
      var promoted, i := Empty, |stack|;
      while i > 0
        invariant 0 <= i <= |stack|
        invariant i == |stack| ==> promoted == Empty && nodes == old(nodes)
        invariant i < |stack| ==> i == |stack| - 1 && nodes == old(nodes) - {stack[i].0}
        invariant i < |stack| ==> promoted == Side(old(nodes)[stack[i].0], !stack[i].1) && !promoted.Empty?
        invariant rootChild == old(rootChild)
      {
        if !promoted.Empty? { break; }
        i := i - 1;
        var (parent, bit) := stack[i];
        var other := Side(nodes[parent], !bit);
        nodes := nodes - {parent};
        if !other.Empty? {
          promoted := other;
        } else {
          assert false;  // a branch point has two non-empty sides
        }
      }
      if !promoted.Empty? {
        PlacePromoted(key, stack, promoted);
      } else {
        if stack == [] {
          rootChild := Empty;
          rootHash := None;
          LastKey(ks, nodes, key);
          assert content.Keys == {};
          assert content == map[];
        } else {
          assert false;  // collapse without promotion
        }
      }
    }
  }
}
