/** The physical tree is a function of its content, whatever operations led to it. */
module SmtCanon {
  import opened Prelude
  import opened SmtSpec
  import opened SmtShape
  import opened SmtTree

  /** Equal content means equal leaves, buckets, branch points, root slot and cached root. */
  lemma PhysicalIsCanonical(h: Hasher, c: Content,
                            leaves: map<Key, Digest>, buckets: map<Key, seq<Digest>>,
                            nodes: map<seq<bool>, BranchNode>, rootChild: Slot, rootHash: Option<Digest>,
                            leaves': map<Key, Digest>, buckets': map<Key, seq<Digest>>,
                            nodes': map<seq<bool>, BranchNode>, rootChild': Slot, rootHash': Option<Digest>)
    requires Represents(h, c, leaves, buckets, nodes, rootChild, rootHash)
    requires Represents(h, c, leaves', buckets', nodes', rootChild', rootHash')
    ensures leaves == leaves' && buckets == buckets' && nodes == nodes'
    ensures rootChild == rootChild' && rootHash == rootHash'
  {
    forall k: Key
      ensures (k in leaves <==> k in leaves') && (k in leaves ==> leaves[k] == leaves'[k])
      ensures (k in buckets <==> k in buckets') && (k in buckets ==> buckets[k] == buckets'[k])
    {
      SameLeaves(c, leaves, buckets, leaves', buckets', k);
    }
    SlotUnique(c.Keys, [], rootChild, rootChild');
    forall p ensures (p in nodes <==> p in nodes') && (p in nodes ==> nodes[p] == nodes'[p]) {
      hide SlotOk, NodeOk, HashOk, IsBranch;
      if p in nodes { SameNode(h, c, nodes, nodes', p); }
    }
  }

  lemma SameLeaves(c: Content, leaves: map<Key, Digest>, buckets: map<Key, seq<Digest>>,
                   leaves': map<Key, Digest>, buckets': map<Key, seq<Digest>>, k: Key)
    requires LeavesOk(c, leaves, buckets) && LeavesOk(c, leaves', buckets')
    ensures (k in leaves <==> k in leaves') && (k in leaves ==> leaves[k] == leaves'[k])
    ensures (k in buckets <==> k in buckets') && (k in buckets ==> buckets[k] == buckets'[k])
  {
    hide Bucket;
    assert KeyOk(c, leaves, buckets, k) && KeyOk(c, leaves', buckets', k);
    if k in buckets { Smt.BucketFacts(buckets[k], c[k]); }
    if k in buckets' { Smt.BucketFacts(buckets'[k], c[k]); }
    if k in buckets && k in buckets' { AscendingUnique(buckets[k], buckets'[k]); }
  }

  lemma SameNode(h: Hasher, c: Content, nodes: map<seq<bool>, BranchNode>, nodes': map<seq<bool>, BranchNode>, p: seq<bool>)
    requires ShapeOk(c.Keys, nodes) && ShapeOk(c.Keys, nodes') && p in nodes
    requires forall q {:trigger HashOk(h, c, nodes, q)} :: q in nodes ==> HashOk(h, c, nodes, q)
    requires forall q {:trigger HashOk(h, c, nodes', q)} :: q in nodes' ==> HashOk(h, c, nodes', q)
    ensures p in nodes' && nodes[p] == nodes'[p]
  {
    hide SlotOk;
    assert HashOk(h, c, nodes, p) && HashOk(h, c, nodes', p);
    assert NodeOk(c.Keys, nodes, p) && NodeOk(c.Keys, nodes', p);
    SlotUnique(c.Keys, p + [false], nodes[p].left, nodes'[p].left);
    SlotUnique(c.Keys, p + [true], nodes[p].right, nodes'[p].right);
  }

  // ----- histories of operations -----

  datatype Op = Insert(key: Key, leaf: Digest) | Remove(key: Key, leaf: Digest)

  ghost function Apply(c: Content, op: Op): Content {
    match op
    case Insert(k, l) => Added(c, k, l)
    case Remove(k, l) => Removed(c, k, l)
  }

  ghost function Run(c: Content, ops: seq<Op>): Content
    decreases |ops|
  {
    if ops == [] then c else Run(Apply(c, ops[0]), ops[1..])
  }

  /** leaf is stored under key after the history exactly when its last mention there is an insertion. */
  ghost predicate LastIsInsert(c: Content, ops: seq<Op>, key: Key, leaf: Digest) {
    if ops == [] then key in c && leaf in c[key]
    else
      var last := ops[|ops| - 1];
      if last.key == key && last.leaf == leaf then last.Insert?
      else LastIsInsert(c, ops[..|ops| - 1], key, leaf)
  }

  lemma {:induction false} RunLast(c: Content, ops: seq<Op>, op: Op)
    ensures Run(c, ops + [op]) == Apply(Run(c, ops), op)
    decreases |ops|
  {
    if ops == [] {
      assert ops + [op] == [op];
      assert Run(Apply(c, op), []) == Apply(c, op);
    } else {
      assert (ops + [op])[1..] == ops[1..] + [op];
      RunLast(Apply(c, ops[0]), ops[1..], op);
    }
  }

  /** Order and repetition do not matter: the content remembers only the last word on each leaf. */
  lemma {:induction false} HistoryContent(c: Content, ops: seq<Op>, key: Key, leaf: Digest)
    requires WellFormed(c)
    ensures WellFormed(Run(c, ops))
    ensures (key in Run(c, ops) && leaf in Run(c, ops)[key]) <==> LastIsInsert(c, ops, key, leaf)
    decreases |ops|
  {
    if ops != [] {
      var front, last := ops[..|ops| - 1], ops[|ops| - 1];
      assert front + [last] == ops;
      RunLast(c, front, last);
      HistoryContent(c, front, key, leaf);
    }
  }

  /** An insertion that adds a leaf and the removal of that leaf cancel out, down to every stored field. */
  lemma InsertRemoveCancels(c: Content, key: Key, leaf: Digest)
    requires WellFormed(c) && !(key in c && leaf in c[key])
    ensures Removed(Added(c, key, leaf), key, leaf) == c
  {
    var before := if key in c then c[key] else {};
    assert before + {leaf} - {leaf} == before;
  }

  method InsertThenRemove(s: Smt, key: Key, leaf: Digest)
    requires s.Valid() && !(key in s.content && leaf in s.content[key])
    modifies s
    ensures s.Valid() && s.content == old(s.content)
    ensures s.leaves == old(s.leaves) && s.buckets == old(s.buckets) && s.nodes == old(s.nodes)
    ensures s.rootChild == old(s.rootChild) && s.rootHash == old(s.rootHash)
  {
    ContentWellFormed(s.content, s.leaves, s.buckets);
    InsertRemoveCancels(s.content, key, leaf);
    s.Insert(key, leaf);
    s.Remove(key, leaf);
    PhysicalIsCanonical(s.h, s.content, old(s.leaves), old(s.buckets), old(s.nodes), old(s.rootChild),
        old(s.rootHash), s.leaves, s.buckets, s.nodes, s.rootChild, s.rootHash);
  }

  lemma ContentWellFormed(c: Content, leaves: map<Key, Digest>, buckets: map<Key, seq<Digest>>)
    requires LeavesOk(c, leaves, buckets)
    ensures WellFormed(c)
  {
    forall k | k in c ensures c[k] != {} {
      assert KeyOk(c, leaves, buckets, k);
    }
  }

  // ----- number of branch points -----

  /** Length of the common prefix of two different keys. */
  ghost function CommonPrefix(a: Key, b: Key, d: nat): (r: nat)
    requires d < D && a[..d] == b[..d] && a[d..] != b[d..]
    ensures d <= r < D && a[..r] == b[..r] && a[r] != b[r]
    decreases D - d
  {
    if a[d] != b[d] then d
    else
      assert a[..d + 1] == a[..d] + [a[d]] && a[d..] == [a[d]] + a[d + 1..] && b[d..] == [b[d]] + b[d + 1..];
      CommonPrefix(a, b, d + 1)
  }

  ghost function Shared(a: Key, b: Key): nat
    requires a != b
  {
    assert a[0..] == a && b[0..] == b;
    CommonPrefix(a, b, 0)
  }

  lemma SharedBound(a: Key, b: Key, p: seq<bool>)
    requires a != b && Under(p, a) && Under(p, b)
    ensures |p| <= Shared(a, b)
  {
  }

  /** The key that shares the longest prefix with `key` marks the branch point just above it. */
  lemma {:induction false} Nearest(ks: set<Key>, key: Key) returns (near: Key)
    requires ks != {} && key !in ks
    ensures near in ks && forall k :: k in ks ==> Shared(key, k) <= Shared(key, near)
  {
    var x :| x in ks;
    var rest := ks - {x};
    if rest == {} {
      assert ks == {x};
      near := x;
    } else {
      var y := Nearest(rest, key);
      near := if Shared(key, x) <= Shared(key, y) then y else x;
      assert forall k :: k in ks ==> k == x || k in rest;
    }
  }

  lemma KeyLosesOneBranch(ks: set<Key>, key: Key) returns (r: seq<bool>)
    requires key in ks && ks - {key} != {}
    ensures IsBranch(ks, r)
    ensures forall p :: IsBranch(ks - {key}, p) <==> IsBranch(ks, p) && p != r
  {
    var near := Nearest(ks - {key}, key);
    var d := Shared(key, near);
    r := key[..d];
    SplitUnder(r, key, key[d]);
    SplitUnder(r, near, near[d]);
    assert Occupied(ks, r + [key[d]]) && Occupied(ks, r + [!key[d]]);
    assert IsBranch(ks, r) by { if key[d] {} else {} }
    forall k | k in ks && Under(r + [key[d]], k) ensures k == key {
      SplitUnder(r, k, key[d]);
      if k != key { SharedBound(key, k, r + [key[d]]); }
    }
    forall p | IsBranch(ks, p) && Under(p, key) ensures |p| <= d {
      var k :| k in ks && Under(p + [!key[|p|]], k);
      SplitUnder(p, k, !key[|p|]);
      assert k in ks - {key};
      SharedBound(key, k, p);
    }
    LostBranchPoint(ks, key, r);
  }

  /** n keys have n - 1 branch points. */
  lemma {:induction false} BranchCount(ks: set<Key>, branches: set<seq<bool>>)
    requires forall p :: p in branches <==> IsBranch(ks, p)
    ensures |branches| == if ks == {} then 0 else |ks| - 1
    decreases ks
  {
    if ks == {} {
      assert branches == {} by { assert forall p :: !IsBranch(ks, p); }
    } else {
      var key :| key in ks;
      if ks - {key} == {} {
        assert ks == {key};
        FirstKey(key);
        var none: map<seq<bool>, BranchNode> := map[];
        forall p ensures p !in branches { assert p in none <==> IsBranch({key}, p); }
        assert branches == {};
      } else {
        var r := KeyLosesOneBranch(ks, key);
        BranchCount(ks - {key}, branches - {r});
        assert |ks - {key}| == |ks| - 1 && |branches - {r}| == |branches| - 1;
      }
    }
  }

  /** The stored nodes: one fewer than the distinct keys. */
  lemma NodeCount(h: Hasher, c: Content, leaves: map<Key, Digest>, buckets: map<Key, seq<Digest>>,
                  nodes: map<seq<bool>, BranchNode>, rootChild: Slot, rootHash: Option<Digest>)
    requires Represents(h, c, leaves, buckets, nodes, rootChild, rootHash)
    ensures |nodes| == Max(0, |c| - 1)
  {
    BranchCount(c.Keys, nodes.Keys);
    assert |nodes| == |nodes.Keys| && |c| == |c.Keys|;
  }
}
