/** How the compact shape changes when one key enters or leaves the key set. */
module SmtShape {
  import opened SmtSpec

  /** The stored branch points are exactly those of the key set, with the right child slots. */
  ghost predicate ShapeOk(ks: set<Key>, nodes: map<seq<bool>, BranchNode>) {
    && (forall p :: p in nodes <==> IsBranch(ks, p))
    && (forall p {:trigger NodeOk(ks, nodes, p)} :: p in nodes ==> NodeOk(ks, nodes, p))
  }

  ghost predicate NodeOk(ks: set<Key>, nodes: map<seq<bool>, BranchNode>, p: seq<bool>)
    requires p in nodes
  {
    SlotOk(ks, p + [false], nodes[p].left) && SlotOk(ks, p + [true], nodes[p].right)
  }

  function Side(n: BranchNode, bit: bool): Slot {
    if bit then n.right else n.left
  }

  lemma SlotOffPath(ks: set<Key>, key: Key, w: seq<bool>, s: Slot)
    requires SlotOk(ks, w, s) && !Under(w, key)
    ensures SlotOk(ks + {key}, w, s) && SlotOk(ks - {key}, w, s)
  {
    match s
    case Empty =>
    case Chain(k) =>
    case Node(q) =>
      OffPathBranch(ks, key, q);
  }

  lemma OffPathBranch(ks: set<Key>, key: Key, q: seq<bool>)
    requires !Under(q, key)
    ensures IsBranch(ks, q) ==> IsBranch(ks + {key}, q) && IsBranch(ks - {key}, q)
  {
    if IsBranch(ks, q) {
      forall b ensures Occupied(ks + {key}, q + [b]) && Occupied(ks - {key}, q + [b]) {
        var k :| k in ks && Under(q + [b], k);
        SplitUnder(q, k, b);
        assert k in ks + {key} && k in ks - {key};
      }
    }
  }

  /** Between a slot and a branch point below it, the slot holds a branch point at or above that one. */
  lemma OnPathSlot(ks: set<Key>, w: seq<bool>, s: Slot, branch: seq<bool>)
    requires SlotOk(ks, w, s) && |w| <= D
    requires Under(w, branch) && IsBranch(ks, branch)
    ensures s.Node? && Under(s.path, branch)
  {
    BranchOccupied(ks, branch);
    var k0, k1 :| k0 in ks && k1 in ks && Under(branch, k0) && Under(branch, k1) && !k0[|branch|] && k1[|branch|];
    assert Under(w, k0) && Under(w, k1);
    if s.Node? {
      NestedBranch(ks, branch, s.path);
    }
  }

  lemma SlotGrows(ks: set<Key>, key: Key, w: seq<bool>, q: seq<bool>)
    requires SlotOk(ks, w, Node(q)) && Under(q, key)
    ensures SlotOk(ks + {key}, w, Node(q))
  {
    forall b ensures Occupied(ks + {key}, q + [b]) {
      var k :| k in ks && Under(q + [b], k);
      assert k in ks + {key};
    }
  }

  /** The stem of a non-empty slot: the longest path the slot vouches for. */
  function Stem(s: Slot): seq<bool>
    requires !s.Empty?
  {
    if s.Chain? then s.key else s.path
  }

  lemma StemCovers(ks: set<Key>, w: seq<bool>, s: Slot)
    requires SlotOk(ks, w, s) && !s.Empty?
    ensures Under(w, Stem(s)) && |Stem(s)| <= D && Occupied(ks, Stem(s)) && Occupied(ks, w)
    ensures forall k :: k in ks && Under(w, k) ==> Under(Stem(s), k)
  {
    if s.Node? {
      BranchOccupied(ks, s.path);
    } else {
      assert Under(s.key, s.key);
    }
  }

  /** div is the first position at which key leaves the stem t. */
  ghost predicate Diverges(t: seq<bool>, key: Key, div: nat) {
    div < |t| && div < D && t[..div] == key[..div] && t[div] != key[div]
  }

  /** A new key adds exactly one branch point, where it leaves the stem of its terminal slot. */
  lemma NewBranchPoint(ks: set<Key>, key: Key, pos: seq<bool>, s: Slot, div: nat)
    requires key !in ks && Under(pos, key) && SlotOk(ks, pos, s) && !s.Empty?
    requires Diverges(Stem(s), key, div)
    ensures |pos| <= div
    ensures forall p :: IsBranch(ks + {key}, p) <==> IsBranch(ks, p) || p == key[..div]
    ensures !IsBranch(ks, key[..div])
  {
    StemCovers(ks, pos, s);
    var t, np, ks' := Stem(s), key[..div], ks + {key};
    forall p | IsBranch(ks, p) ensures IsBranch(ks', p) && p != np {
      forall b ensures Occupied(ks', p + [b]) {
        var k :| k in ks && Under(p + [b], k);
        assert k in ks';
      }
      var k :| k in ks && Under(p + [key[div]], k);
      SplitUnder(p, k, key[div]);
      assert Under(pos, k) ==> Under(t, k);
    }
    var other :| other in ks && Under(t, other);
    SplitUnder(np, other, !key[div]);
    SplitUnder(np, key, key[div]);
    assert key in ks' && other in ks';
    assert Under(np, other);
    assert Occupied(ks', np + [key[div]]) && Occupied(ks', np + [!key[div]]);
    assert IsBranch(ks', np) by { if key[div] {} else {} }
    forall p | IsBranch(ks', p) && !IsBranch(ks, p) ensures p == np {
      OnlyNewBranch(ks, key, pos, t, div, p);
    }
  }

  lemma OnlyNewBranch(ks: set<Key>, key: Key, pos: seq<bool>, t: seq<bool>, div: nat, p: seq<bool>)
    requires Under(pos, key) && Under(pos, t) && |t| <= D && Occupied(ks, pos)
    requires forall k :: k in ks && Under(pos, k) ==> Under(t, k)
    requires Diverges(t, key, div)
    requires IsBranch(ks + {key}, p) && !IsBranch(ks, p)
    ensures p == key[..div]
  {
    var b := Occupied(ks, p + [false]);
    assert !Occupied(ks, p + [b]);
    assert Occupied(ks + {key}, p + [b]) by { if b {} else {} }
    assert Occupied(ks + {key}, p + [!b]) by { if b {} else {} }
    var k :| k in ks + {key} && Under(p + [b], k);
    assert k == key;
    SplitUnder(p, key, b);
    var k2 :| k2 in ks + {key} && Under(p + [!b], k2);
    SplitUnder(p, k2, !b);
    assert k2 != key && k2 in ks;
    assert |pos| <= |p| by {
      if |p| < |pos| { AgreeAbove(ks, pos, key, p, b); }
    }
    assert Under(pos, k2) by {
      assert forall i :: 0 <= i < |pos| ==> pos[i] == key[i] == p[i] == k2[i];
    }
    assert Under(t, k2);
    assert |p| >= div by {
      assert forall i :: 0 <= i < div ==> t[i] == t[..div][i] == key[..div][i] == key[i];
    }
    assert |p| <= div;
  }

  lemma AgreeAbove(ks: set<Key>, pos: seq<bool>, key: Key, p: seq<bool>, b: bool)
    requires Under(pos, key) && Occupied(ks, pos) && |p| < |pos|
    requires Under(p + [b], key)
    ensures Occupied(ks, p + [b])
  {
    var k :| k in ks && Under(pos, k);
    assert forall i :: 0 <= i <= |p| ==> (p + [b])[i] == key[i] == pos[i] == k[i];
    assert Under(p + [b], k);
  }

  /** The slots around the new branch point. */
  lemma NewBranchSlots(ks: set<Key>, key: Key, pos: seq<bool>, s: Slot, div: nat)
    requires key !in ks && Under(pos, key) && SlotOk(ks, pos, s) && !s.Empty?
    requires Diverges(Stem(s), key, div) && |pos| <= div
    requires IsBranch(ks + {key}, key[..div])
    ensures SlotOk(ks + {key}, pos, Node(key[..div]))
    ensures SlotOk(ks + {key}, key[..div] + [key[div]], Chain(key))
    ensures SlotOk(ks + {key}, key[..div] + [!key[div]], s)
  {
    var np, ks' := key[..div], ks + {key};
    forall k | k in ks' && Under(pos, k) ensures Under(np, k) && k[div] == if k == key then key[div] else !key[div] {
      StemCovers(ks, pos, s);
      if k != key { BelowStem(Stem(s), key, div, k); }
    }
    assert Under(pos, np);
    forall k | k in ks' && Under(np, k) ensures Under(pos, k) {
      assert forall i :: 0 <= i < |pos| ==> pos[i] == np[i] == k[i];
    }
    SplitUnder(np, key, key[div]);
    forall k | k in ks' && Under(np + [key[div]], k) ensures k == key { SplitUnder(np, k, key[div]); }
    NewBranchRest(ks, key, pos, s, div);
  }

  lemma BelowStem(t: seq<bool>, key: Key, div: nat, k: Key)
    requires Diverges(t, key, div) && Under(t, k)
    ensures Under(key[..div], k) && k[div] == !key[div]
  {
    assert forall i :: 0 <= i < div ==> key[i] == key[..div][i] == t[..div][i] == k[i];
  }

  lemma NewBranchRest(ks: set<Key>, key: Key, pos: seq<bool>, s: Slot, div: nat)
    requires key !in ks && SlotOk(ks, pos, s) && !s.Empty?
    requires Diverges(Stem(s), key, div) && |pos| <= div && Under(pos, key)
    ensures SlotOk(ks + {key}, key[..div] + [!key[div]], s)
  {
    StemCovers(ks, pos, s);
    var w := key[..div] + [!key[div]];
    SplitUnder(key[..div], key, !key[div]);
    assert Under(w, Stem(s)) by {
      assert forall i :: 0 <= i < div ==> key[i] == key[..div][i] == Stem(s)[..div][i];
    }
    forall k | k in ks && Under(w, k) ensures Under(pos, k) {
      assert forall i :: 0 <= i < |pos| ==> pos[i] == key[i] == w[i] == k[i];
    }
    if s.Node? {
      OffPathBranch(ks, key, s.path);
    }
  }

  /** A leaving key removes exactly the branch point above its terminal slot. */
  lemma LostBranchPoint(ks: set<Key>, key: Key, r: seq<bool>)
    requires key in ks && IsBranch(ks, r) && Under(r, key)
    requires SlotOk(ks, r + [key[|r|]], Chain(key))
    requires forall p :: IsBranch(ks, p) && Under(p, key) ==> |p| <= |r|
    ensures forall p :: IsBranch(ks - {key}, p) <==> IsBranch(ks, p) && p != r
  {
    forall p ensures IsBranch(ks - {key}, p) <==> IsBranch(ks, p) && p != r {
      if IsBranch(ks - {key}, p) {
        StillBranch(ks, key, r, p);
      } else if IsBranch(ks, p) && p != r {
        if Under(p, key) {
          KeptBranch(ks, key, p, r);
        } else {
          OffPathBranch(ks, key, p);
        }
      }
    }
  }

  lemma StillBranch(ks: set<Key>, key: Key, r: seq<bool>, p: seq<bool>)
    requires |r| < D && SlotOk(ks, r + [key[|r|]], Chain(key))
    requires IsBranch(ks - {key}, p)
    ensures IsBranch(ks, p) && p != r
  {
    forall b ensures Occupied(ks, p + [b]) {
      var k :| k in ks - {key} && Under(p + [b], k);
      assert k in ks;
    }
    if p == r {
      assert Occupied(ks - {key}, r + [key[|r|]]) by { if key[|r|] {} else {} }
      assert false;
    }
  }

  lemma KeptBranch(ks: set<Key>, key: Key, p: seq<bool>, r: seq<bool>)
    requires IsBranch(ks, p) && IsBranch(ks, r) && Under(p, key) && Under(r, key) && |p| <= |r| && p != r
    ensures IsBranch(ks - {key}, p)
  {
    assert p == key[..|p|] && r == key[..|r|];
    forall b ensures Occupied(ks - {key}, p + [b]) {
      if b == key[|p|] {
        var k :| k in ks && Under(r + [!key[|r|]], k);
        SplitUnder(r, k, !key[|r|]);
        SplitUnder(p, k, b);
        assert k in ks - {key};
      } else {
        var k :| k in ks && Under(p + [b], k);
        SplitUnder(p, k, b);
        assert k in ks - {key};
      }
    }
  }

  /** The slot that referred to the lost branch point takes over its other side. */
  lemma PromotedSlot(ks: set<Key>, key: Key, w: seq<bool>, r: seq<bool>, other: Slot)
    requires SlotOk(ks, w, Node(r)) && Under(r, key)
    requires SlotOk(ks, r + [key[|r|]], Chain(key)) && SlotOk(ks, r + [!key[|r|]], other)
    ensures SlotOk(ks - {key}, w, other) && !other.Empty?
    ensures Occupied(ks - {key}, w)
  {
    var v, ks' := r + [!key[|r|]], ks - {key};
    SplitUnder(r, key, !key[|r|]);
    assert Occupied(ks, v);
    SlotOffPath(ks, key, v, other);
    forall k | k in ks' && Under(w, k) ensures Under(v, k) {
      assert Under(r, k);
      SplitUnder(r, k, !key[|r|]);
      SplitUnder(r, k, key[|r|]);
    }
    assert Under(w, r) && Under(r, v);
    forall k | k in ks' && Under(v, k) ensures Under(w, k) {
      SplitUnder(r, k, !key[|r|]);
    }
    StemCovers(ks', v, other);
    assert Under(v, Stem(other));
    assert Under(w, v) by { assert forall i :: 0 <= i < |w| ==> w[i] == r[i] == v[i]; }
  }

  // ----- rewriting one slot -----

  /** Where a slot lives: the root, or child `bit` of a branch point. */
  datatype SlotRef = Root | Child(parent: seq<bool>, bit: bool)

  function WithSide(n: BranchNode, bit: bool, val: Slot): BranchNode {
    if bit then n.(right := val) else n.(left := val)
  }

  function Written(nodes: map<seq<bool>, BranchNode>, slot: SlotRef, val: Slot): map<seq<bool>, BranchNode>
    requires slot.Child? ==> slot.parent in nodes
  {
    if slot.Root? then nodes else nodes[slot.parent := WithSide(nodes[slot.parent], slot.bit, val)]
  }

  function WrittenRoot(root: Slot, slot: SlotRef, val: Slot): Slot {
    if slot.Root? then val else root
  }

  // ----- the descent along a key -----

  ghost predicate OnStack(stack: seq<(seq<bool>, bool)>, p: seq<bool>) {
    exists i :: 0 <= i < |stack| && stack[i].0 == p
  }

  /** The stack holds branch points on the path of key, from the root down, above depth len. */
  ghost predicate Trail(nodes: map<seq<bool>, BranchNode>, key: Key, stack: seq<(seq<bool>, bool)>, len: nat) {
    && (forall i :: 0 <= i < |stack| ==>
          && stack[i].0 in nodes && |stack[i].0| < len && |stack[i].0| < D
          && Under(stack[i].0, key) && stack[i].1 == key[|stack[i].0|])
    && (forall i, j :: 0 <= i < j < |stack| ==> |stack[i].0| < |stack[j].0|)
  }

  ghost predicate Complete(nodes: map<seq<bool>, BranchNode>, key: Key, stack: seq<(seq<bool>, bool)>, len: nat) {
    forall p :: p in nodes && Under(p, key) && |p| < len ==> OnStack(stack, p)
  }

  ghost predicate SlotAt(nodes: map<seq<bool>, BranchNode>, rootChild: Slot, stack: seq<(seq<bool>, bool)>,
                         slot: SlotRef, repr: Slot, pos: seq<bool>)
  {
    if stack == [] then slot == Root && pos == [] && repr == rootChild
    else
      var (p, b) := stack[|stack| - 1];
      slot == Child(p, b) && pos == p + [b] && p in nodes && repr == Side(nodes[p], b)
  }

  /** The descent along key ended at slot, holding repr, at path pos. */
  ghost predicate Located(ks: set<Key>, nodes: map<seq<bool>, BranchNode>, rootChild: Slot, key: Key,
                          stack: seq<(seq<bool>, bool)>, slot: SlotRef, repr: Slot, pos: seq<bool>)
  {
    && ShapeOk(ks, nodes) && SlotOk(ks, [], rootChild)
    && Under(pos, key) && SlotOk(ks, pos, repr) && (repr.Node? ==> !Under(repr.path, key))
    && SlotAt(nodes, rootChild, stack, slot, repr, pos)
    && Trail(nodes, key, stack, |pos|) && Complete(nodes, key, stack, D)
  }

  lemma PrefixOfPrefix(a: seq<bool>, p: seq<bool>, key: Key)
    requires Under(p, key)
    ensures Under(a, p) ==> Under(a, key)
    ensures Under(a, key) && |a| <= |p| ==> Under(a, p)
  {
  }

  // ----- insertion -----

  /** A slot other than the terminal one keeps its content when key arrives. */
  lemma OtherSlotGrows(ks: set<Key>, key: Key, w: seq<bool>, s: Slot, par: seq<bool>)
    requires SlotOk(ks, w, s) && |w| <= D
    requires Under(w, key) ==> Under(w, par) && IsBranch(ks, par) && Under(par, key)
    ensures SlotOk(ks + {key}, w, s)
  {
    if Under(w, key) {
      OnPathSlot(ks, w, s, par);
      PrefixOfPrefix(s.path, par, key);
      SlotGrows(ks, key, w, s.path);
    } else {
      SlotOffPath(ks, key, w, s);
    }
  }

  lemma GrownSlot(ks: set<Key>, nodes: map<seq<bool>, BranchNode>, root: Slot, key: Key,
                  stack: seq<(seq<bool>, bool)>, slot: SlotRef, s: Slot, pos: seq<bool>, p: seq<bool>, b: bool)
    requires Located(ks, nodes, root, key, stack, slot, s, pos)
    requires p in nodes && p + [b] != pos
    ensures SlotOk(ks + {key}, p + [b], Side(nodes[p], b))
  {
    var par := if stack == [] then [] else stack[|stack| - 1].0;
    assert NodeOk(ks, nodes, p);
    if Under(p + [b], key) { AboveTerminal(nodes, key, stack, pos, p, b); }
    OtherSlotGrows(ks, key, p + [b], Side(nodes[p], b), par);
  }

  lemma GrownRoot(ks: set<Key>, nodes: map<seq<bool>, BranchNode>, root: Slot, key: Key,
                  stack: seq<(seq<bool>, bool)>, slot: SlotRef, s: Slot, pos: seq<bool>)
    requires Located(ks, nodes, root, key, stack, slot, s, pos) && stack != []
    ensures SlotOk(ks + {key}, [], root)
  {
    OtherSlotGrows(ks, key, [], root, stack[|stack| - 1].0);
  }

  /** The whole shape after the new branch point is stored and referred to. */
  lemma GrownShape(ks: set<Key>, nodes: map<seq<bool>, BranchNode>, root: Slot, key: Key,
                   stack: seq<(seq<bool>, bool)>, slot: SlotRef, s: Slot, pos: seq<bool>, div: nat, n: BranchNode)
    requires key !in ks && Located(ks, nodes, root, key, stack, slot, s, pos) && !s.Empty?
    requires Diverges(Stem(s), key, div)
    requires Side(n, key[div]) == Chain(key) && Side(n, !key[div]) == s
    ensures key[..div] !in nodes
    ensures var nodes1 := nodes[key[..div] := n];
            && (slot.Child? ==> slot.parent in nodes1)
            && ShapeOk(ks + {key}, Written(nodes1, slot, Node(key[..div])))
            && SlotOk(ks + {key}, [], WrittenRoot(root, slot, Node(key[..div])))
  {
    hide SlotOk, IsBranch, Under, Trail, Complete;
    var np, ks' := key[..div], ks + {key};
    NewBranchPoint(ks, key, pos, s, div);
    NewBranchSlots(ks, key, pos, s, div);
    var nodes2 := Written(nodes[np := n], slot, Node(np));
    forall p | p in nodes2 ensures NodeOk(ks', nodes2, p) {
      forall b ensures SlotOk(ks', p + [b], Side(nodes2[p], b)) {
        if p == np {
          if b == key[div] {} else { assert b == !key[div]; }
        } else if p + [b] != pos {
          GrownSlot(ks, nodes, root, key, stack, slot, s, pos, p, b);
        } else {
          assert pos[|p|] == b && pos[..|p|] == p;
        }
      }
    }
    if stack != [] { GrownRoot(ks, nodes, root, key, stack, slot, s, pos); }
  }

  lemma AboveTerminal(nodes: map<seq<bool>, BranchNode>, key: Key, stack: seq<(seq<bool>, bool)>, pos: seq<bool>,
                      p: seq<bool>, b: bool)
    requires p in nodes && |p| < D && Under(p + [b], key) && p + [b] != pos && Under(pos, key)
    requires Trail(nodes, key, stack, |pos|) && Complete(nodes, key, stack, D)
    requires stack == [] ==> pos == []
    requires stack != [] ==> pos == stack[|stack| - 1].0 + [stack[|stack| - 1].1]
    ensures stack != [] && Under(p + [b], stack[|stack| - 1].0)
  {
    PrefixOfPrefix(p, p + [b], key);
    assert OnStack(stack, p);
    assert |p| < |pos|;
    assert p + [b] == key[..|p| + 1] && pos == key[..|pos|];
  }

  lemma BothSidesOccupied(ks: set<Key>, p: seq<bool>, b: bool)
    ensures IsBranch(ks, p) ==> Occupied(ks, p + [b])
  {
  }

  lemma TerminalSlot(ks: set<Key>, nodes: map<seq<bool>, BranchNode>, root: Slot, key: Key,
                     stack: seq<(seq<bool>, bool)>, slot: SlotRef, repr: Slot, pos: seq<bool>)
    requires Located(ks, nodes, root, key, stack, slot, repr, pos)
    ensures key in ks <==> repr == Chain(key)
    ensures stack == [] ==> SlotOk(ks, [], repr)
    ensures repr.Empty? ==> slot.Root? && ks == {} && nodes == map[]
    ensures slot.Child? ==> slot.parent in nodes
    ensures repr.Chain? && repr.key != key ==> !(repr.key <= key)
    ensures repr.Node? ==> |repr.path| <= D && !(repr.path <= key)
  {
    if repr.Empty? {
      forall p, b ensures IsBranch(ks, p) ==> Occupied(ks, p + [b]) { BothSidesOccupied(ks, p, b); }
      forall k ensures k !in ks { assert Under([], k); }
      assert forall p :: !IsBranch(ks, p);
    }
  }

  lemma OwnPath(ks: set<Key>, key: Key)
    requires key in ks
    ensures key[..D] == key && Occupied(ks, key[..D])
  {
    assert key[..D] == key;
    assert Under(key, key);
  }

  lemma FirstKey(key: Key)
    ensures ShapeOk({key}, map[]) && SlotOk({key}, [], Chain(key))
  {
    forall p ensures !IsBranch({key}, p) {
      if |p| < D {
        SplitUnder(p, key, false);
        SplitUnder(p, key, true);
      }
    }
  }

  // ----- removal -----

  lemma SlotShrinks(ks: set<Key>, key: Key, w: seq<bool>, q: seq<bool>)
    requires SlotOk(ks, w, Node(q)) && IsBranch(ks - {key}, q)
    ensures SlotOk(ks - {key}, w, Node(q))
  {
  }

  /** A slot on the path of key that does not refer to the lost branch point keeps its content. */
  lemma OtherSlotShrinks(ks: set<Key>, key: Key, w: seq<bool>, s: Slot, p: seq<bool>, r: seq<bool>)
    requires SlotOk(ks, w, s) && |w| <= D
    requires Under(w, key) ==> Under(w, p) && IsBranch(ks, p) && |p| < |r|
    requires forall x :: IsBranch(ks - {key}, x) <==> IsBranch(ks, x) && x != r
    ensures SlotOk(ks - {key}, w, s)
  {
    if Under(w, key) {
      OnPathSlot(ks, w, s, p);
      SlotShrinks(ks, key, w, s.path);
    } else {
      SlotOffPath(ks, key, w, s);
    }
  }

  /** The slot just above the deepest branch point on the path refers to it. */
  lemma SlotAboveLost(ks: set<Key>, nodes: map<seq<bool>, BranchNode>, key: Key, stack: seq<(seq<bool>, bool)>,
                      w: seq<bool>, s: Slot)
    requires ShapeOk(ks, nodes) && SlotOk(ks, w, s) && Under(w, key) && stack != []
    requires Trail(nodes, key, stack, D) && Complete(nodes, key, stack, D)
    requires |w| <= |stack[|stack| - 1].0|
    requires |stack| >= 2 ==> |stack[|stack| - 2].0| < |w|
    ensures s == Node(stack[|stack| - 1].0)
  {
    hide SlotOk, IsBranch;
    var r := stack[|stack| - 1].0;
    PrefixOfPrefix(w, r, key);
    OnPathSlot(ks, w, s, r);
    NodeSlotIsBranch(ks, w, s);
    PrefixOfPrefix(s.path, r, key);
    assert OnStack(stack, s.path);
  }

  lemma NodeSlotIsBranch(ks: set<Key>, w: seq<bool>, s: Slot)
    requires SlotOk(ks, w, s) && s.Node?
    ensures IsBranch(ks, s.path) && Under(w, s.path) && |s.path| < D
  {
  }

  /** The slot that referred to the lost branch point. */
  function AboveLost(stack: seq<(seq<bool>, bool)>): SlotRef
    requires stack != []
  {
    if |stack| >= 2 then Child(stack[|stack| - 2].0, stack[|stack| - 2].1) else Root
  }

  ghost function AboveLostPath(stack: seq<(seq<bool>, bool)>): seq<bool>
    requires stack != []
  {
    if |stack| >= 2 then stack[|stack| - 2].0 + [stack[|stack| - 2].1] else []
  }

  /** The key set loses its deepest branch point on the path, and the slot above takes the other side. */
  lemma LostSlot(ks: set<Key>, nodes: map<seq<bool>, BranchNode>, root: Slot, key: Key,
                 stack: seq<(seq<bool>, bool)>, slot: SlotRef, pos: seq<bool>)
    requires key in ks && Located(ks, nodes, root, key, stack, slot, Chain(key), pos) && stack != []
    ensures var (r, b) := stack[|stack| - 1];
            var (other, w) := (Side(nodes[r], !b), AboveLostPath(stack));
            && !other.Empty? && SlotOk(ks - {key}, w, other) && Occupied(ks - {key}, w) && Under(w, key)
            && forall p :: IsBranch(ks - {key}, p) <==> IsBranch(ks, p) && p != r
  {
    var (r, b) := stack[|stack| - 1];
    assert NodeOk(ks, nodes, r);
    DeepestBranch(ks, nodes, key, stack);
    LostBranchPoint(ks, key, r);
    hide SlotOk, IsBranch;
    var w, s := [], root;
    if |stack| >= 2 {
      var (par, c) := stack[|stack| - 2];
      assert NodeOk(ks, nodes, par);
      SplitUnder(par, key, c);
      w, s := par + [c], Side(nodes[par], c);
    }
    SlotAboveLost(ks, nodes, key, stack, w, s);
    PromotedSlot(ks, key, w, r, Side(nodes[r], !b));
  }

  lemma DeepestBranch(ks: set<Key>, nodes: map<seq<bool>, BranchNode>, key: Key, stack: seq<(seq<bool>, bool)>)
    requires ShapeOk(ks, nodes) && stack != [] && Trail(nodes, key, stack, D) && Complete(nodes, key, stack, D)
    ensures forall p :: IsBranch(ks, p) && Under(p, key) ==> |p| <= |stack[|stack| - 1].0|
  {
    hide IsBranch, NodeOk;
    forall p | IsBranch(ks, p) && Under(p, key) ensures |p| <= |stack[|stack| - 1].0| {
      BranchDepth(ks, p);
      assert OnStack(stack, p);
    }
  }

  lemma ShrunkSlot(ks: set<Key>, nodes: map<seq<bool>, BranchNode>, key: Key,
                   stack: seq<(seq<bool>, bool)>, p: seq<bool>, b: bool)
    requires ShapeOk(ks, nodes) && Trail(nodes, key, stack, D) && Complete(nodes, key, stack, D) && stack != []
    requires p in nodes && p != stack[|stack| - 1].0 && |p| < D && p + [b] != AboveLostPath(stack)
    requires forall x :: IsBranch(ks - {key}, x) <==> IsBranch(ks, x) && x != stack[|stack| - 1].0
    ensures SlotOk(ks - {key}, p + [b], Side(nodes[p], b))
  {
    hide SlotOk, IsBranch;
    assert NodeOk(ks, nodes, p);
    var r := stack[|stack| - 1].0;
    if Under(p + [b], key) {
      PrefixOfPrefix(p, p + [b], key);
      assert OnStack(stack, p);
      var par := stack[|stack| - 2].0;
      assert p + [b] == key[..|p| + 1] && par == key[..|par|];
      OtherSlotShrinks(ks, key, p + [b], Side(nodes[p], b), par, r);
    } else {
      OtherSlotShrinks(ks, key, p + [b], Side(nodes[p], b), r, r);
    }
  }

  /** The whole shape after the deepest branch point on the path collapses to its other side. */
  lemma ShrunkShape(ks: set<Key>, nodes: map<seq<bool>, BranchNode>, root: Slot, key: Key,
                    stack: seq<(seq<bool>, bool)>, slot: SlotRef, pos: seq<bool>)
    requires key in ks && Located(ks, nodes, root, key, stack, slot, Chain(key), pos) && stack != []
    ensures var (r, b) := stack[|stack| - 1];
            var (other, up) := (Side(nodes[r], !b), AboveLost(stack));
            && (up.Child? ==> up.parent in nodes - {r})
            && ShapeOk(ks - {key}, Written(nodes - {r}, up, other))
            && SlotOk(ks - {key}, [], WrittenRoot(root, up, other))
  {
    hide SlotOk, IsBranch;
    var (r, b) := stack[|stack| - 1];
    var ks', other, up, w := ks - {key}, Side(nodes[r], !b), AboveLost(stack), AboveLostPath(stack);
    LostSlot(ks, nodes, root, key, stack, slot, pos);
    var nodes2 := Written(nodes - {r}, up, other);
    forall p | p in nodes2 ensures NodeOk(ks', nodes2, p) {
      BranchDepth(ks, p);
      forall c ensures SlotOk(ks', p + [c], Side(nodes2[p], c)) {
        if p + [c] != w {
          ShrunkSlot(ks, nodes, key, stack, p, c);
        } else {
          assert w[|p|] == c && w[..|p|] == p;
        }
      }
    }
    if |stack| >= 2 { OtherSlotShrinks(ks, key, [], root, stack[|stack| - 2].0, r); }
  }

  lemma BranchDepth(ks: set<Key>, p: seq<bool>)
    ensures IsBranch(ks, p) ==> |p| < D
  {
  }

  /** When the root is the chain of the leaving key, nothing else is stored. */
  lemma LastKey(ks: set<Key>, nodes: map<seq<bool>, BranchNode>, key: Key)
    requires ShapeOk(ks, nodes) && SlotOk(ks, [], Chain(key))
    ensures ks == {key} && nodes == map[] && ShapeOk({}, nodes) && SlotOk({}, [], Empty)
  {
    forall k | k in ks ensures k == key { assert Under([], k); }
    assert ks == {key};
    FirstKey(key);
    var none: map<seq<bool>, BranchNode> := map[];
    forall p ensures p !in nodes {
      assert p in none <==> IsBranch({key}, p);
    }
  }

  /** The other side of the deepest branch point lies off the path. */
  lemma OtherSideOffPath(ks: set<Key>, key: Key, r: seq<bool>, other: Slot)
    requires |r| < D && Under(r, key) && SlotOk(ks, r + [!key[|r|]], other)
    ensures other.Node? ==> !Under(other.path, key) && IsBranch(ks, other.path)
  {
    SplitUnder(r, key, !key[|r|]);
    if other.Node? {
      if Under(other.path, key) { PrefixOfPrefix(r + [!key[|r|]], other.path, key); }
    }
  }
}
