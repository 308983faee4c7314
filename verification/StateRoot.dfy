/** The state root: the same whether kept live or recomputed from a snapshot, and binding. */
module StateRoot {
  import opened Prelude
  import opened SmtSpec
  import opened SmtTree
  import opened SmtBinding
  import opened Packing
  import opened Ledger
  import opened Indexes
  import ChainState

  ghost function ContentOf(hash: Leaf -> Digest, ls: set<Leaf>): Content {
    map k | k in KeysOf(ls) :: HashesUnder(hash, ls, k)
  }

  ghost function KeysOf(ls: set<Leaf>): set<Key> {
    set y | y in ls :: SmtKey(y.id)
  }

  ghost function HashesUnder(hash: Leaf -> Digest, ls: set<Leaf>, k: Key): set<Digest> {
    set y | y in ls && SmtKey(y.id) == k :: hash(y)
  }

  lemma ContentCommits(hash: Leaf -> Digest, ls: set<Leaf>)
    ensures Commits(hash, ls, ContentOf(hash, ls))
  {
    var c := ContentOf(hash, ls);
    forall k | k in c ensures c[k] != {} {
      var y :| y in ls && SmtKey(y.id) == k;
      assert hash(y) in c[k];
    }
    forall k: Key, x: Digest ensures Has(c, k, x) <==> HashedAt(hash, ls, k, x) {}
  }

  /** The committed root of a set of entries. */
  ghost function StateRootOf(h: Hasher, hash: Leaf -> Digest, top: Digest -> Word32, ls: set<Leaf>): Word32 {
    top(Naive(h, ContentOf(hash, ls), []))
  }

  lemma RootOfContent(h: Hasher, hash: Leaf -> Digest, top: Digest -> Word32, ls: set<Leaf>, c: Content)
    requires Commits(hash, ls, c)
    ensures top(Naive(h, c, [])) == StateRootOf(h, hash, top, ls)
  {
    ContentCommits(hash, ls);
    CommitsUnique(hash, ls, c, ContentOf(hash, ls));
  }

  /** The live root, read from the cache. */
  method StateRootSmt(s: ChainState.ChainState, top: Digest -> Word32) returns (root: Word32)
    requires s.Valid()
    ensures root == StateRootOf(s.smt.h, s.leafHash, top, Leaves(s.domains, s.tlds))
  {
    RootOfContent(s.smt.h, s.leafHash, top, Leaves(s.domains, s.tlds), s.smt.content);
    hide s.Ready;
    var r := s.smt.RootHash();
    root := top(r);
  }

  ghost function SnapshotLeaves(domains: seq<(DomainId, DomainState)>, tlds: seq<(TldId, TldState)>): set<Leaf> {
    (set i | 0 <= i < |domains| :: LeafOfDomain(domains[i].0, domains[i].1)) +
    (set i | 0 <= i < |tlds| :: LeafOfTld(tlds[i].0, tlds[i].1))
  }

  /** The root recomputed from raw snapshot entries, in any order. */
  method RecomputeStateRoot(h: Hasher, hash: Leaf -> Digest, top: Digest -> Word32,
                            domains: seq<(DomainId, DomainState)>, tlds: seq<(TldId, TldState)>) returns (root: Word32)
    ensures root == StateRootOf(h, hash, top, SnapshotLeaves(domains, tlds))
  {
    hide Commits, Represents, Added;
    var smt := new Smt(h);
    EmptyCommits(hash);
    assert SnapshotLeaves(domains[..0], []) == {};
    var i := 0;
    while i < |domains|
      invariant 0 <= i <= |domains| && smt.Valid() && fresh(smt) && smt.h == h
      invariant Commits(hash, SnapshotLeaves(domains[..i], []), smt.content)
    {
      var y := LeafOfDomain(domains[i].0, domains[i].1);
      CommitsAdd(hash, SnapshotLeaves(domains[..i], []), smt.content, y);
      MoreDomains(domains, i);
      smt.Insert(SmtKey(domains[i].0), hash(y));
      i := i + 1;
    }
    assert domains[..i] == domains && tlds[..0] == [];
    i := 0;
    while i < |tlds|
      invariant 0 <= i <= |tlds| && smt.Valid() && fresh(smt) && smt.h == h
      invariant Commits(hash, SnapshotLeaves(domains, tlds[..i]), smt.content)
    {
      var y := LeafOfTld(tlds[i].0, tlds[i].1);
      CommitsAdd(hash, SnapshotLeaves(domains, tlds[..i]), smt.content, y);
      MoreTlds(domains, tlds, i);
      smt.Insert(SmtKey(tlds[i].0), hash(y));
      i := i + 1;
    }
    assert tlds[..i] == tlds;
    RootOfContent(h, hash, top, SnapshotLeaves(domains, tlds), smt.content);
    var r := smt.RootHash();
    root := top(r);
  }

  lemma EmptyCommits(hash: Leaf -> Digest)
    ensures Commits(hash, {}, map[])
  {
  }

  lemma MoreDomains(domains: seq<(DomainId, DomainState)>, i: nat)
    requires i < |domains|
    ensures SnapshotLeaves(domains[..i + 1], []) ==
            SnapshotLeaves(domains[..i], []) + {LeafOfDomain(domains[i].0, domains[i].1)}
  {
    var a, b := domains[..i], domains[..i + 1];
    assert forall j :: 0 <= j < i ==> a[j] == b[j];
    assert b[i] == domains[i];
  }

  lemma MoreTlds(domains: seq<(DomainId, DomainState)>, tlds: seq<(TldId, TldState)>, i: nat)
    requires i < |tlds|
    ensures SnapshotLeaves(domains, tlds[..i + 1]) ==
            SnapshotLeaves(domains, tlds[..i]) + {LeafOfTld(tlds[i].0, tlds[i].1)}
  {
    var a, b := tlds[..i], tlds[..i + 1];
    assert forall j :: 0 <= j < i ==> a[j] == b[j];
    assert b[i] == tlds[i];
  }

  // ----- the root binds the state -----

  /** Everything hashed to build the root of ls: tree preimages and leaf preimages. */
  ghost function Hashed(h: Hasher, hash: Leaf -> Digest, ls: set<Leaf>): set<Preimage<Leaf>> {
    Trace(h, ContentOf(hash, ls), []) + set y | y in ls :: LeafOf(y)
  }

  lemma LeavesHashed(h: Hasher, H: Hash<Leaf>, hash: Leaf -> Digest, ls: set<Leaf>, s: set<Preimage<Leaf>>)
    requires (forall y :: hash(y) == H(LeafOf(y))) && Hashed(h, hash, ls) <= s
    ensures SmtSpec.WellFormed(ContentOf(hash, ls)) && LeavesFrom(H, s, ContentOf(hash, ls))
  {
    ContentCommits(hash, ls);
    var c := ContentOf(hash, ls);
    forall k, x | k in c && x in c[k] ensures IsLeaf(H, s, x) {
      assert Has(c, k, x);
      var y :| y in ls && SmtKey(y.id) == k && hash(y) == x;
      assert LeafOf(y) in s && H(LeafOf(y)) == x;
    }
  }

  /** If nothing that was hashed collides, two equal roots commit to the same names in the same state. */
  lemma StateRootBinds(h: Hasher, H: Hash<Leaf>, hash: Leaf -> Digest, top: Digest -> Word32,
                       domains: map<DomainId, DomainState>, tlds: map<TldId, TldState>,
                       domains': map<DomainId, DomainState>, tlds': map<TldId, TldState>)
    requires Models(h, H) && forall y :: hash(y) == H(LeafOf(y))
    requires NoCollision(H, Hashed(h, hash, Leaves(domains, tlds)) + Hashed(h, hash, Leaves(domains', tlds')))
    requires var (a, b) := (Naive(h, ContentOf(hash, Leaves(domains, tlds)), []),
        Naive(h, ContentOf(hash, Leaves(domains', tlds')), []));
             top(a) == top(b) ==> a == b
    requires forall d :: d in domains ==> domains[d].recordHash != Some(0)
    requires forall d :: d in domains' ==> domains'[d].recordHash != Some(0)
    ensures StateRootOf(h, hash, top, Leaves(domains, tlds)) == StateRootOf(h, hash, top, Leaves(domains', tlds'))
            <==> domains == domains' && tlds == tlds'
  {
    hide Leaves, ContentOf, Trace, NoCollision, LeavesFrom, SmtSpec.WellFormed, Naive, Models;
    var a, b := Leaves(domains, tlds), Leaves(domains', tlds');
    var s := Hashed(h, hash, a) + Hashed(h, hash, b);
    LeavesHashed(h, H, hash, a, s);
    LeavesHashed(h, H, hash, b, s);
    RootBinding(h, H, s, ContentOf(hash, a), ContentOf(hash, b));
    if ContentOf(hash, a) == ContentOf(hash, b) {
      SameContentSameLeaves(H, hash, a, b, s);
      SameContentSameLeaves(H, hash, b, a, s);
      LeavesDetermine(domains, tlds, domains', tlds');
      LeavesDetermine(domains', tlds', domains, tlds);
    }
  }

  lemma SameContentSameLeaves(H: Hash<Leaf>, hash: Leaf -> Digest, a: set<Leaf>, b: set<Leaf>, s: set<Preimage<Leaf>>)
    requires NoCollision(H, s) && (forall y :: hash(y) == H(LeafOf(y)))
    requires (forall y :: y in a ==> LeafOf(y) in s) && (forall y :: y in b ==> LeafOf(y) in s)
    requires ContentOf(hash, a) == ContentOf(hash, b)
    ensures a <= b
  {
    ContentCommits(hash, a);
    ContentCommits(hash, b);
    forall y | y in a ensures y in b {
      var k, x := SmtKey(y.id), hash(y);
      assert HashedAt(hash, a, k, x);
      assert Has(ContentOf(hash, b), k, x);
      var z :| z in b && SmtKey(z.id) == k && hash(z) == x;
      assert LeafOf(y) == LeafOf(z);
    }
  }

  lemma LeavesDetermine(domains: map<DomainId, DomainState>, tlds: map<TldId, TldState>,
                        domains': map<DomainId, DomainState>, tlds': map<TldId, TldState>)
    requires Leaves(domains, tlds) <= Leaves(domains', tlds')
    requires forall d :: d in domains ==> domains[d].recordHash != Some(0)
    requires forall d :: d in domains' ==> domains'[d].recordHash != Some(0)
    ensures forall d :: d in domains ==> d in domains' && domains'[d] == domains[d]
    ensures forall t :: t in tlds ==> t in tlds' && tlds'[t] == tlds[t]
  {
    forall d | d in domains ensures d in domains' && domains'[d] == domains[d] {
      assert LeafOfDomain(d, domains[d]) in Leaves(domains', tlds');
    }
    forall t | t in tlds ensures t in tlds' && tlds'[t] == tlds[t] {
      assert LeafOfTld(t, tlds[t]) in Leaves(domains', tlds');
    }
  }
}
