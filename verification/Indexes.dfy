/** The structures the chain state keeps beside its entries, each as a function of the entries:
    Merkle content, owner reference counts and expiration queue. */
module Indexes {
  import opened Prelude
  import opened SmtSpec
  import opened SmtTree
  import opened Packing
  import opened Ledger

  // ----- Merkle leaves -----

  /** The committed fields of one live name. */
  datatype Leaf =
    | DomainLeaf(id: Word32, owner: OwnerId, sequence: U64, registeredAt: U64, validUntil: U64, recordHash: Word32)
    | TldLeaf(id: Word32, owner: OwnerId, open: bool)

  function RecordBytes(rh: Option<Word32>): Word32 {
    if rh.Some? then rh.value else 0
  }

  function LeafOfDomain(d: DomainId, st: DomainState): Leaf {
    DomainLeaf(d, st.owner, st.sequence, st.registeredAt, st.validUntil, RecordBytes(st.recordHash))
  }

  function LeafOfTld(t: TldId, st: TldState): Leaf {
    TldLeaf(t, st.owner, st.open)
  }

  /** What is stored has the leaf of what was written. */
  lemma StoredLeaf(d: DomainId, st: DomainState)
    ensures LeafOfDomain(d, Stored(st)) == LeafOfDomain(d, st)
  {
  }

  ghost function Leaves(domains: map<DomainId, DomainState>, tlds: map<TldId, TldState>): set<Leaf> {
    (set d | d in domains :: LeafOfDomain(d, domains[d])) + (set t | t in tlds :: LeafOfTld(t, tlds[t]))
  }

  ghost predicate Injective(hash: Leaf -> Digest) {
    forall x, y :: hash(x) == hash(y) ==> x == y
  }

  ghost predicate Has(c: Content, k: Key, x: Digest) {
    k in c && x in c[k]
  }

  ghost predicate HashedAt(hash: Leaf -> Digest, ls: set<Leaf>, k: Key, x: Digest) {
    exists y :: y in ls && SmtKey(y.id) == k && hash(y) == x
  }

  /** The tree content holds exactly the hashed leaves, each under the top bits of its id. */
  ghost predicate Commits(hash: Leaf -> Digest, ls: set<Leaf>, c: Content) {
    && WellFormed(c)
    && forall k: Key, x: Digest {:trigger Has(c, k, x)} :: Has(c, k, x) <==> HashedAt(hash, ls, k, x)
  }

  lemma CommitsAdd(hash: Leaf -> Digest, ls: set<Leaf>, c: Content, y: Leaf)
    requires Commits(hash, ls, c)
    ensures Commits(hash, ls + {y}, Added(c, SmtKey(y.id), hash(y)))
  {
    var c', key := Added(c, SmtKey(y.id), hash(y)), SmtKey(y.id);
    forall k: Key, x: Digest ensures Has(c', k, x) <==> HashedAt(hash, ls + {y}, k, x) {
      assert Has(c', k, x) <==> Has(c, k, x) || (k == key && x == hash(y));
      if HashedAt(hash, ls, k, x) {
        var z :| z in ls && SmtKey(z.id) == k && hash(z) == x;
        assert z in ls + {y};
      }
      assert y in ls + {y};
    }
  }

  lemma CommitsRemove(hash: Leaf -> Digest, ls: set<Leaf>, c: Content, y: Leaf)
    requires Commits(hash, ls, c) && Injective(hash) && y in ls
    ensures Commits(hash, ls - {y}, Removed(c, SmtKey(y.id), hash(y)))
  {
    var c', key := Removed(c, SmtKey(y.id), hash(y)), SmtKey(y.id);
    forall k: Key, x: Digest ensures Has(c', k, x) <==> HashedAt(hash, ls - {y}, k, x) {
      assert Has(c', k, x) <==> Has(c, k, x) && !(k == key && x == hash(y)) by {
        if k == key && k in c && k !in c' { assert c[key] - {hash(y)} == {}; assert x in c[k] ==>
            x in c[key] - {hash(y)} || x == hash(y); }
      }
      if HashedAt(hash, ls, k, x) {
        var z :| z in ls && SmtKey(z.id) == k && hash(z) == x;
        assert x != hash(y) ==> z in ls - {y};
      }
    }
  }

  /** The entries determine the tree content. */
  lemma CommitsUnique(hash: Leaf -> Digest, ls: set<Leaf>, c: Content, c': Content)
    requires Commits(hash, ls, c) && Commits(hash, ls, c')
    ensures c == c'
  {
    forall k: Key, x: Digest ensures Has(c, k, x) <==> Has(c', k, x) {}
    HasIncluded(c, c');
    HasIncluded(c', c);
    forall k | k in c ensures c[k] == c'[k] {
      forall z ensures z in c[k] <==> z in c'[k] { assert Has(c, k, z) <==> Has(c', k, z); }
    }
  }

  lemma HasIncluded(c: Content, c': Content)
    requires WellFormed(c)
    requires forall k: Key, x: Digest {:trigger Has(c, k, x)} :: Has(c, k, x) ==> Has(c', k, x)
    ensures forall k :: k in c ==> k in c'
  {
    forall k | k in c ensures k in c' {
      var x :| x in c[k];
      assert Has(c, k, x);
    }
  }

  // ----- the leaf set under entry changes -----

  lemma LeavesPutDomain(domains: map<DomainId, DomainState>, tlds: map<TldId, TldState>, d: DomainId, st: DomainState)
    requires d !in domains
    ensures Leaves(domains[d := st], tlds) == Leaves(domains, tlds) + {LeafOfDomain(d, st)}
    ensures LeafOfDomain(d, st) !in Leaves(domains, tlds)
  {
    var domains' := domains[d := st];
    assert d in domains' && domains'[d] == st;
    forall x | x in domains ensures x in domains' && domains'[x] == domains[x] {}
  }

  lemma LeavesDropDomain(domains: map<DomainId, DomainState>, tlds: map<TldId, TldState>, d: DomainId)
    requires d in domains
    ensures Leaves(domains - {d}, tlds) == Leaves(domains, tlds) - {LeafOfDomain(d, domains[d])}
    ensures LeafOfDomain(d, domains[d]) in Leaves(domains, tlds)
  {
    var rest := domains - {d};
    assert rest[d := domains[d]] == domains;
    LeavesPutDomain(rest, tlds, d, domains[d]);
  }

  lemma LeavesPutTld(domains: map<DomainId, DomainState>, tlds: map<TldId, TldState>, t: TldId, st: TldState)
    requires t !in tlds
    ensures Leaves(domains, tlds[t := st]) == Leaves(domains, tlds) + {LeafOfTld(t, st)}
    ensures LeafOfTld(t, st) !in Leaves(domains, tlds)
  {
    var tlds' := tlds[t := st];
    assert t in tlds' && tlds'[t] == st;
    forall x | x in tlds ensures x in tlds' && tlds'[x] == tlds[x] {}
  }

  lemma LeavesDropTld(domains: map<DomainId, DomainState>, tlds: map<TldId, TldState>, t: TldId)
    requires t in tlds
    ensures Leaves(domains, tlds - {t}) == Leaves(domains, tlds) - {LeafOfTld(t, tlds[t])}
    ensures LeafOfTld(t, tlds[t]) in Leaves(domains, tlds)
  {
    var rest := tlds - {t};
    assert rest[t := tlds[t]] == tlds;
    LeavesPutTld(domains, rest, t, tlds[t]);
  }

  // ----- owner reference counts -----

  ghost function Held(ls: set<Leaf>, o: OwnerId): set<Leaf> {
    set y | y in ls && y.owner == o
  }

  /** One entry per owner of a live name, counting the names; never zero. */
  ghost predicate RefsOk(ls: set<Leaf>, refs: map<OwnerId, nat>) {
    forall o: OwnerId {:trigger RefOk(ls, refs, o)} :: RefOk(ls, refs, o)
  }

  ghost predicate RefOk(ls: set<Leaf>, refs: map<OwnerId, nat>, o: OwnerId) {
    (o in refs <==> Held(ls, o) != {}) && (o in refs ==> refs[o] == |Held(ls, o)|)
  }

  function Acquired(refs: map<OwnerId, nat>, o: OwnerId): map<OwnerId, nat> {
    refs[o := (if o in refs then refs[o] else 0) + 1]
  }

  function Released(refs: map<OwnerId, nat>, o: OwnerId): map<OwnerId, nat> {
    if o !in refs then refs
    else if SaturatingSub(refs[o], 1) == 0 then refs - {o}
    else refs[o := refs[o] - 1]
  }

  lemma RefsAcquire(ls: set<Leaf>, refs: map<OwnerId, nat>, y: Leaf)
    requires RefsOk(ls, refs) && y !in ls
    ensures RefsOk(ls + {y}, Acquired(refs, y.owner))
  {
    forall o: OwnerId ensures RefOk(ls + {y}, Acquired(refs, y.owner), o) {
      assert RefOk(ls, refs, o);
      HeldGrows(ls, y, o);
    }
  }

  lemma HeldGrows(ls: set<Leaf>, y: Leaf, o: OwnerId)
    requires y !in ls
    ensures Held(ls + {y}, o) == if o == y.owner then Held(ls, o) + {y} else Held(ls, o)
    ensures |Held(ls + {y}, o)| == |Held(ls, o)| + if o == y.owner then 1 else 0
    ensures o == y.owner ==> Held(ls + {y}, o) != {}
  {
    if o == y.owner {
      assert Held(ls + {y}, o) == Held(ls, o) + {y};
      assert y in Held(ls + {y}, o) && y !in Held(ls, o);
    } else {
      assert Held(ls + {y}, o) == Held(ls, o);
    }
  }

  lemma RefsRelease(ls: set<Leaf>, refs: map<OwnerId, nat>, y: Leaf)
    requires RefsOk(ls, refs) && y in ls
    ensures RefsOk(ls - {y}, Released(refs, y.owner))
  {
    forall o: OwnerId ensures RefOk(ls - {y}, Released(refs, y.owner), o) {
      assert RefOk(ls, refs, o);
      assert Held(ls - {y}, o) == if o == y.owner then Held(ls, o) - {y} else Held(ls, o);
      if o == y.owner {
        assert y in Held(ls, o);
        assert |Held(ls, o) - {y}| == |Held(ls, o)| - 1;
        assert Held(ls, o) - {y} == {} <==> |Held(ls, o) - {y}| == 0;
      }
    }
  }

  /** A change that keeps the owner of a leaf keeps the counts. */
  lemma RefsReplace(ls: set<Leaf>, refs: map<OwnerId, nat>, y: Leaf, z: Leaf)
    requires RefsOk(ls, refs) && y in ls && (z !in ls || z == y) && z.owner == y.owner
    ensures RefsOk(ls - {y} + {z}, refs)
  {
    forall o: OwnerId ensures RefOk(ls - {y} + {z}, refs, o) {
      assert RefOk(ls, refs, o);
      var s := ls - {y} + {z};
      if o == y.owner {
        assert Held(s, o) == Held(ls, o) - {y} + {z};
        assert y in Held(ls, o) && z in Held(s, o) && z !in Held(ls, o) - {y};
      } else {
        assert Held(s, o) == Held(ls, o);
      }
    }
  }

  lemma RefsUnique(ls: set<Leaf>, refs: map<OwnerId, nat>, refs': map<OwnerId, nat>)
    requires RefsOk(ls, refs) && RefsOk(ls, refs')
    ensures refs == refs'
  {
    forall o: OwnerId ensures (o in refs <==> o in refs') && (o in refs ==> refs[o] == refs'[o]) {
      assert RefOk(ls, refs, o) && RefOk(ls, refs', o);
    }
  }

  // ----- the expiration queue -----

  /** Every live name (but those in skip) waits in the slot of its expiry, and no slot is empty. */
  ghost predicate QueueOk(domains: map<DomainId, DomainState>, skip: set<DomainId>, queue: map<U64, set<DomainId>>) {
    && (forall t :: t in queue ==> queue[t] != {})
    && (forall t: U64, d: DomainId {:trigger Queued(queue, t, d)} ::
          Queued(queue, t, d) <==> d in domains && d !in skip && domains[d].validUntil == t)
  }

  ghost predicate Queued(queue: map<U64, set<DomainId>>, t: U64, d: DomainId) {
    t in queue && d in queue[t]
  }

  function Enqueued(queue: map<U64, set<DomainId>>, t: U64, d: DomainId): map<U64, set<DomainId>> {
    queue[t := (if t in queue then queue[t] else {}) + {d}]
  }

  function Dequeued(queue: map<U64, set<DomainId>>, t: U64, d: DomainId): map<U64, set<DomainId>> {
    if t !in queue then queue
    else if queue[t] - {d} == {} then queue - {t}
    else queue[t := queue[t] - {d}]
  }

  lemma QueueAdd(domains: map<DomainId, DomainState>, skip: set<DomainId>, queue: map<U64, set<DomainId>>,
      d: DomainId, st: DomainState)
    requires QueueOk(domains, skip, queue) && (d in domains ==> d in skip)
    ensures QueueOk(domains[d := st], skip - {d}, Enqueued(queue, st.validUntil, d))
  {
    var queue' := Enqueued(queue, st.validUntil, d);
    forall t: U64, x: DomainId
      ensures Queued(queue', t, x) <==> x in domains[d := st] && x !in skip - {d} && domains[d := st][x].validUntil == t
    {
      assert Queued(queue', t, x) <==> Queued(queue, t, x) || (t == st.validUntil && x == d);
    }
  }

  lemma QueueRemove(domains: map<DomainId, DomainState>, skip: set<DomainId>, queue: map<U64, set<DomainId>>, d: DomainId)
    requires QueueOk(domains, skip, queue) && d in domains && d !in skip
    ensures QueueOk(domains, skip + {d}, Dequeued(queue, domains[d].validUntil, d))
  {
    var until := domains[d].validUntil;
    var queue' := Dequeued(queue, until, d);
    assert Queued(queue, until, d);
    forall t: U64, x: DomainId
      ensures Queued(queue', t, x) <==> x in domains && x !in skip + {d} && domains[x].validUntil == t
    {
      assert Queued(queue, t, x) <==> x in domains && x !in skip && domains[x].validUntil == t;
      assert Queued(queue', t, x) <==> Queued(queue, t, x) && !(t == until && x == d) by {
        if t == until { assert x in queue[t] - {d} <==> x in queue[t] && x != d; }
      }
    }
  }

  lemma QueueDrop(domains: map<DomainId, DomainState>, skip: set<DomainId>, queue: map<U64, set<DomainId>>, d: DomainId)
    requires QueueOk(domains, skip, queue) && d in skip
    ensures QueueOk(domains - {d}, skip - {d}, queue)
  {
    forall t: U64, x: DomainId
      ensures Queued(queue, t, x) <==> x in domains - {d} && x !in skip - {d} && (domains - {d})[x].validUntil == t
    {
      assert Queued(queue, t, x) <==> x in domains && x !in skip && domains[x].validUntil == t;
    }
  }

  /** Changing a name without touching its expiry keeps its slot. */
  lemma QueueKeep(domains: map<DomainId, DomainState>, queue: map<U64, set<DomainId>>, d: DomainId, st: DomainState)
    requires QueueOk(domains, {}, queue) && d in domains && st.validUntil == domains[d].validUntil
    ensures QueueOk(domains[d := st], {}, queue)
  {
    forall t: U64, x: DomainId
      ensures Queued(queue, t, x) <==> x in domains[d := st] && domains[d := st][x].validUntil == t
    {
      assert Queued(queue, t, x) <==> x in domains && domains[x].validUntil == t;
    }
  }

  lemma QueueUnique(domains: map<DomainId, DomainState>, queue: map<U64, set<DomainId>>, queue': map<U64, set<DomainId>>)
    requires QueueOk(domains, {}, queue) && QueueOk(domains, {}, queue')
    ensures queue == queue'
  {
    forall t: U64, d: DomainId ensures Queued(queue, t, d) <==> Queued(queue', t, d) {}
    QueueIncluded(queue, queue');
    QueueIncluded(queue', queue);
    forall t | t in queue ensures queue[t] == queue'[t] {
      forall x ensures x in queue[t] <==> x in queue'[t] { assert Queued(queue, t, x) <==> Queued(queue', t, x); }
    }
  }

  lemma QueueIncluded(queue: map<U64, set<DomainId>>, queue': map<U64, set<DomainId>>)
    requires forall t :: t in queue ==> queue[t] != {}
    requires forall t: U64, d: DomainId {:trigger Queued(queue, t, d)} :: Queued(queue, t, d) ==> Queued(queue', t, d)
    ensures forall t :: t in queue ==> t in queue'
  {
    forall t | t in queue ensures t in queue' {
      var d :| d in queue[t];
      assert Queued(queue, t, d);
    }
  }
}
