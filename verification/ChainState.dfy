/** The chain state as the source keeps it: entries, counters, owner reference counts, expiration
    queue, grace map, bans and the Merkle tree, all updated in place and undone from a journal. */
module ChainState {
  import opened Prelude
  import opened SmtSpec
  import opened SmtTree
  import opened SmtCanon
  import opened Packing
  import opened Checkpoints
  import opened Ledger
  import opened Indexes

  class UndoLog {
    var entries: seq<UndoEntry>

    constructor ()
      ensures entries == []
    {
      entries := [];
    }
  }

  class ChainState {
    const R: Rules
    const leafHash: Leaf -> Digest
    const smt: Smt
    var domains: map<DomainId, DomainState>
    var tlds: map<TldId, TldState>
    var domainCount: nat
    var tldCount: nat
    var ownerKeys: map<OwnerId, PublicKey>
    var ownerRefcounts: map<OwnerId, nat>
    var expirations: map<U64, set<DomainId>>
    var grace: map<DomainId, (U64, OwnerId)>
    var banned: set<PublicKey>

    /** The logical state: everything else is derived from it. */
    ghost function View(): Ledger
      reads this
    {
      Ledger(domains, tlds, grace, ownerKeys, banned)
    }

    /** All derived structures agree with the entries; names in skip are out of the queue. */
    ghost predicate Ready(skip: set<DomainId>)
      reads this, smt
    {
      && Injective(leafHash)
      && LedgerOk(R, View())
      && domainCount == |domains| && tldCount == |tlds|
      && smt.Valid() && Commits(leafHash, Leaves(domains, tlds), smt.content)
      && RefsOk(Leaves(domains, tlds), ownerRefcounts)
      && QueueOk(domains, skip, expirations)
    }

    ghost predicate Valid()
      reads this, smt
    {
      Ready({})
    }

    constructor (R: Rules, leafHash: Leaf -> Digest, h: Hasher)
      requires Injective(leafHash)
      ensures Valid() && View() == EMPTY && fresh(smt)
      ensures this.R == R && this.leafHash == leafHash && smt.h == h
    {
      this.R, this.leafHash := R, leafHash;
      smt := new Smt(h);
      domains, tlds, domainCount, tldCount := map[], map[], 0, 0;
      ownerKeys, ownerRefcounts, expirations, grace, banned := map[], map[], map[], map[], {};
      new;
      EmptyIndexes(leafHash);
    }

    static lemma EmptyIndexes(leafHash: Leaf -> Digest)
      ensures Commits(leafHash, Leaves(map[], map[]), map[]) && RefsOk(Leaves(map[], map[]), map[])
          && QueueOk(map[], {}, map[])
    {
      var ls := Leaves(map[], map[]);
      assert ls == {};
      var refs: map<OwnerId, nat> := map[];
      forall o: OwnerId ensures RefOk(ls, refs, o) { assert Held(ls, o) == {}; }
    }

    // ----- index updates -----

    method OwnerAcquire(owner: OwnerId)
      modifies this`ownerRefcounts
      ensures ownerRefcounts == Acquired(old(ownerRefcounts), owner)
    {
      ownerRefcounts := ownerRefcounts[owner := (if owner in ownerRefcounts then ownerRefcounts[owner] else 0) + 1];
    }

    method OwnerRelease(owner: OwnerId)
      modifies this`ownerRefcounts
      ensures ownerRefcounts == Released(old(ownerRefcounts), owner)
    {
      if owner in ownerRefcounts {
        var left := SaturatingSub(ownerRefcounts[owner], 1);
        ownerRefcounts := if left == 0 then ownerRefcounts - {owner} else ownerRefcounts[owner := left];
      }
    }

    method ExpirationEnqueue(until: U64, d: DomainId)
      modifies this`expirations
      ensures expirations == Enqueued(old(expirations), until, d)
    {
      expirations := expirations[until := (if until in expirations then expirations[until] else {}) + {d}];
    }

    method ExpirationDequeue(until: U64, d: DomainId)
      modifies this`expirations
      ensures expirations == Dequeued(old(expirations), until, d)
    {
      if until in expirations {
        var left := expirations[until] - {d};
        expirations := if left == {} then expirations - {until} else expirations[until := left];
      }
    }

    method SmtPut(before: Option<Leaf>, after: Leaf)
      requires smt.Valid()
      modifies smt
      ensures smt.Valid()
      ensures var c := if before.Some? then
          Removed(old(smt.content), SmtKey(before.value.id), leafHash(before.value)) else old(smt.content);
              smt.content == Added(c, SmtKey(after.id), leafHash(after))
    {
      if before.Some? {
        smt.Remove(SmtKey(before.value.id), leafHash(before.value));
      }
      smt.Insert(SmtKey(after.id), leafHash(after));
    }

    // ----- whole entry changes: entry, tree, counters, pool and queue together -----

    /** A name enters the registry. */
    method CreateDomain(d: DomainId, st: DomainState)
      requires Valid() && d !in domains && d !in grace
      modifies this, smt
      ensures Valid() && View() == old(View()).(domains := old(domains)[d := Stored(st)])
    {
      hide Commits, RefsOk, QueueOk, Leaves, Smt.Valid, Injective, Added, Removed, Acquired, Released, Enqueued,
          Dequeued, SmtKey, LedgerOk;
      NewDomainOk(R, View(), d, st);
      NewDomainIndexes(d, st);
      SmtPut(None, LeafOfDomain(d, st));
      domains := domains[d := Stored(st)];
      domainCount := domainCount + 1;
      ExpirationEnqueue(st.validUntil, d);
      OwnerAcquire(st.owner);
    }

    lemma NewDomainIndexes(d: DomainId, st: DomainState)
      requires Valid() && d !in domains
      ensures var (ls, y) := (Leaves(domains[d := Stored(st)], tlds), LeafOfDomain(d, st));
              && Commits(leafHash, ls, Added(smt.content, SmtKey(d), leafHash(y)))
              && RefsOk(ls, Acquired(ownerRefcounts, st.owner))
              && QueueOk(domains[d := Stored(st)], {}, Enqueued(expirations, st.validUntil, d))
    {
      hide Commits, RefsOk, QueueOk, Leaves, Smt.Valid, Injective, Added, Acquired, Enqueued, SmtKey, LedgerOk;
      StoredLeaf(d, st);
      LeavesPutDomain(domains, tlds, d, Stored(st));
      CommitsAdd(leafHash, Leaves(domains, tlds), smt.content, LeafOfDomain(d, st));
      RefsAcquire(Leaves(domains, tlds), ownerRefcounts, LeafOfDomain(d, st));
      QueueAdd(domains, {}, expirations, d, Stored(st));
      assert {} - {d} == {};
    }

    /** A name whose slot is already out of the queue leaves the registry. */
    method DropDomain(d: DomainId, ghost skip: set<DomainId>)
      requires d in skip && d in domains && Ready(skip)
      modifies this, smt
      ensures Ready(skip - {d}) && View() == old(View()).(domains := old(domains) - {d})
      ensures expirations == old(expirations)
    {
      hide Commits, RefsOk, QueueOk, Leaves, Smt.Valid, Injective, Added, Removed, Acquired, Released, Enqueued,
          Dequeued, SmtKey;
      var prior := domains[d];
      LeavesDropDomain(domains, tlds, d);
      CommitsRemove(leafHash, Leaves(domains, tlds), smt.content, LeafOfDomain(d, prior));
      RefsRelease(Leaves(domains, tlds), ownerRefcounts, LeafOfDomain(d, prior));
      QueueDrop(domains, skip, expirations, d);
      smt.Remove(SmtKey(d), leafHash(LeafOfDomain(d, prior)));
      assert |domains - {d}| == |domains| - 1 by { assert (domains - {d}).Keys == domains.Keys - {d}; }
      domains := domains - {d};
      domainCount := domainCount - 1;
      OwnerRelease(prior.owner);
    }

    /** A live name changes, keeping its owner and expiry. */
    method ReplaceDomain(d: DomainId, next: DomainState)
      requires Valid() && d in domains
      requires next.owner == domains[d].owner && next.validUntil == domains[d].validUntil
      modifies this, smt
      ensures Valid() && View() == SetDomain(old(View()), d, next)
    {
      hide Commits, RefsOk, QueueOk, Leaves, Smt.Valid, Injective, Added, Removed, Acquired, Released, Enqueued,
          Dequeued, SmtKey;
      var prior := domains[d];
      SwapDomainLeaf(d, next);
      RefsReplace(Leaves(domains, tlds), ownerRefcounts, LeafOfDomain(d, prior), LeafOfDomain(d, next));
      QueueKeep(domains, expirations, d, Stored(next));
      SmtPut(Some(LeafOfDomain(d, prior)), LeafOfDomain(d, next));
      domains := domains[d := Stored(next)];
    }

    /** A live name moves to another expiry. */
    method MoveExpiry(d: DomainId, next: DomainState)
      requires Valid() && d in domains && next.owner == domains[d].owner
      modifies this, smt
      ensures Valid() && View() == SetDomain(old(View()), d, next)
    {
      hide Commits, RefsOk, QueueOk, Leaves, Smt.Valid, Injective, Added, Removed, Acquired, Released, Enqueued,
          Dequeued, SmtKey;
      var prior := domains[d];
      MovedExpiryIndexes(d, next);
      ExpirationDequeue(prior.validUntil, d);
      ExpirationEnqueue(next.validUntil, d);
      SmtPut(Some(LeafOfDomain(d, prior)), LeafOfDomain(d, next));
      domains := domains[d := Stored(next)];
    }

    lemma MovedExpiryIndexes(d: DomainId, next: DomainState)
      requires Valid() && d in domains && next.owner == domains[d].owner
      ensures var (ls, y, z) := (Leaves(domains[d := Stored(next)], tlds), LeafOfDomain(d, domains[d]),
          LeafOfDomain(d, next));
              && Commits(leafHash, ls, Added(Removed(smt.content, SmtKey(d), leafHash(y)), SmtKey(d), leafHash(z)))
              && RefsOk(ls, ownerRefcounts)
              && QueueOk(domains[d := Stored(next)], {},
                  Enqueued(Dequeued(expirations, domains[d].validUntil, d), next.validUntil, d))
    {
      hide Commits, RefsOk, QueueOk, Leaves, Smt.Valid, Injective, Added, Removed, Enqueued, Dequeued, SmtKey, LedgerOk;
      var prior := domains[d];
      SwapDomainLeaf(d, next);
      RefsReplace(Leaves(domains, tlds), ownerRefcounts, LeafOfDomain(d, prior), LeafOfDomain(d, next));
      QueueRemove(domains, {}, expirations, d);
      assert {} + {d} - {d} == {};
      QueueAdd(domains, {} + {d}, Dequeued(expirations, prior.validUntil, d), d, Stored(next));
    }

    /** A live name moves to another owner: the pool seat follows. */
    method MoveOwner(d: DomainId, next: DomainState)
      requires Valid() && d in domains && next.validUntil == domains[d].validUntil
      modifies this, smt
      ensures Valid() && View() == SetDomain(old(View()), d, next)
    {
      hide Commits, RefsOk, QueueOk, Leaves, Smt.Valid, Injective, Added, Removed, Acquired, Released, Enqueued,
          Dequeued, SmtKey;
      var prior := domains[d];
      SwapDomainLeaf(d, next);
      var y, z := LeafOfDomain(d, prior), LeafOfDomain(d, next);
      RefsRelease(Leaves(domains, tlds), ownerRefcounts, y);
      RefsAcquire(Leaves(domains, tlds) - {y}, Released(ownerRefcounts, y.owner), z);
      QueueKeep(domains, expirations, d, Stored(next));
      SmtPut(Some(y), z);
      domains := domains[d := Stored(next)];
      OwnerRelease(prior.owner);
      OwnerAcquire(next.owner);
    }

    lemma SwapDomainLeaf(d: DomainId, next: DomainState)
      requires Valid() && d in domains
      ensures var (ls, y, z) := (Leaves(domains, tlds), LeafOfDomain(d, domains[d]), LeafOfDomain(d, next));
              && y in ls && z !in ls - {y}
              && Leaves(domains[d := Stored(next)], tlds) == ls - {y} + {z}
              && Commits(leafHash, ls - {y} + {z},
                  Added(Removed(smt.content, SmtKey(d), leafHash(y)), SmtKey(d), leafHash(z)))
    {
      hide Commits, Leaves, RefsOk, QueueOk, Smt.Valid;
      var ls, y, z := Leaves(domains, tlds), LeafOfDomain(d, domains[d]), LeafOfDomain(d, next);
      StoredLeaf(d, next);
      LeavesDropDomain(domains, tlds, d);
      LeavesPutDomain(domains - {d}, tlds, d, Stored(next));
      assert (domains - {d})[d := Stored(next)] == domains[d := Stored(next)];
      CommitsRemove(leafHash, ls, smt.content, y);
      CommitsAdd(leafHash, ls - {y}, Removed(smt.content, SmtKey(d), leafHash(y)), z);
    }

    method CreateTld(t: TldId, st: TldState)
      requires Valid() && t !in tlds
      modifies this, smt
      ensures Valid() && View() == old(View()).(tlds := old(tlds)[t := st])
    {
      hide Commits, RefsOk, QueueOk, Leaves, Smt.Valid, Injective, Added, Removed, Acquired, Released, Enqueued,
          Dequeued, SmtKey;
      LeavesPutTld(domains, tlds, t, st);
      CommitsAdd(leafHash, Leaves(domains, tlds), smt.content, LeafOfTld(t, st));
      RefsAcquire(Leaves(domains, tlds), ownerRefcounts, LeafOfTld(t, st));
      SmtPut(None, LeafOfTld(t, st));
      tlds := tlds[t := st];
      tldCount := tldCount + 1;
      OwnerAcquire(st.owner);
    }

    method DropTld(t: TldId)
      requires Valid() && t in tlds
      modifies this, smt
      ensures Valid() && View() == old(View()).(tlds := old(tlds) - {t})
    {
      hide Commits, RefsOk, QueueOk, Leaves, Smt.Valid, Injective, Added, Removed, Acquired, Released, Enqueued,
          Dequeued, SmtKey;
      var prior := tlds[t];
      LeavesDropTld(domains, tlds, t);
      CommitsRemove(leafHash, Leaves(domains, tlds), smt.content, LeafOfTld(t, prior));
      RefsRelease(Leaves(domains, tlds), ownerRefcounts, LeafOfTld(t, prior));
      smt.Remove(SmtKey(t), leafHash(LeafOfTld(t, prior)));
      assert |tlds - {t}| == |tlds| - 1 by { assert (tlds - {t}).Keys == tlds.Keys - {t}; }
      tlds := tlds - {t};
      tldCount := tldCount - 1;
      OwnerRelease(prior.owner);
    }

    /** A namespace changes; the pool seat follows its owner when moveSeat is set. */
    method ReplaceTld(t: TldId, next: TldState, moveSeat: bool)
      requires Valid() && t in tlds && (next.owner != tlds[t].owner ==> moveSeat)
      modifies this, smt
      ensures Valid() && View() == old(View()).(tlds := old(tlds)[t := next])
    {
      hide Commits, RefsOk, QueueOk, Leaves, Smt.Valid, Injective, Added, Removed, Acquired, Released, Enqueued,
          Dequeued, SmtKey;
      var prior := tlds[t];
      ghost var ls, y, z := Leaves(domains, tlds), LeafOfTld(t, prior), LeafOfTld(t, next);
      LeavesDropTld(domains, tlds, t);
      LeavesPutTld(domains, tlds - {t}, t, next);
      assert (tlds - {t})[t := next] == tlds[t := next];
      CommitsRemove(leafHash, ls, smt.content, y);
      CommitsAdd(leafHash, ls - {y}, Removed(smt.content, SmtKey(t), leafHash(y)), z);
      if moveSeat {
        RefsRelease(ls, ownerRefcounts, y);
        RefsAcquire(ls - {y}, Released(ownerRefcounts, y.owner), z);
      } else {
        RefsReplace(ls, ownerRefcounts, y, z);
      }
      SmtPut(Some(LeafOfTld(t, prior)), LeafOfTld(t, next));
      tlds := tlds[t := next];
      if moveSeat {
        OwnerRelease(prior.owner);
        OwnerAcquire(next.owner);
      }
    }

    // ----- the eligibility pool -----

    /** Sorted keys of the owners in the pool, read off the reference counts. */
    method EligibleValidators() returns (pool: seq<PublicKey>)
      requires Valid()
      ensures Ascending(pool)
      ensures forall k: PublicKey :: k in pool <==> InPool(View(), k)
    {
      var keys := set o | o in ownerRefcounts && o in ownerKeys && ownerKeys[o] !in banned :: ownerKeys[o];
      forall k: PublicKey ensures k in keys <==> InPool(View(), k) {
        PoolFromRefs(k);
      }
      pool := SortKeys(keys);
    }

    lemma PoolFromRefs(k: PublicKey)
      requires Valid()
      ensures InPool(View(), k) <==>
                exists o :: o in ownerRefcounts && o in ownerKeys && ownerKeys[o] !in banned && ownerKeys[o] == k
    {
      hide Commits, QueueOk, Smt.Valid, Injective, LedgerOk;
      forall o: OwnerId ensures o in ownerRefcounts <==> Owns(View(), o) {
        var ls := Leaves(domains, tlds);
        assert RefOk(ls, ownerRefcounts, o);
        if Held(ls, o) != {} {
          var y :| y in Held(ls, o);
          assert y in ls && y.owner == o;
        }
        if d :| d in domains && domains[d].owner == o {
          assert LeafOfDomain(d, domains[d]) in Held(ls, o);
        }
        if t :| t in tlds && tlds[t].owner == o {
          assert LeafOfTld(t, tlds[t]) in Held(ls, o);
        }
      }
    }

    static method SortKeys(keys: set<PublicKey>) returns (sorted: seq<PublicKey>)
      ensures Ascending(sorted) && forall k :: k in sorted <==> k in keys
    {
      sorted := [];
      var left := keys;
      while left != {}
        invariant Ascending(sorted) && (forall k :: k in keys <==> k in sorted || k in left)
        invariant forall i, k :: 0 <= i < |sorted| && k in left ==> sorted[i] < k
        decreases left
      {
        var least := LeastOf(left);
        sorted, left := sorted + [least], left - {least};
      }
    }

    // ----- transactions -----

    method LearnOwnerKey(o: OwnerId, key: PublicKey, journal: UndoLog)
      requires Valid() && R.ownerOf(key) == o
      modifies this`ownerKeys, journal
      ensures Valid() && View() == LearnKey(old(View()), o, key)
      ensures journal.entries == old(journal.entries) + LearnEntry(old(View()), o)
    {
      if o !in ownerKeys {
        ownerKeys := ownerKeys[o := key];
        journal.entries := journal.entries + [UndoLearnOwnerKey(o)];
      } else {
        assert journal.entries == old(journal.entries) + [];
      }
    }

    method DropGrace(d: DomainId)
      requires Valid()
      modifies this`grace
      ensures Valid() && View() == old(View()).(grace := old(grace) - {d})
    {
      hide Commits, RefsOk, QueueOk, Leaves, Smt.Valid, Injective, LedgerOk;
      GraceShrinks(R, View(), d);
      grace := grace - {d};
    }

    /** Parks a lapsed name with its expiry and last owner. */
    method SetGrace(d: DomainId, entry: (U64, OwnerId), ghost skip: set<DomainId>)
      requires Ready(skip) && d !in domains
      modifies this`grace
      ensures Ready(skip) && View() == old(View()).(grace := old(grace)[d := entry])
    {
      hide Commits, RefsOk, QueueOk, Leaves, Smt.Valid, Injective;
      grace := grace[d := entry];
    }

    /** Consumes the name's grace entry and registers it from now on. */
    method ClaimDomain(d: DomainId, owner: OwnerId, now: U64, journal: UndoLog)
      requires Valid() && d !in domains
      modifies this, smt, journal
      ensures Valid() && View() == Claim(old(View()), d, owner, now)
      ensures journal.entries == old(journal.entries) + [ClaimEntry(old(View()), d)]
    {
      hide Ready;
      var consumed := if d in grace then Some(grace[d]) else None;
      DropGrace(d);
      CreateDomain(d, DomainState(owner, 0, None, now, TermEnd(now)));
      journal.entries := journal.entries + [UndoRegisterDomain(d, consumed)];
    }

    predicate EnsureDomainFree(d: DomainId, now: U64, claimant: OwnerId)
      reads this
      ensures EnsureDomainFree(d, now, claimant) <==> DomainFree(View(), d, now, claimant)
    {
      if d in domains then false
      else if d in grace && now < SaturatingAdd(grace[d].0, DOMAIN_GRACE_SECS) && claimant != grace[d].1 then false
      else true
    }

    method ApplyRegisterDomain(tx: Transaction, name: Name, d: DomainId, proof: string, now: U64, journal: UndoLog)
      returns (error: Option<Error>)
      requires Valid() && R.ownerOf(tx.publicKey) == tx.owner
      modifies this, smt, journal
      ensures Valid()
      ensures var o := StepRegisterDomain(R, old(View()), tx, name, d, proof, now);
              View() == o.ledger && error == o.error && journal.entries == old(journal.entries) + o.journal
    {
      var t := R.tldIdOf(R.tldOf(name));
      if t !in tlds { return Some(UnknownTld); }
      if !tlds[t].open { return Some(TldClosed); }
      if !EnsureDomainFree(d, now, tx.owner) { return Some(DomainAlreadyRegistered); }
      if !R.domainProofOk(name, proof) { return Some(InvalidProof); }
      LearnOwnerKey(tx.owner, tx.publicKey, journal);
      ClaimDomain(d, tx.owner, now, journal);
      error := None;
    }

    method ApplyUpdateDomain(tx: Transaction, d: DomainId, sequence: U64, rh: Word32, journal: UndoLog)
      returns (error: Option<Error>)
      requires Valid() && R.ownerOf(tx.publicKey) == tx.owner
      modifies this, smt, journal
      ensures Valid()
      ensures var o := StepUpdateDomain(old(View()), tx, d, sequence, rh);
              View() == o.ledger && error == o.error && journal.entries == old(journal.entries) + o.journal
    {
      if d !in domains { return Some(UnknownDomain); }
      var prior := domains[d];
      if prior.owner != tx.owner { return Some(NotOwner); }
      LearnOwnerKey(tx.owner, tx.publicKey, journal);
      if prior.sequence == U64_MAX { return Some(InvalidSequence); }
      var expected := prior.sequence + 1;
      if sequence != expected { return Some(InvalidSequence); }
      var next := prior.(sequence := expected, recordHash := Some(rh));
      journal.entries := journal.entries + [UndoUpdateDomain(d, prior)];
      ReplaceDomain(d, next);
      error := None;
    }

    method ApplyRegisterTld(tx: Transaction, name: Name, t: TldId, proof: string, journal: UndoLog)
      returns (error: Option<Error>)
      requires Valid() && R.ownerOf(tx.publicKey) == tx.owner
      modifies this, smt, journal
      ensures Valid()
      ensures var o := StepRegisterTld(R, old(View()), tx, name, t, proof);
              View() == o.ledger && error == o.error && journal.entries == old(journal.entries) + o.journal
    {
      if t in tlds { return Some(TldAlreadyRegistered); }
      if R.isIcannTld(name) { return Some(IcannTldReserved); }
      if !R.tldProofOk(name, proof) { return Some(InvalidProof); }
      LearnOwnerKey(tx.owner, tx.publicKey, journal);
      CreateTld(t, TldState(tx.owner, false));
      journal.entries := journal.entries + [UndoRegisterTld(t)];
      error := None;
    }

    method ApplyAssignDomain(tx: Transaction, name: Name, d: DomainId, assignee: OwnerId, now: U64, journal: UndoLog)
      returns (error: Option<Error>)
      requires Valid()
      modifies this, smt, journal
      ensures Valid()
      ensures var o := StepAssignDomain(R, old(View()), tx, name, d, assignee, now);
              View() == o.ledger && error == o.error && journal.entries == old(journal.entries) + o.journal
    {
      var t := R.tldIdOf(R.tldOf(name));
      if t !in tlds { return Some(UnknownTld); }
      if tlds[t].owner != tx.owner { return Some(NotTldOwner); }
      if !EnsureDomainFree(d, now, assignee) { return Some(DomainAlreadyRegistered); }
      ClaimDomain(d, assignee, now, journal);
      error := None;
    }

    method ApplyRenewDomain(tx: Transaction, d: DomainId, validUntil: U64, now: U64, journal: UndoLog)
      returns (error: Option<Error>)
      requires Valid()
      modifies this, smt, journal
      ensures Valid()
      ensures var o := StepRenewDomain(old(View()), tx, d, validUntil, now);
              View() == o.ledger && error == o.error && journal.entries == old(journal.entries) + o.journal
    {
      if d !in domains { return Some(UnknownDomain); }
      var prior := domains[d];
      if prior.owner != tx.owner { return Some(NotOwner); }
      if validUntil <= prior.validUntil { return Some(RenewalNotExtending); }
      if validUntil > SaturatingAdd(now, DOMAIN_MAX_HORIZON_SECS) { return Some(RenewalExceedsTerm); }
      journal.entries := journal.entries + [UndoRenewDomain(d, prior)];
      MoveExpiry(d, prior.(validUntil := validUntil));
      error := None;
    }

    /** Applies one transaction at the parent block time. A refused transaction may have taught the
        state an owner key; rolling back the journal removes it. */
    method ApplyJournaledAt(tx: Transaction, now: U64, journal: UndoLog) returns (error: Option<Error>)
      requires Valid()
      modifies this, smt, journal
      ensures Valid()
      ensures var o := Step(R, old(View()), tx, now);
              View() == o.ledger && error == o.error && journal.entries == old(journal.entries) + o.journal
    {
      hide Ready;
      if !Validate(R, tx) { return Some(InvalidTransaction); }
      if tx.network != R.networkId { return Some(WrongNetwork); }
      match tx.body {
        case RegisterDomain(name, d, proof) =>
          error := ApplyRegisterDomain(tx, name, d, proof, now, journal);
        case UpdateDomain(d, sequence, rh) =>
          error := ApplyUpdateDomain(tx, d, sequence, rh, journal);
        case RegisterTld(name, t, proof) =>
          error := ApplyRegisterTld(tx, name, t, proof, journal);
        case TransferTld(t, newOwner) =>
          if t !in tlds { return Some(UnknownTld); }
          var prior := tlds[t];
          if prior.owner != tx.owner { return Some(NotTldOwner); }
          journal.entries := journal.entries + [UndoMutateTld(t, prior)];
          ReplaceTld(t, prior.(owner := newOwner), true);
          error := None;
        case RevokeTld(t) =>
          if t !in tlds { return Some(UnknownTld); }
          var prior := tlds[t];
          if prior.owner != tx.owner { return Some(NotTldOwner); }
          DropTld(t);
          journal.entries := journal.entries + [UndoRevokeTld(t, prior)];
          error := None;
        case SetTldOpen(t, open) =>
          if t !in tlds { return Some(UnknownTld); }
          var prior := tlds[t];
          if prior.owner != tx.owner { return Some(NotTldOwner); }
          journal.entries := journal.entries + [UndoMutateTld(t, prior)];
          ReplaceTld(t, prior.(open := open), false);
          error := None;
        case AssignDomain(name, d, assignee) =>
          error := ApplyAssignDomain(tx, name, d, assignee, now, journal);
        case RenewDomain(d, validUntil) =>
          error := ApplyRenewDomain(tx, d, validUntil, now, journal);
        case TransferDomain(d, newOwner) =>
          if d !in domains { return Some(UnknownDomain); }
          var prior := domains[d];
          if prior.owner != tx.owner { return Some(NotOwner); }
          journal.entries := journal.entries + [UndoTransferDomain(d, prior)];
          MoveOwner(d, prior.(owner := newOwner));
          error := None;
        case Slash(e) =>
          var pool := EligibleValidators();
          if e.offender !in pool { return Some(SlashOffenderNotInPool); }
          BanAnchor(e.offender, journal);
          error := None;
      }
    }

    method BanAnchor(offender: PublicKey, journal: UndoLog)
      requires Valid()
      modifies this`banned, journal
      ensures Valid() && View() == old(View()).(banned := old(banned) + {offender})
      ensures journal.entries == old(journal.entries) + if offender in old(banned) then [] else [UndoBanAnchor(offender)]
    {
      if offender !in banned {
        banned := banned + {offender};
        journal.entries := journal.entries + [UndoBanAnchor(offender)];
      }
    }

    // ----- expiry -----

    /** Names retired so far: what the pass has done to the ledger l and written to the journal. */
    static ghost predicate Retired(l: Ledger, expired: seq<DomainId>, view: Ledger, base: seq<UndoEntry>,
        entries: seq<UndoEntry>) {
      && GcOrder(l, expired) && Elems(expired) <= l.domains.Keys
      && view == Lapse(l, Elems(expired))
      && entries == base + ExpireEntries(l, expired)
    }

    static ghost predicate ExpiryBelow(l: Ledger, expired: seq<DomainId>, bound: nat) {
      forall d :: d in expired ==> d in l.domains && l.domains[d].validUntil < bound
    }

    /** Retires every name whose registration lapsed, in order of expiry and id. */
    method GcExpired(now: U64, journal: UndoLog) returns (expired: seq<DomainId>)
      requires Valid()
      modifies this, smt, journal
      ensures Valid() && View() == Gc(old(View()), now)
      ensures GcOrder(old(View()), expired) && Elems(expired) == Expired(old(View()), now)
      ensures journal.entries == old(journal.entries) + ExpireEntries(old(View()), expired)
    {
      hide Ready, Retired, Lapse, Elems, GcOrder, ExpireEntries, ExpiryBelow;
      ghost var l, base := View(), journal.entries;
      expired := [];
      var due: set<U64> := set t | t in expirations && t <= now;
      RetiredNone(l, base);
      while due != {}
        invariant Valid() && Retired(l, expired, View(), base, journal.entries)
        invariant due == set t | t in expirations && t <= now
        invariant forall t :: t in due ==> ExpiryBelow(l, expired, t)
        invariant ExpiryBelow(l, expired, now + 1)
        decreases due
      {
        var until: U64 := LeastOf(due);
        expired := GcSlot(l, until, now, expired, journal, base);
        due := due - {until};
        BelowLater(l, expired, until + 1, due + {now});
      }
      assert forall t :: t in expirations && t <= now ==> t in due;
      NothingDue(now);
      AllExpired(l, now, expired, View(), base, journal.entries);
    }

    static lemma RetiredNone(l: Ledger, base: seq<UndoEntry>)
      ensures Retired(l, [], l, base, base) && forall t: nat :: ExpiryBelow(l, [], t)
    {
      assert l.domains - {} == l.domains;
      assert base + [] == base;
    }

    static lemma BelowLater(l: Ledger, expired: seq<DomainId>, bound: nat, later: set<U64>)
      requires ExpiryBelow(l, expired, bound) && forall t :: t in later ==> bound <= t + 1
      ensures forall t :: t in later && bound <= t ==> ExpiryBelow(l, expired, t)
      ensures forall t :: t in later ==> ExpiryBelow(l, expired, t + 1)
    {
    }

    lemma NothingDue(now: U64)
      requires Valid() && forall t :: t in expirations ==> now < t
      ensures forall d :: d in domains ==> domains[d].validUntil > now
    {
      assert QueueOk(domains, {}, expirations);
      hide Ready, QueueOk;
      forall d | d in domains ensures domains[d].validUntil > now {
        NoneDue(domains, expirations, d);
      }
    }

    static lemma AllExpired(l: Ledger, now: U64, expired: seq<DomainId>, view: Ledger, base: seq<UndoEntry>,
        entries: seq<UndoEntry>)
      requires Retired(l, expired, view, base, entries)
      requires forall d :: d in view.domains ==> view.domains[d].validUntil > now
      requires ExpiryBelow(l, expired, now + 1)
      ensures GcOrder(l, expired) && Elems(expired) == Expired(l, now)
      ensures view == Gc(l, now) && entries == base + ExpireEntries(l, expired)
    {
      hide GcOrder, ExpireEntries;
      forall d ensures d in Elems(expired) <==> d in Expired(l, now) {
        if d in Elems(expired) { assert d in expired; }
        if d in l.domains && d !in Elems(expired) { assert d in view.domains && view.domains[d] == l.domains[d]; }
      }
    }

    static lemma NoneDue(domains: map<DomainId, DomainState>, queue: map<U64, set<DomainId>>, d: DomainId)
      requires QueueOk(domains, {}, queue) && d in domains
      ensures domains[d].validUntil in queue
    {
      assert Queued(queue, domains[d].validUntil, d);
    }

    /** Retires the names of the earliest slot, by id. */
    method GcSlot(ghost l: Ledger, until: U64, now: U64, expired: seq<DomainId>, journal: UndoLog, ghost base: seq<UndoEntry>)
      returns (expired': seq<DomainId>)
      requires Valid() && until in expirations && until <= now
      requires Retired(l, expired, View(), base, journal.entries)
      requires ExpiryBelow(l, expired, until)
      modifies this, smt, journal
      ensures Valid() && expirations == old(expirations) - {until}
      ensures Retired(l, expired', View(), base, journal.entries)
      ensures ExpiryBelow(l, expired', until + 1)
    {
      hide QueueOk, Commits, RefsOk, Smt.Valid, Leaves, Retired, ExpiryBelow, Below, Lapse, Injective;
      TakeSlot(domains, expirations, until);
      var ids := expirations[until];
      BelowSlot(l, expired, until, ids);
      expirations := expirations - {until};
      expired' := expired;
      while ids != {}
        invariant Ready(ids) && expirations == old(expirations) - {until}
        invariant Retired(l, expired', View(), base, journal.entries)
        invariant forall d :: d in ids ==> d in domains && domains[d].validUntil == until
        invariant Below(l, expired', until, ids)
        decreases ids
      {
        var id: DomainId := LeastOf(ids);
        var prior := domains[id];
        RetireNext(l, expired', View(), base, journal.entries, until, ids, id);
        if prior.validUntil > now {
          assert false;  // a name always waits in the slot of its own expiry
        }
        DropDomain(id, ids);
        SetGrace(id, (prior.validUntil, prior.owner), ids - {id});
        journal.entries := journal.entries + [UndoExpireDomain(id, prior)];
        expired' := expired' + [id];
        ids := ids - {id};
      }
      BelowBound(l, expired', until);
    }

    /** Everything retired so far comes before what is left of the slot. */
    static ghost predicate Below(l: Ledger, expired: seq<DomainId>, until: U64, ids: set<DomainId>) {
      forall e :: e in expired ==>
        && e in l.domains
        && (l.domains[e].validUntil < until || (l.domains[e].validUntil == until && forall d :: d in ids ==> e < d))
    }

    static lemma BelowSlot(l: Ledger, expired: seq<DomainId>, until: U64, ids: set<DomainId>)
      requires ExpiryBelow(l, expired, until)
      ensures Below(l, expired, until, ids)
    {
    }

    static lemma BelowBound(l: Ledger, expired: seq<DomainId>, until: U64)
      requires Below(l, expired, until, {})
      ensures ExpiryBelow(l, expired, until + 1)
    {
    }

    static lemma TakeSlot(domains: map<DomainId, DomainState>, queue: map<U64, set<DomainId>>, until: U64)
      requires QueueOk(domains, {}, queue) && until in queue
      ensures QueueOk(domains, queue[until], queue - {until})
      ensures forall d :: d in queue[until] ==> d in domains && domains[d].validUntil == until
    {
      var ids, queue' := queue[until], queue - {until};
      forall t: U64, d: DomainId
        ensures Queued(queue', t, d) <==> d in domains && d !in ids && domains[d].validUntil == t
      {
        assert Queued(queue, t, d) <==> d in domains && domains[d].validUntil == t;
        assert Queued(queue', t, d) <==> Queued(queue, t, d) && t != until;
        assert Queued(queue, until, d) <==> d in ids;
      }
      forall d | d in ids ensures d in domains && domains[d].validUntil == until {
        assert Queued(queue, until, d);
      }
    }

    /** The least name left in the slot is the next to go. */
    static lemma RetireNext(l: Ledger, expired: seq<DomainId>, view: Ledger, base: seq<UndoEntry>, entries: seq<UndoEntry>,
                            until: U64, ids: set<DomainId>, id: DomainId)
      requires Retired(l, expired, view, base, entries) && Below(l, expired, until, ids)
      requires id in view.domains && view.domains[id].validUntil == until
      requires id in ids && forall d :: d in ids ==> id <= d
      ensures var prior := view.domains[id];
              && Retired(l, expired + [id],
                         view.(domains := view.domains - {id}, grace := view.grace[id := (prior.validUntil, prior.owner)]),
                         base, entries + [UndoExpireDomain(id, prior)])
              && Below(l, expired + [id], until, ids - {id})
    {
      hide ExpireEntries;
      var order := expired + [id];
      OrderGrows(l, expired, until, ids, id);
      assert order[..|expired|] == expired;
      SplitOrder(l, order);
      hide Elems, GcOrder, Below;
      LapseNext(l, Elems(expired), id);
      hide Lapse;
      AppendAssociates(base, ExpireEntries(l, expired), [UndoExpireDomain(id, l.domains[id])]);
    }

    static lemma AppendAssociates<T>(a: seq<T>, b: seq<T>, c: seq<T>)
      ensures a + b + c == a + (b + c)
    {
    }

    static lemma OrderGrows(l: Ledger, expired: seq<DomainId>, until: U64, ids: set<DomainId>, id: DomainId)
      requires GcOrder(l, expired) && Below(l, expired, until, ids)
      requires id in l.domains && l.domains[id].validUntil == until
      requires id in ids && forall d :: d in ids ==> id <= d
      ensures GcOrder(l, expired + [id]) && Below(l, expired + [id], until, ids - {id})
    {
      var order := expired + [id];
      forall i, j | 0 <= i < j < |order|
        ensures var (x, y) := (l.domains[order[i]].validUntil, l.domains[order[j]].validUntil);
                x < y || (x == y && order[i] < order[j])
      {
        assert i < |expired| && order[i] in expired;
      }
    }

    // ----- rollback -----

    /** Undoes every journaled change, most recent first. */
    method Rollback(journal: UndoLog)
      requires Valid() && Undoable(View(), journal.entries)
      modifies this, smt
      ensures Valid() && View() == UndoAll(old(View()), journal.entries)
    {
      hide Ready, CanUndo, Undo, Undoable, UndoAll;
      ghost var l, entries := View(), journal.entries;
      var i := |journal.entries|;
      assert entries[..i] == entries;
      while i > 0
        invariant 0 <= i <= |entries| && Valid() && journal.entries == entries
        invariant Undoable(View(), entries[..i]) && UndoAll(View(), entries[..i]) == UndoAll(l, entries)
      {
        i := i - 1;
        UndoNext(View(), entries, i);
        UndoEntryInPlace(journal.entries[i]);
      }
      UndoDone(View(), entries[..0]);
    }

    method UndoEntryInPlace(e: UndoEntry)
      requires Valid() && CanUndo(View(), e)
      modifies this, smt
      ensures Valid() && View() == Undo(old(View()), e)
    {
      hide Ready;
      match e
      case UndoRegisterDomain(d, consumed) =>
        DequeueAndDrop(d);
        if consumed.Some? {
          SetGrace(d, consumed.value, {});
        }
      case UndoUpdateDomain(d, prior) =>
        ReplaceDomain(d, prior);
      case UndoRegisterTld(t) =>
        DropTld(t);
      case UndoMutateTld(t, prior) =>
        ReplaceTld(t, prior, true);
      case UndoRevokeTld(t, prior) =>
        CreateTld(t, prior);
      case UndoRenewDomain(d, prior) =>
        MoveExpiry(d, prior);
      case UndoTransferDomain(d, prior) =>
        MoveOwner(d, prior);
      case UndoExpireDomain(d, prior) =>
        DropGrace(d);
        CreateDomain(d, prior);
      case UndoLearnOwnerKey(o) =>
        ForgetOwnerKey(o);
      case UndoBanAnchor(k) =>
        Unban(k);
    }

    method ForgetOwnerKey(o: OwnerId)
      requires Valid()
      modifies this`ownerKeys
      ensures Valid() && View() == old(View()).(ownerKeys := old(ownerKeys) - {o})
    {
      hide Commits, RefsOk, QueueOk, Leaves, Smt.Valid, Injective;
      ownerKeys := ownerKeys - {o};
    }

    method Unban(key: PublicKey)
      requires Valid()
      modifies this`banned
      ensures Valid() && View() == old(View()).(banned := old(banned) - {key})
    {
      hide Commits, RefsOk, QueueOk, Leaves, Smt.Valid, Injective;
      banned := banned - {key};
    }

    /** A name leaves its slot and the registry. */
    method DequeueAndDrop(d: DomainId)
      requires Valid() && d in domains
      modifies this, smt
      ensures Valid() && View() == old(View()).(domains := old(domains) - {d})
    {
      hide Commits, RefsOk, QueueOk, Leaves, Smt.Valid, Injective, LedgerOk;
      QueueRemove(domains, {}, expirations, d);
      assert {} + {d} == {d} && {d} - {d} == {};
      ExpirationDequeue(domains[d].validUntil, d);
      DropDomain(d, {d});
    }

    /** The logical state determines every stored field, down to the physical Merkle tree. */
    twostate lemma SameViewSameState()
      requires old(Valid()) && Valid() && View() == old(View())
      ensures domainCount == old(domainCount) && tldCount == old(tldCount)
      ensures ownerRefcounts == old(ownerRefcounts) && expirations == old(expirations)
      ensures smt.content == old(smt.content)
      ensures smt.leaves == old(smt.leaves) && smt.buckets == old(smt.buckets) && smt.nodes == old(smt.nodes)
      ensures smt.rootChild == old(smt.rootChild) && smt.rootHash == old(smt.rootHash)
    {
      hide Commits, RefsOk, QueueOk, Leaves, Represents, Injective;
      CommitsUnique(leafHash, Leaves(domains, tlds), smt.content, old(smt.content));
      RefsUnique(Leaves(domains, tlds), ownerRefcounts, old(ownerRefcounts));
      QueueUnique(domains, expirations, old(expirations));
      PhysicalIsCanonical(smt.h, smt.content, smt.leaves, smt.buckets, smt.nodes, smt.rootChild, smt.rootHash,
          old(smt.leaves), old(smt.buckets), old(smt.nodes), old(smt.rootChild), old(smt.rootHash));
    }

    /** Every stored field is what it was. */
    twostate predicate Unchanged()
      reads this, smt
    {
      && View() == old(View())
      && domainCount == old(domainCount) && tldCount == old(tldCount)
      && ownerRefcounts == old(ownerRefcounts) && expirations == old(expirations)
      && smt.leaves == old(smt.leaves) && smt.buckets == old(smt.buckets) && smt.nodes == old(smt.nodes)
      && smt.rootChild == old(smt.rootChild) && smt.rootHash == old(smt.rootHash)
    }

    lemma ViewOk()
      requires Valid()
      ensures LedgerOk(R, View())
    {
    }

    /** The state's part of pushing a block: expiry at the parent time, then the transactions, all or nothing. */
    method ApplyBlock(txs: seq<Transaction>, now: U64) returns (error: Option<Error>, expired: seq<DomainId>)
      requires Valid()
      modifies this, smt
      ensures Valid()
      ensures var o := StepAll(R, Gc(old(View()), now), txs, now);
              error == o.error && (error == None ==> View() == o.ledger)
      ensures error != None ==> Unchanged()
      ensures GcOrder(old(View()), expired) && Elems(expired) == Expired(old(View()), now)
    {
      hide Ready, Step, StepAll, Gc, LedgerOk, Undoable, UndoAll, Expired, Elems, ExpireEntries;
      ghost var l := View();
      ViewOk();
      var journal := new UndoLog();
      expired := GcExpired(now, journal);
      error := ApplyAll(txs, now, journal);
      if error != None {
        RollbackIsExact(R, l, now, expired, txs);
        assert journal.entries == ExpireEntries(l, expired) + StepAll(R, Gc(l, now), txs, now).journal;
        Rollback(journal);
        SameViewSameState();
      }
    }

    method ApplyAll(txs: seq<Transaction>, now: U64, journal: UndoLog) returns (error: Option<Error>)
      requires Valid()
      modifies this, smt, journal
      ensures Valid()
      ensures var o := StepAll(R, old(View()), txs, now);
              View() == o.ledger && error == o.error && journal.entries == old(journal.entries) + o.journal
    {
      hide Ready, Step, StepAll, LedgerOk;
      error := None;
      ghost var start, done := journal.entries, [];
      ghost var whole := StepAll(R, View(), txs, now);
      var i := 0;
      assert txs[0..] == txs;
      Continued(whole);
      while i < |txs| && error == None
        invariant 0 <= i <= |txs| && Valid()
        invariant journal.entries == start + done
        invariant whole == if error != None then Outcome(View(), done, error)
            else After(done, StepAll(R, View(), txs[i..], now))
        decreases |txs| - i, if error == None then 1 else 0
      {
        StepAllUnfold(R, View(), txs, i, now);
        if !R.signatureOk(txs[i]) {
          error := Some(InvalidSignature);
          assert done + [] == done;
        } else {
          ghost var o := Step(R, View(), txs[i], now);
          error := ApplyJournaledAt(txs[i], now, journal);
          ContinuedTwice(done, o.journal, StepAll(R, View(), txs[i + 1..], now));
          assert start + (done + o.journal) == (start + done) + o.journal;
          done := done + o.journal;
          i := i + 1;
        }
      }
      if error == None {
        StepAllDone(R, View(), txs[i..], now);
        assert done + [] == done;
      }
    }

    /** What remains to be done, after some entries were journaled. */
    static ghost function After(done: seq<UndoEntry>, rest: Outcome): Outcome {
      Outcome(rest.ledger, done + rest.journal, rest.error)
    }

    static lemma Continued(o: Outcome)
      ensures After([], o) == o
    {
      assert [] + o.journal == o.journal;
    }

    static lemma ContinuedTwice(a: seq<UndoEntry>, b: seq<UndoEntry>, rest: Outcome)
      ensures After(a + b, rest) == After(a, After(b, rest))
    {
      assert (a + b) + rest.journal == a + (b + rest.journal);
    }

    static lemma StepAllDone(R: Rules, l: Ledger, txs: seq<Transaction>, now: U64)
      requires txs == []
      ensures StepAll(R, l, txs, now) == Outcome(l, [], None)
    {
    }

    static lemma StepAllUnfold(R: Rules, l: Ledger, txs: seq<Transaction>, i: nat, now: U64)
      requires i < |txs|
      ensures StepAll(R, l, txs[i..], now) ==
              if !R.signatureOk(txs[i]) then Outcome(l, [], Some(InvalidSignature))
              else
                var o := Step(R, l, txs[i], now);
                if o.error.Some? then o else After(o.journal, StepAll(R, o.ledger, txs[i + 1..], now))
    {
      hide Step;
      assert txs[i..][0] == txs[i] && txs[i..][1..] == txs[i + 1..];
    }

    /** One transaction outside any block: refused means unchanged. */
    method Apply(tx: Transaction) returns (error: Option<Error>)
      requires Valid()
      modifies this, smt
      ensures Valid()
      ensures var o := Step(R, old(View()), tx, 0);
              error == o.error && if error == None then View() == o.ledger else Unchanged()
    {
      hide Ready, Step, LedgerOk, Undoable, UndoAll;
      var journal := new UndoLog();
      ghost var l := View();
      ViewOk();
      error := ApplyJournaledAt(tx, 0, journal);
      if error != None {
        StepReverts(R, l, tx, 0);
        assert journal.entries == Step(R, l, tx, 0).journal;
        Rollback(journal);
        SameViewSameState();
      }
    }
  }
}
