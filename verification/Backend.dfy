/** The ordered store under the chain state: one key space for names and namespaces, read page by page
    (crates/scone-blockchain/src/state_backend.rs). */
module Backend {
  import opened Prelude
  import opened Bytes
  import opened SmtSpec
  import opened Ledger
  import opened EntryCodec
  import Lifecycle

  type Key32 = Word32
  type Entries = map<Key32, seq<Byte>>

  // ----- pages -----

  predicate From(from: Option<Key32>, k: Key32) {
    from == None || from.value <= k
  }

  /** The first `limit` entries at or after `from`, in key order, and the key of the next one if any is left. */
  ghost predicate IsPage(entries: Entries, from: Option<Key32>, limit: nat, page: seq<(Key32, seq<Byte>)>,
      next: Option<Key32>) {
    && AscendingEntries(page)
    && (forall e :: e in page ==> e.0 in entries && entries[e.0] == e.1 && From(from, e.0))
    && (forall k :: k in entries && From(from, k) && (next == None || k < next.value) ==> (k, entries[k]) in page)
    && (next == None ==> |page| <= limit)
    && (next.Some? ==>
          && |page| == limit && next.value in entries && From(from, next.value)
          && forall e :: e in page ==> e.0 < next.value)
  }

  ghost predicate AscendingEntries(page: seq<(Key32, seq<Byte>)>) {
    forall i, j :: 0 <= i < j < |page| ==> page[i].0 < page[j].0
  }

  class MemoryBackend {
    var entries: Entries

    constructor ()
      ensures entries == map[]
    {
      entries := map[];
    }

    method Get(key: Key32) returns (value: Option<seq<Byte>>)
      ensures value == if key in entries then Some(entries[key]) else None
    {
      value := if key in entries then Some(entries[key]) else None;
    }

    method Put(key: Key32, value: seq<Byte>)
      modifies this
      ensures entries == old(entries)[key := value]
    {
      entries := entries[key := value];
    }

    method Delete(key: Key32)
      modifies this
      ensures entries == old(entries) - {key}
    {
      entries := entries - {key};
    }

    method Range(from: Option<Key32>, limit: nat) returns (page: seq<(Key32, seq<Byte>)>, next: Option<Key32>)
      ensures IsPage(entries, from, limit, page, next)
      ensures forall i, j :: 0 <= i < j < |page| ==> page[i].0 < page[j].0
      ensures forall k :: k in entries && (from == None || from.value <= k) ==>
                if next.Some? && next.value <= k then forall e :: e in page ==> e.0 < k else (k, entries[k]) in page
      ensures forall e :: e in page ==> e.0 in entries && entries[e.0] == e.1 && (from == None || from.value <= e.0)
      ensures if next == None then |page| <= limit else |page| == limit && next.value in entries
    {
      hide PageSoFar, IsPage;
      page, next := [], None;
      var left := set k | k in entries && From(from, k);
      EmptyPage(entries, from, left);
      while left != {}
        invariant PageSoFar(entries, from, page, left) && |page| <= limit && next == None
        decreases left
      {
        var k: Key32 := LeastOf(left);
        if |page| == limit {
          next := Some(k);
          PageFull(entries, from, page, left, k);
          PageMeans(entries, from, limit, page, next);
          return;
        }
        PageNext(entries, from, page, left, k);
        page := page + [(k, entries[k])];
        left := left - {k};
      }
      PageDone(entries, from, limit, page);
      PageMeans(entries, from, limit, page, next);
    }

    /** Reads everything, following the cursor from page to page. */
    method ScanAll(limit: nat) returns (all: seq<(Key32, seq<Byte>)>)
      requires limit > 0
      ensures IsPage(entries, None, |all|, all, None)
      ensures forall i, j :: 0 <= i < j < |all| ==> all[i].0 < all[j].0
      ensures forall k, v :: (k, v) in all <==> k in entries && entries[k] == v
    {
      hide IsPage, ScannedBelow;
      all := [];
      var cursor: Option<Key32> := None;
      ghost var left := entries.Keys;
      NothingScanned(entries);
      var done := false;
      while !done
        invariant if done then IsPage(entries, None, |all|, all, None) else ScannedBelow(entries, all, cursor)
        invariant !done ==> left == set k | k in entries && From(cursor, k)
        decreases if done then 0 else 1, left
      {
        var page, next := Range(cursor, limit);
        ScanPage(entries, all, cursor, limit, page, next);
        all := all + page;
        if next == None {
          done := true;
        } else {
          PageShrinks(entries, cursor, limit, page, next, left);
          cursor := next;
          left := set k | k in entries && From(cursor, k);
        }
      }
      WholeMeans(entries, all);
    }
  }

  /** The page lists in order the keys that are no longer left; what is left comes after. */
  ghost predicate PageSoFar(entries: Entries, from: Option<Key32>, page: seq<(Key32, seq<Byte>)>, left: set<Key32>) {
    && AscendingEntries(page)
    && (forall e :: e in page ==> e.0 in entries && entries[e.0] == e.1 && From(from, e.0) && BeforeAll(e.0, left))
    && (forall k :: k in entries && From(from, k) ==> k in left || (k, entries[k]) in page)
    && (forall k :: k in left ==> k in entries && From(from, k))
  }

  ghost predicate BeforeAll(x: Key32, left: set<Key32>) {
    forall k :: k in left ==> x < k
  }

  lemma PageMeans(entries: Entries, from: Option<Key32>, limit: nat, page: seq<(Key32, seq<Byte>)>, next: Option<Key32>)
    requires IsPage(entries, from, limit, page, next)
    ensures forall i, j :: 0 <= i < j < |page| ==> page[i].0 < page[j].0
    ensures forall k :: k in entries && (from == None || from.value <= k) ==>
              if next.Some? && next.value <= k then forall e :: e in page ==> e.0 < k else (k, entries[k]) in page
    ensures forall e :: e in page ==> e.0 in entries && entries[e.0] == e.1 && (from == None || from.value <= e.0)
    ensures if next == None then |page| <= limit else |page| == limit && next.value in entries
  {
  }

  lemma WholeMeans(entries: Entries, all: seq<(Key32, seq<Byte>)>)
    requires IsPage(entries, None, |all|, all, None)
    ensures forall i, j :: 0 <= i < j < |all| ==> all[i].0 < all[j].0
    ensures forall k, v :: (k, v) in all <==> k in entries && entries[k] == v
  {
    forall k, v ensures (k, v) in all <==> k in entries && entries[k] == v {
      if (k, v) in all { assert (k, v).0 in entries; }
    }
  }

  lemma EmptyPage(entries: Entries, from: Option<Key32>, left: set<Key32>)
    requires left == set k | k in entries && From(from, k)
    ensures PageSoFar(entries, from, [], left)
  {
  }

  lemma PageNext(entries: Entries, from: Option<Key32>, page: seq<(Key32, seq<Byte>)>, left: set<Key32>, k: Key32)
    requires PageSoFar(entries, from, page, left) && k in left && forall y :: y in left ==> k <= y
    ensures k in entries && PageSoFar(entries, from, page + [(k, entries[k])], left - {k})
  {
    var page' := page + [(k, entries[k])];
    forall i, j | 0 <= i < j < |page'| ensures page'[i].0 < page'[j].0 {
      if j == |page| { assert page[i] in page && BeforeAll(page[i].0, left); }
    }
    forall e | e in page' ensures BeforeAll(e.0, left - {k}) {
      if e in page { assert BeforeAll(e.0, left); }
    }
  }

  lemma PageFull(entries: Entries, from: Option<Key32>, page: seq<(Key32, seq<Byte>)>, left: set<Key32>, k: Key32)
    requires PageSoFar(entries, from, page, left) && k in left && forall y :: y in left ==> k <= y
    ensures IsPage(entries, from, |page|, page, Some(k))
  {
    assert forall e :: e in page ==> BeforeAll(e.0, left);
  }

  lemma PageDone(entries: Entries, from: Option<Key32>, limit: nat, page: seq<(Key32, seq<Byte>)>)
    requires PageSoFar(entries, from, page, {}) && |page| <= limit
    ensures IsPage(entries, from, limit, page, None)
  {
  }

  /** Everything before the cursor has been read, in order. */
  ghost predicate ScannedBelow(entries: Entries, all: seq<(Key32, seq<Byte>)>, cursor: Option<Key32>) {
    && AscendingEntries(all) && (cursor == None ==> all == [])
    && (forall e :: e in all ==> e.0 in entries && entries[e.0] == e.1 && cursor.Some? && e.0 < cursor.value)
    && (forall k :: k in entries && cursor.Some? && k < cursor.value ==> (k, entries[k]) in all)
  }

  lemma NothingScanned(entries: Entries)
    ensures ScannedBelow(entries, [], None)
  {
  }

  /** A page extends what was read up to its next key, without gap or overlap. */
  lemma ScanPage(entries: Entries, all: seq<(Key32, seq<Byte>)>, cursor: Option<Key32>, limit: nat,
                 page: seq<(Key32, seq<Byte>)>, next: Option<Key32>)
    requires ScannedBelow(entries, all, cursor) && IsPage(entries, cursor, limit, page, next)
    ensures if next == None then IsPage(entries, None, |all + page|, all + page, None)
        else ScannedBelow(entries, all + page, next)
  {
    var more := all + page;
    forall i, j | 0 <= i < j < |more| ensures more[i].0 < more[j].0 {
      if i < |all| <= j {
        assert all[i] in all && page[j - |all|] in page;
      }
    }
    forall e | e in more ensures e.0 in entries && entries[e.0] == e.1 && (next.Some? ==> e.0 < next.value) {
      if e in all && next.Some? { assert From(cursor, next.value); }
    }
    forall k | k in entries && (next == None || k < next.value) ensures (k, entries[k]) in more {
      if From(cursor, k) { assert (k, entries[k]) in page; } else { assert (k, entries[k]) in all; }
    }
  }

  lemma PageShrinks(entries: Entries, cursor: Option<Key32>, limit: nat, page: seq<(Key32, seq<Byte>)>,
      next: Option<Key32>, left: set<Key32>)
    requires IsPage(entries, cursor, limit, page, next) && next.Some? && limit > 0
    requires left == set k | k in entries && From(cursor, k)
    ensures (set k | k in entries && From(next, k)) < left
  {
    assert page[0] in page;
    var after := set k | k in entries && From(next, k);
    assert page[0].0 in left && page[0].0 !in after;
    forall k | k in after ensures k in left {}
  }

  // ----- the registry in the store -----

  /** Names and namespaces as stored bytes under one key space. */
  function StoredOf(domains: map<DomainId, DomainState>, tlds: map<TldId, TldState>): Entries {
    (map d | d in domains :: EncodeDomain(domains[d])) + (map t | t in tlds :: EncodeTld(tlds[t]))
  }

  /** What the store says about a name, and about a namespace. */
  function DomainIn(entries: Entries, d: DomainId): Option<DomainState> {
    if d in entries then DecodeDomain(entries[d]) else None
  }

  function TldIn(entries: Entries, t: TldId): Option<TldState> {
    if t in entries then DecodeTld(entries[t]) else None
  }

  lemma StoreAnswers(domains: map<DomainId, DomainState>, tlds: map<TldId, TldState>, id: Word32)
    requires domains.Keys !! tlds.Keys && forall d :: d in domains ==> domains[d].recordHash != Some(0)
    ensures DomainIn(StoredOf(domains, tlds), id) == if id in domains then Some(domains[id]) else None
    ensures TldIn(StoredOf(domains, tlds), id) == if id in tlds then Some(tlds[id]) else None
  {
    hide EncodeDomain, EncodeTld;
    if id in domains {
      DomainRoundTrip(domains[id]);
      assert id !in tlds.Keys;
    }
    if id in tlds { TldRoundTrip(tlds[id]); }
  }

  /** Whatever the store is asked, its answer is that of the two maps. */
  ghost predicate Exact(entries: Entries, domains: map<DomainId, DomainState>, tlds: map<TldId, TldState>) {
    forall id: Word32 ::
      && DomainIn(entries, id) == (if id in domains then Some(domains[id]) else None)
      && TldIn(entries, id) == (if id in tlds then Some(tlds[id]) else None)
  }

  /** One store answers for both maps exactly if and only if no id names both a name and a namespace. */
  lemma StoreIsExact(domains: map<DomainId, DomainState>, tlds: map<TldId, TldState>)
    requires forall d :: d in domains ==> domains[d].recordHash != Some(0)
    ensures Exact(StoredOf(domains, tlds), domains, tlds) <==> domains.Keys !! tlds.Keys
  {
    hide EncodeDomain, EncodeTld;
    if domains.Keys !! tlds.Keys {
      forall id: Word32
        ensures DomainIn(StoredOf(domains, tlds), id) == if id in domains then Some(domains[id]) else None
        ensures TldIn(StoredOf(domains, tlds), id) == if id in tlds then Some(tlds[id]) else None
      {
        StoreAnswers(domains, tlds, id);
      }
    } else {
      var both :| both in domains.Keys && both in tlds.Keys;
      assert StoredOf(domains, tlds)[both] == EncodeTld(tlds[both]);
      assert DomainIn(StoredOf(domains, tlds), both) == None;
    }
  }

  /** So in every run the store of the registry is exact, where name and namespace ids never agree. */
  lemma ReachableStoreIsExact(R: Rules, events: seq<Lifecycle.Event>, i: nat)
    requires i <= |events| && forall n, m :: R.domainIdOf(n) != R.tldIdOf(m)
    ensures var l := Lifecycle.State(R, events, i); Exact(StoredOf(l.domains, l.tlds), l.domains, l.tlds)
  {
    hide Exact, StoredOf, Lifecycle.State;
    var l := Lifecycle.State(R, events, i);
    Lifecycle.IdsStayDisjoint(R, events, i);
    Lifecycle.StateOk(R, events, i);
    StoreIsExact(l.domains, l.tlds);
  }

  lemma StoredBytes(st: DomainState)
    ensures EncodeDomain(Stored(st)) == EncodeDomain(st)
  {
    hide WordBytes, EncodeLE;
  }

  lemma StorePutsDomain(domains: map<DomainId, DomainState>, tlds: map<TldId, TldState>, d: DomainId, st: DomainState)
    ensures StoredOf(domains[d := Stored(st)], tlds - {d}) == StoredOf(domains, tlds)[d := EncodeDomain(st)]
  {
    hide EncodeDomain, EncodeTld, Stored;
    StoredBytes(st);
    var a, b := StoredOf(domains[d := Stored(st)], tlds - {d}), StoredOf(domains, tlds)[d := EncodeDomain(st)];
    assert a.Keys == b.Keys;
    forall k | k in a ensures a[k] == b[k] {}
  }

  lemma StorePutsTld(domains: map<DomainId, DomainState>, tlds: map<TldId, TldState>, t: TldId, st: TldState)
    ensures StoredOf(domains - {t}, tlds[t := st]) == StoredOf(domains, tlds)[t := EncodeTld(st)]
  {
    hide EncodeDomain, EncodeTld;
    var a, b := StoredOf(domains - {t}, tlds[t := st]), StoredOf(domains, tlds)[t := EncodeTld(st)];
    assert a.Keys == b.Keys;
    forall k | k in a ensures a[k] == b[k] {}
  }

  lemma StoreDeletes(domains: map<DomainId, DomainState>, tlds: map<TldId, TldState>, id: Word32)
    ensures StoredOf(domains - {id}, tlds - {id}) == StoredOf(domains, tlds) - {id}
  {
    hide EncodeDomain, EncodeTld;
    var a, b := StoredOf(domains - {id}, tlds - {id}), StoredOf(domains, tlds) - {id};
    assert a.Keys == b.Keys;
    forall k | k in a ensures a[k] == b[k] {}
  }

  /** The registry's entries as the state keeps them: bytes in one backend, read back at every lookup. The two maps
      are what those bytes mean. An id used for both kinds holds what was written last. */
  class EntryStore {
    const backend: MemoryBackend
    ghost var domains: map<DomainId, DomainState>
    ghost var tlds: map<TldId, TldState>

    ghost predicate Valid()
      reads this, backend
    {
      && backend.entries == StoredOf(domains, tlds)
      && domains.Keys !! tlds.Keys
      && forall d :: d in domains ==> domains[d].recordHash != Some(0)
    }

    constructor ()
      ensures Valid() && fresh(backend) && domains == map[] && tlds == map[]
    {
      backend := new MemoryBackend();
      domains, tlds := map[], map[];
    }

    method Domain(id: DomainId) returns (st: Option<DomainState>)
      requires Valid()
      ensures st == if id in domains then Some(domains[id]) else None
    {
      hide StoredOf, DecodeDomain;
      StoreAnswers(domains, tlds, id);
      var bytes := backend.Get(id);
      st := if bytes.Some? then DecodeDomain(bytes.value) else None;
    }

    method Tld(id: TldId) returns (st: Option<TldState>)
      requires Valid()
      ensures st == if id in tlds then Some(tlds[id]) else None
    {
      hide StoredOf, DecodeTld;
      StoreAnswers(domains, tlds, id);
      var bytes := backend.Get(id);
      st := if bytes.Some? then DecodeTld(bytes.value) else None;
    }

    method PutDomainEntry(id: DomainId, st: DomainState)
      requires Valid()
      modifies this, backend
      ensures Valid() && domains == old(domains)[id := Stored(st)] && tlds == old(tlds) - {id}
    {
      hide StoredOf, EncodeDomain;
      StorePutsDomain(domains, tlds, id, st);
      backend.Put(id, EncodeDomain(st));
      domains, tlds := domains[id := Stored(st)], tlds - {id};
    }

    method PutTldEntry(id: TldId, st: TldState)
      requires Valid()
      modifies this, backend
      ensures Valid() && domains == old(domains) - {id} && tlds == old(tlds)[id := st]
    {
      hide StoredOf, EncodeTld;
      StorePutsTld(domains, tlds, id, st);
      backend.Put(id, EncodeTld(st));
      domains, tlds := domains - {id}, tlds[id := st];
    }

    /** Removes an entry of either kind. */
    method RemoveEntry(id: Word32)
      requires Valid()
      modifies this, backend
      ensures Valid() && domains == old(domains) - {id} && tlds == old(tlds) - {id}
    {
      hide StoredOf;
      StoreDeletes(domains, tlds, id);
      backend.Delete(id);
      domains, tlds := domains - {id}, tlds - {id};
    }
  }

  /** So the store determines both maps. */
  lemma StoreDetermines(domains: map<DomainId, DomainState>, tlds: map<TldId, TldState>,
                        domains': map<DomainId, DomainState>, tlds': map<TldId, TldState>)
    requires domains.Keys !! tlds.Keys && domains'.Keys !! tlds'.Keys
    requires forall d :: d in domains ==> domains[d].recordHash != Some(0)
    requires forall d :: d in domains' ==> domains'[d].recordHash != Some(0)
    ensures StoredOf(domains, tlds) == StoredOf(domains', tlds') <==> domains == domains' && tlds == tlds'
  {
    hide StoredOf;
    if StoredOf(domains, tlds) == StoredOf(domains', tlds') {
      forall id: Word32
        ensures (id in domains <==> id in domains') && (id in domains ==> domains[id] == domains'[id])
        ensures (id in tlds <==> id in tlds') && (id in tlds ==> tlds[id] == tlds'[id])
      {
        StoreAnswers(domains, tlds, id);
        StoreAnswers(domains', tlds', id);
      }
    }
  }

  /** So two runs leave equal stores exactly when they leave equal registries. */
  lemma ReachableStoresAgree(R: Rules, events: seq<Lifecycle.Event>, i: nat, events': seq<Lifecycle.Event>, j: nat)
    requires i <= |events| && j <= |events'| && forall n, m :: R.domainIdOf(n) != R.tldIdOf(m)
    ensures var (l, l') := (Lifecycle.State(R, events, i), Lifecycle.State(R, events', j));
            StoredOf(l.domains, l.tlds) == StoredOf(l'.domains, l'.tlds) <==> l.domains == l'.domains && l.tlds == l'.tlds
  {
    hide StoredOf, Lifecycle.State;
    var l, l' := Lifecycle.State(R, events, i), Lifecycle.State(R, events', j);
    Lifecycle.IdsStayDisjoint(R, events, i);
    Lifecycle.IdsStayDisjoint(R, events', j);
    Lifecycle.StateOk(R, events, i);
    Lifecycle.StateOk(R, events', j);
    StoreDetermines(l.domains, l.tlds, l'.domains, l'.tlds);
  }
}
