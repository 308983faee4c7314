/** The logical chain state and its rules as pure functions: what one transaction, one
    expiry pass and one rollback do (crates/scone-blockchain/src/state.rs). */
module Ledger {
  import opened Prelude
  import opened Checkpoints

  const DOMAIN_TERM_SECS: nat := 365 * 24 * 3600
  const DOMAIN_GRACE_SECS: nat := 30 * 24 * 3600
  const DOMAIN_MAX_HORIZON_SECS: nat := 3 * 365 * 24 * 3600

  /** The end of a term that starts at `now`, in the wrapping arithmetic of a release build. */
  function TermEnd(now: U64): (end: U64)
    ensures end > now <==> now <= U64_MAX - DOMAIN_TERM_SECS
  {
    if now + DOMAIN_TERM_SECS <= U64_MAX then now + DOMAIN_TERM_SECS else now + DOMAIN_TERM_SECS - (U64_MAX + 1)
  }

  type Name = string
  type OwnerId = Word32
  type DomainId = Word32
  type TldId = Word32

  datatype DomainState = DomainState(
    owner: OwnerId,
    sequence: U64,
    recordHash: Option<Word32>,
    registeredAt: U64,
    validUntil: U64)

  datatype TldState = TldState(owner: OwnerId, open: bool)

  /** An all-zero record hash is stored like no hash at all, and read back as none. */
  function Stored(st: DomainState): (r: DomainState)
    ensures r.recordHash != Some(0)
    ensures r == st || (st.recordHash == Some(0) && r == st.(recordHash := None))
  {
    if st.recordHash == Some(0) then st.(recordHash := None) else st
  }

  datatype Body =
    | RegisterDomain(name: Name, domainId: DomainId, proof: string)
    | UpdateDomain(updateId: DomainId, sequence: U64, recordHash: Word32)
    | RegisterTld(tldName: Name, newTldId: TldId, tldProof: string)
    | TransferTld(tldId: TldId, newTldOwner: OwnerId)
    | RevokeTld(revokedTld: TldId)
    | SetTldOpen(setTld: TldId, open: bool)
    | AssignDomain(assignName: Name, assignId: DomainId, assignee: OwnerId)
    | RenewDomain(renewId: DomainId, validUntil: U64)
    | TransferDomain(transferId: DomainId, newOwner: OwnerId)
    | Slash(evidence: Evidence)

  datatype Transaction = Tx(network: nat, owner: OwnerId, publicKey: PublicKey, signature: Signature, body: Body)

  datatype Error =
    | InvalidTransaction | InvalidSignature | WrongNetwork | UnknownTld | TldClosed | DomainAlreadyRegistered | TldAlreadyRegistered
    | InvalidProof | UnknownDomain | NotOwner | InvalidSequence | IcannTldReserved | NotTldOwner
    | RenewalNotExtending | RenewalExceedsTerm | SlashOffenderNotInPool

  /** Derivations and checks the rules call on. */
  datatype Rules = Rules(
    networkId: nat,
    crypto: Crypto,
    ownerOf: PublicKey -> OwnerId,
    domainIdOf: Name -> DomainId,
    tldIdOf: Name -> TldId,
    tldOf: Name -> Name,
    domainProofOk: (Name, string) -> bool,
    tldProofOk: (Name, string) -> bool,
    isIcannTld: Name -> bool,
    signatureOk: Transaction -> bool)

  datatype Ledger = Ledger(
    domains: map<DomainId, DomainState>,
    tlds: map<TldId, TldState>,
    grace: map<DomainId, (U64, OwnerId)>,
    ownerKeys: map<OwnerId, PublicKey>,
    banned: set<PublicKey>)

  const EMPTY: Ledger := Ledger(map[], map[], map[], map[], {})

  /** What every reachable ledger satisfies. */
  ghost predicate LedgerOk(R: Rules, l: Ledger) {
    && l.domains.Keys !! l.grace.Keys
    && (forall d :: d in l.domains ==> l.domains[d].recordHash != Some(0))
    && (forall o :: o in l.ownerKeys ==> R.ownerOf(l.ownerKeys[o]) == o)
  }

  lemma GraceShrinks(R: Rules, l: Ledger, d: DomainId)
    requires LedgerOk(R, l)
    ensures LedgerOk(R, l.(grace := l.grace - {d}))
  {
  }

  lemma NewDomainOk(R: Rules, l: Ledger, d: DomainId, st: DomainState)
    requires LedgerOk(R, l) && d !in l.grace
    ensures LedgerOk(R, l.(domains := l.domains[d := Stored(st)]))
  {
  }

  // ----- the eligibility pool -----

  ghost predicate Owns(l: Ledger, o: OwnerId) {
    || (exists d :: d in l.domains && l.domains[d].owner == o)
    || (exists t :: t in l.tlds && l.tlds[t].owner == o)
  }

  /** Keys of the owners of live names, minus the banned ones: a scan of the whole ledger. */
  ghost predicate InPool(l: Ledger, key: PublicKey) {
    key !in l.banned && exists o :: o in l.ownerKeys && l.ownerKeys[o] == key && Owns(l, o)
  }

  // ----- transactions -----

  predicate Validate(R: Rules, tx: Transaction) {
    match tx.body
    case Slash(e) => VerifyEvidence(R.crypto, e)
    case RegisterDomain(name, id, _) => tx.owner == R.ownerOf(tx.publicKey) && id == R.domainIdOf(name)
    case RegisterTld(name, id, _) => tx.owner == R.ownerOf(tx.publicKey) && id == R.tldIdOf(name)
    case AssignDomain(name, id, _) => tx.owner == R.ownerOf(tx.publicKey) && id == R.domainIdOf(name)
    case UpdateDomain(_, sequence, _) => sequence != 0 && tx.owner == R.ownerOf(tx.publicKey)
    case _ => tx.owner == R.ownerOf(tx.publicKey)
  }

  /** Not registered, and not in a grace window that belongs to someone else. */
  predicate DomainFree(l: Ledger, d: DomainId, now: U64, claimant: OwnerId) {
    && d !in l.domains
    && (d in l.grace ==> SaturatingAdd(l.grace[d].0, DOMAIN_GRACE_SECS) <= now || claimant == l.grace[d].1)
  }

  datatype UndoEntry =
    | UndoRegisterDomain(domain: DomainId, consumedGrace: Option<(U64, OwnerId)>)
    | UndoUpdateDomain(domain: DomainId, prior: DomainState)
    | UndoRegisterTld(tld: TldId)
    | UndoMutateTld(tld: TldId, priorTld: TldState)
    | UndoRevokeTld(tld: TldId, priorTld: TldState)
    | UndoRenewDomain(domain: DomainId, prior: DomainState)
    | UndoTransferDomain(domain: DomainId, prior: DomainState)
    | UndoExpireDomain(domain: DomainId, prior: DomainState)
    | UndoLearnOwnerKey(owner: OwnerId)
    | UndoBanAnchor(offender: PublicKey)

  /** The ledger after one transaction, what the journal gained, and the rule that failed, if any.
      A failing transaction may leave a learnt owner key behind: only rollback removes it. */
  datatype Outcome = Outcome(ledger: Ledger, journal: seq<UndoEntry>, error: Option<Error>)

  function Fail(l: Ledger, e: Error): Outcome {
    Outcome(l, [], Some(e))
  }

  function LearnKey(l: Ledger, o: OwnerId, key: PublicKey): Ledger {
    if o in l.ownerKeys then l else l.(ownerKeys := l.ownerKeys[o := key])
  }

  function LearnEntry(l: Ledger, o: OwnerId): seq<UndoEntry> {
    if o in l.ownerKeys then [] else [UndoLearnOwnerKey(o)]
  }

  /** A fresh registration starting at `now`, consuming the name's grace entry. */
  function Claim(l: Ledger, d: DomainId, owner: OwnerId, now: U64): Ledger {
    l.(domains := l.domains[d := DomainState(owner, 0, None, now, TermEnd(now))], grace := l.grace - {d})
  }

  function ClaimEntry(l: Ledger, d: DomainId): UndoEntry {
    UndoRegisterDomain(d, if d in l.grace then Some(l.grace[d]) else None)
  }

  function SetDomain(l: Ledger, d: DomainId, st: DomainState): Ledger {
    l.(domains := l.domains[d := Stored(st)])
  }

  ghost function Step(R: Rules, l: Ledger, tx: Transaction, now: U64): Outcome {
    if !Validate(R, tx) then Fail(l, InvalidTransaction)
    else if tx.network != R.networkId then Fail(l, WrongNetwork)
    else
      match tx.body
      case RegisterDomain(name, d, proof) => StepRegisterDomain(R, l, tx, name, d, proof, now)
      case UpdateDomain(d, sequence, rh) => StepUpdateDomain(l, tx, d, sequence, rh)
      case RegisterTld(name, t, proof) => StepRegisterTld(R, l, tx, name, t, proof)
      case TransferTld(t, newOwner) => StepMutateTld(l, tx, t, (st: TldState) => st.(owner := newOwner))
      case RevokeTld(t) =>
        if t !in l.tlds then Fail(l, UnknownTld)
        else if l.tlds[t].owner != tx.owner then Fail(l, NotTldOwner)
        else Outcome(l.(tlds := l.tlds - {t}), [UndoRevokeTld(t, l.tlds[t])], None)
      case SetTldOpen(t, open) => StepMutateTld(l, tx, t, (st: TldState) => st.(open := open))
      case AssignDomain(name, d, assignee) => StepAssignDomain(R, l, tx, name, d, assignee, now)
      case RenewDomain(d, validUntil) => StepRenewDomain(l, tx, d, validUntil, now)
      case TransferDomain(d, newOwner) =>
        if d !in l.domains then Fail(l, UnknownDomain)
        else if l.domains[d].owner != tx.owner then Fail(l, NotOwner)
        else Outcome(SetDomain(l, d, l.domains[d].(owner := newOwner)), [UndoTransferDomain(d, l.domains[d])], None)
      case Slash(e) =>
        if !InPool(l, e.offender) then Fail(l, SlashOffenderNotInPool)
        else Outcome(l.(banned := l.banned + {e.offender}), [UndoBanAnchor(e.offender)], None)
  }

  function StepRegisterDomain(R: Rules, l: Ledger, tx: Transaction, name: Name, d: DomainId, proof: string,
      now: U64): Outcome {
    var t := R.tldIdOf(R.tldOf(name));
    if t !in l.tlds then Fail(l, UnknownTld)
    else if !l.tlds[t].open then Fail(l, TldClosed)
    else if !DomainFree(l, d, now, tx.owner) then Fail(l, DomainAlreadyRegistered)
    else if !R.domainProofOk(name, proof) then Fail(l, InvalidProof)
    else
      Outcome(Claim(LearnKey(l, tx.owner, tx.publicKey), d, tx.owner, now),
          LearnEntry(l, tx.owner) + [ClaimEntry(l, d)], None)
  }

  /** The owner's key is learnt before the sequence check. */
  function StepUpdateDomain(l: Ledger, tx: Transaction, d: DomainId, sequence: U64, rh: Word32): Outcome {
    if d !in l.domains then Fail(l, UnknownDomain)
    else if l.domains[d].owner != tx.owner then Fail(l, NotOwner)
    else
      var learnt, prior := LearnKey(l, tx.owner, tx.publicKey), l.domains[d];
      if prior.sequence == U64_MAX || sequence != prior.sequence + 1 then
        Outcome(learnt, LearnEntry(l, tx.owner), Some(InvalidSequence))
      else
        var next := prior.(sequence := sequence, recordHash := Some(rh));
        Outcome(SetDomain(learnt, d, next), LearnEntry(l, tx.owner) + [UndoUpdateDomain(d, prior)], None)
  }

  function StepRegisterTld(R: Rules, l: Ledger, tx: Transaction, name: Name, t: TldId, proof: string): Outcome {
    if t in l.tlds then Fail(l, TldAlreadyRegistered)
    else if R.isIcannTld(name) then Fail(l, IcannTldReserved)
    else if !R.tldProofOk(name, proof) then Fail(l, InvalidProof)
    else
      var learnt := LearnKey(l, tx.owner, tx.publicKey);
      Outcome(learnt.(tlds := l.tlds[t := TldState(tx.owner, false)]), LearnEntry(l, tx.owner) + [UndoRegisterTld(t)], None)
  }

  function StepMutateTld(l: Ledger, tx: Transaction, t: TldId, change: TldState -> TldState): Outcome {
    if t !in l.tlds then Fail(l, UnknownTld)
    else if l.tlds[t].owner != tx.owner then Fail(l, NotTldOwner)
    else Outcome(l.(tlds := l.tlds[t := change(l.tlds[t])]), [UndoMutateTld(t, l.tlds[t])], None)
  }

  function StepAssignDomain(R: Rules, l: Ledger, tx: Transaction, name: Name, d: DomainId, assignee: OwnerId,
      now: U64): Outcome {
    var t := R.tldIdOf(R.tldOf(name));
    if t !in l.tlds then Fail(l, UnknownTld)
    else if l.tlds[t].owner != tx.owner then Fail(l, NotTldOwner)
    else if !DomainFree(l, d, now, assignee) then Fail(l, DomainAlreadyRegistered)
    else Outcome(Claim(l, d, assignee, now), [ClaimEntry(l, d)], None)
  }

  function StepRenewDomain(l: Ledger, tx: Transaction, d: DomainId, validUntil: U64, now: U64): Outcome {
    if d !in l.domains then Fail(l, UnknownDomain)
    else if l.domains[d].owner != tx.owner then Fail(l, NotOwner)
    else if validUntil <= l.domains[d].validUntil then Fail(l, RenewalNotExtending)
    else if validUntil > SaturatingAdd(now, DOMAIN_MAX_HORIZON_SECS) then Fail(l, RenewalExceedsTerm)
    else Outcome(SetDomain(l, d, l.domains[d].(validUntil := validUntil)), [UndoRenewDomain(d, l.domains[d])], None)
  }

  // ----- expiry -----

  function Expired(l: Ledger, now: U64): set<DomainId> {
    set d | d in l.domains && l.domains[d].validUntil <= now
  }

  /** Moves a set of live names to the grace map. */
  function Lapse(l: Ledger, ds: set<DomainId>): Ledger
    requires ds <= l.domains.Keys
  {
    l.(domains := l.domains - ds,
       grace := l.grace + map d | d in ds :: (l.domains[d].validUntil, l.domains[d].owner))
  }

  function Gc(l: Ledger, now: U64): Ledger {
    Lapse(l, Expired(l, now))
  }

  function ExpireEntries(l: Ledger, order: seq<DomainId>): (r: seq<UndoEntry>)
    requires forall i :: 0 <= i < |order| ==> order[i] in l.domains
    ensures |r| == |order|
  {
    seq(|order|, i requires 0 <= i < |order| => UndoExpireDomain(order[i], l.domains[order[i]]))
  }

  /** The order in which an expiry pass retires names: by expiry, then by id. */
  ghost predicate GcOrder(l: Ledger, order: seq<DomainId>) {
    && (forall i :: 0 <= i < |order| ==> order[i] in l.domains)
    && forall i, j :: 0 <= i < j < |order| ==>
         var (x, y) := (l.domains[order[i]].validUntil, l.domains[order[j]].validUntil);
         x < y || (x == y && order[i] < order[j])
  }

  // ----- rollback -----

  function Undo(l: Ledger, e: UndoEntry): Ledger {
    match e
    case UndoRegisterDomain(d, consumed) =>
      l.(domains := l.domains - {d}, grace := if consumed.Some? then l.grace[d := consumed.value] else l.grace)
    case UndoUpdateDomain(d, prior) => SetDomain(l, d, prior)
    case UndoRegisterTld(t) => l.(tlds := l.tlds - {t})
    case UndoMutateTld(t, prior) => l.(tlds := l.tlds[t := prior])
    case UndoRevokeTld(t, prior) => l.(tlds := l.tlds[t := prior])
    case UndoRenewDomain(d, prior) => SetDomain(l, d, prior)
    case UndoTransferDomain(d, prior) => SetDomain(l, d, prior)
    case UndoExpireDomain(d, prior) => SetDomain(l, d, prior).(grace := l.grace - {d})
    case UndoLearnOwnerKey(o) => l.(ownerKeys := l.ownerKeys - {o})
    case UndoBanAnchor(k) => l.(banned := l.banned - {k})
  }

  /** Most recent entry first. */
  function UndoAll(l: Ledger, journal: seq<UndoEntry>): Ledger
    decreases |journal|
  {
    if journal == [] then l else UndoAll(Undo(l, journal[|journal| - 1]), journal[..|journal| - 1])
  }

  /** The entry fits the ledger it is undone in. */
  ghost predicate CanUndo(l: Ledger, e: UndoEntry) {
    match e
    case UndoRegisterDomain(d, _) => d in l.domains
    case UndoUpdateDomain(d, prior) =>
      d in l.domains && prior.owner == l.domains[d].owner && prior.validUntil == l.domains[d].validUntil &&
          prior == Stored(prior)
    case UndoRegisterTld(t) => t in l.tlds
    case UndoMutateTld(t, _) => t in l.tlds
    case UndoRevokeTld(t, _) => t !in l.tlds
    case UndoRenewDomain(d, prior) => d in l.domains && prior.owner == l.domains[d].owner && prior == Stored(prior)
    case UndoTransferDomain(d, prior) => d in l.domains && prior.validUntil == l.domains[d].validUntil &&
        prior == Stored(prior)
    case UndoExpireDomain(d, prior) => d !in l.domains && d in l.grace && prior == Stored(prior)
    case _ => true
  }

  ghost predicate Undoable(l: Ledger, journal: seq<UndoEntry>)
    decreases |journal|
  {
    journal == [] || (CanUndo(l, journal[|journal| - 1])
        && Undoable(Undo(l, journal[|journal| - 1]), journal[..|journal| - 1]))
  }

  /** The journal takes `after` back to `before`, and every entry fits on the way. */
  ghost predicate Reverts(after: Ledger, journal: seq<UndoEntry>, before: Ledger) {
    Undoable(after, journal) && UndoAll(after, journal) == before
  }

  lemma {:induction false} RevertsCompose(l0: Ledger, a: seq<UndoEntry>, l1: Ledger, b: seq<UndoEntry>, l2: Ledger)
    requires Reverts(l1, a, l0) && Reverts(l2, b, l1)
    ensures Reverts(l2, a + b, l0)
    decreases |b|
  {
    if b == [] {
      assert a + b == a;
    } else {
      var last := b[|b| - 1];
      RevertsCompose(l0, a, l1, b[..|b| - 1], Undo(l2, last));
      assert (a + b)[..|a + b| - 1] == a + b[..|b| - 1];
    }
  }

  lemma UndoNext(l: Ledger, entries: seq<UndoEntry>, i: nat)
    requires i < |entries| && Undoable(l, entries[..i + 1])
    ensures CanUndo(l, entries[i]) && Undoable(Undo(l, entries[i]), entries[..i])
    ensures UndoAll(Undo(l, entries[i]), entries[..i]) == UndoAll(l, entries[..i + 1])
  {
    assert entries[..i + 1][..i] == entries[..i];
  }

  lemma UndoDone(l: Ledger, entries: seq<UndoEntry>)
    requires entries == []
    ensures UndoAll(l, entries) == l
  {
  }

  lemma BanReverts(l: Ledger, key: PublicKey)
    requires key !in l.banned
    ensures Reverts(l.(banned := l.banned + {key}), [UndoBanAnchor(key)], l)
  {
    assert l.banned + {key} - {key} == l.banned;
    RevertsOne(l.(banned := l.banned + {key}), UndoBanAnchor(key), l);
  }

  lemma RevertsOne(after: Ledger, e: UndoEntry, before: Ledger)
    requires CanUndo(after, e) && Undo(after, e) == before
    ensures Reverts(after, [e], before)
  {
    assert [e][..0] == [];
    assert UndoAll(before, []) == before && Undoable(before, []);
  }

  lemma RevertsNone(l: Ledger)
    ensures Reverts(l, [], l)
  {
  }

  lemma LearnReverts(R: Rules, l: Ledger, o: OwnerId, key: PublicKey)
    requires LedgerOk(R, l) && R.ownerOf(key) == o
    ensures Reverts(LearnKey(l, o, key), LearnEntry(l, o), l) && LedgerOk(R, LearnKey(l, o, key))
  {
    if o !in l.ownerKeys {
      var after := LearnKey(l, o, key);
      assert after.ownerKeys - {o} == l.ownerKeys;
      RevertsOne(after, UndoLearnOwnerKey(o), l);
    }
  }

  lemma ClaimReverts(R: Rules, l: Ledger, d: DomainId, owner: OwnerId, now: U64)
    requires LedgerOk(R, l) && d !in l.domains
    ensures Reverts(Claim(l, d, owner, now), [ClaimEntry(l, d)], l) && LedgerOk(R, Claim(l, d, owner, now))
  {
    var after := Claim(l, d, owner, now);
    assert after.domains - {d} == l.domains;
    if d in l.grace {
      assert (l.grace - {d})[d := l.grace[d]] == l.grace;
    } else {
      assert l.grace - {d} == l.grace;
    }
    RevertsOne(after, ClaimEntry(l, d), l);
  }

  lemma ReplaceReverts(R: Rules, l: Ledger, d: DomainId, next: DomainState, e: UndoEntry)
    requires LedgerOk(R, l) && d in l.domains
    requires e == UndoUpdateDomain(d, l.domains[d]) || e == UndoRenewDomain(d, l.domains[d]) ||
        e == UndoTransferDomain(d, l.domains[d])
    requires e.UndoUpdateDomain? || e.UndoRenewDomain? ==> next.owner == l.domains[d].owner
    requires e.UndoUpdateDomain? || e.UndoTransferDomain? ==> next.validUntil == l.domains[d].validUntil
    ensures Reverts(SetDomain(l, d, next), [e], l) && LedgerOk(R, SetDomain(l, d, next))
  {
    var after := SetDomain(l, d, next);
    assert after.domains[d := l.domains[d]] == l.domains;
    RevertsOne(after, e, l);
  }

  lemma TldReverts(l: Ledger, t: TldId, tlds: map<TldId, TldState>, e: UndoEntry)
    requires tlds - {t} == l.tlds - {t}
    requires t in l.tlds && t in tlds ==> e == UndoMutateTld(t, l.tlds[t])
    requires t in l.tlds && t !in tlds ==> e == UndoRevokeTld(t, l.tlds[t])
    requires t !in l.tlds ==> t in tlds && e == UndoRegisterTld(t)
    ensures Reverts(l.(tlds := tlds), [e], l)
  {
    var after := l.(tlds := tlds);
    if t in l.tlds {
      forall x ensures x in tlds[t := l.tlds[t]] <==> x in l.tlds {
        assert x in tlds - {t} <==> x in l.tlds - {t};
      }
      forall x | x in l.tlds ensures tlds[t := l.tlds[t]][x] == l.tlds[x] {
        if x != t { assert x in l.tlds - {t}; assert (tlds - {t})[x] == (l.tlds - {t})[x]; }
      }
      assert tlds[t := l.tlds[t]] == l.tlds;
    } else {
      assert l.tlds - {t} == l.tlds;
    }
    RevertsOne(after, e, l);
  }

  predicate OnTld(body: Body) {
    body.RegisterTld? || body.TransferTld? || body.RevokeTld? || body.SetTldOpen?
  }

  lemma TldStepReverts(R: Rules, l: Ledger, tx: Transaction, now: U64)
    requires LedgerOk(R, l) && OnTld(tx.body)
    ensures var o := Step(R, l, tx, now); Reverts(o.ledger, o.journal, l) && LedgerOk(R, o.ledger)
  {
    hide Reverts, CanUndo;
    RevertsNone(l);
    var o := Step(R, l, tx, now);
    if Validate(R, tx) && tx.network == R.networkId && o.journal != [] {
      match tx.body
      case RegisterTld(_, t, _) =>
        var learnt := LearnKey(l, tx.owner, tx.publicKey);
        LearnReverts(R, l, tx.owner, tx.publicKey);
        assert o.ledger.tlds - {t} == learnt.tlds - {t};
        TldReverts(learnt, t, o.ledger.tlds, UndoRegisterTld(t));
        RevertsCompose(l, LearnEntry(l, tx.owner), learnt, [UndoRegisterTld(t)], o.ledger);
      case TransferTld(t, _) =>
        assert o.ledger.tlds - {t} == l.tlds - {t};
        TldReverts(l, t, o.ledger.tlds, o.journal[0]);
      case RevokeTld(t) =>
        assert o.ledger.tlds - {t} == l.tlds - {t};
        TldReverts(l, t, o.ledger.tlds, o.journal[0]);
      case SetTldOpen(t, _) =>
        assert o.ledger.tlds - {t} == l.tlds - {t};
        TldReverts(l, t, o.ledger.tlds, o.journal[0]);
    }
  }

  /** One transaction, accepted or refused, is taken back exactly by what it journaled. */
  lemma StepReverts(R: Rules, l: Ledger, tx: Transaction, now: U64)
    requires LedgerOk(R, l)
    ensures var o := Step(R, l, tx, now); Reverts(o.ledger, o.journal, l) && LedgerOk(R, o.ledger)
  {
    hide Reverts, CanUndo;
    RevertsNone(l);
    var o := Step(R, l, tx, now);
    if Validate(R, tx) && tx.network == R.networkId && o.journal != [] {
      match tx.body
      case RegisterDomain(_, d, _) =>
        var learnt := LearnKey(l, tx.owner, tx.publicKey);
        LearnReverts(R, l, tx.owner, tx.publicKey);
        ClaimReverts(R, learnt, d, tx.owner, now);
        RevertsCompose(l, LearnEntry(l, tx.owner), learnt, [ClaimEntry(l, d)], o.ledger);
      case UpdateDomain(d, sequence, rh) =>
        var learnt := LearnKey(l, tx.owner, tx.publicKey);
        LearnReverts(R, l, tx.owner, tx.publicKey);
        if o.error == None {
          var next := l.domains[d].(sequence := sequence, recordHash := Some(rh));
          var e := UndoUpdateDomain(d, l.domains[d]);
          ReplaceReverts(R, learnt, d, next, e);
          RevertsCompose(l, LearnEntry(l, tx.owner), learnt, [e], o.ledger);
        }
      case RegisterTld(_, _, _) => TldStepReverts(R, l, tx, now);
      case TransferTld(_, _) => TldStepReverts(R, l, tx, now);
      case RevokeTld(_) => TldStepReverts(R, l, tx, now);
      case SetTldOpen(_, _) => TldStepReverts(R, l, tx, now);
      case AssignDomain(_, d, assignee) =>
        ClaimReverts(R, l, d, assignee, now);
      case RenewDomain(d, validUntil) =>
        ReplaceReverts(R, l, d, l.domains[d].(validUntil := validUntil), o.journal[0]);
      case TransferDomain(d, newOwner) =>
        ReplaceReverts(R, l, d, l.domains[d].(owner := newOwner), o.journal[0]);
      case Slash(e) =>
        BanReverts(l, e.offender);
    }
  }

  // ----- what a refusal leaves behind -----

  /** The guard of the branch that learns a key before it refuses. */
  predicate LearnsFirst(R: Rules, l: Ledger, tx: Transaction) {
    && Validate(R, tx) && tx.network == R.networkId
    && tx.body.UpdateDomain? && tx.body.updateId in l.domains
    && l.domains[tx.body.updateId].owner == tx.owner && tx.owner !in l.ownerKeys
  }

  /** A refusal leaves no trace, in the ledger or in the journal, unless it is the refused update of an owner
      whose key was not known yet. That one leaves exactly the key, and journals exactly that. */
  lemma RefusalTrace(R: Rules, l: Ledger, tx: Transaction, now: U64)
    requires Step(R, l, tx, now).error.Some?
    ensures var o := Step(R, l, tx, now);
            && (o.ledger == l <==> !LearnsFirst(R, l, tx))
            && (o.journal == [] <==> !LearnsFirst(R, l, tx))
            && (LearnsFirst(R, l, tx) ==>
                  && o.error == Some(InvalidSequence)
                  && o.ledger == l.(ownerKeys := l.ownerKeys[tx.owner := tx.publicKey])
                  && o.journal == [UndoLearnOwnerKey(tx.owner)])
  {
    hide InPool, VerifyEvidence, DomainFree;
    if LearnsFirst(R, l, tx) {
      assert tx.owner in Step(R, l, tx, now).ledger.ownerKeys;
    }
  }

  /** An owner that never signed for this ledger updates its name with a sequence that is not the next one:
      the update is refused, and the ledger has changed. */
  lemma RefusalMayLeaveAKey(R: Rules, now: U64)
    requires R.ownerOf(7) == 7
    ensures var l := EMPTY.(domains := map[1 := DomainState(7, 0, None, 0, DOMAIN_TERM_SECS)]);
            var tx := Tx(R.networkId, 7, 7, 0, UpdateDomain(1, 5, 9));
            var o := Step(R, l, tx, now);
            o.error == Some(InvalidSequence) && o.ledger != l && o.ledger.ownerKeys == map[7 := 7]
  {
    var l := EMPTY.(domains := map[1 := DomainState(7, 0, None, 0, DOMAIN_TERM_SECS)]);
    var tx := Tx(R.networkId, 7, 7, 0, UpdateDomain(1, 5, 9));
    var o := Step(R, l, tx, now);
    assert 7 in o.ledger.ownerKeys && 7 !in l.ownerKeys;
  }

  ghost function Elems(order: seq<DomainId>): set<DomainId> {
    set i | 0 <= i < |order| :: order[i]
  }

  lemma LapseOneMore(R: Rules, l: Ledger, ds: set<DomainId>, d: DomainId)
    requires LedgerOk(R, l) && ds <= l.domains.Keys && d in l.domains && d !in ds
    ensures Reverts(Lapse(l, ds + {d}), [UndoExpireDomain(d, l.domains[d])], Lapse(l, ds))
    ensures LedgerOk(R, Lapse(l, ds + {d}))
  {
    LapseNext(l, ds, d);
    var before, after, e := Lapse(l, ds), Lapse(l, ds + {d}), UndoExpireDomain(d, l.domains[d]);
    assert d in before.domains && before.domains[d] == l.domains[d];
    assert d !in before.grace;
    hide Reverts, Lapse;
    assert after.domains[d := l.domains[d]] == before.domains;
    assert after.grace - {d} == before.grace;
    RevertsOne(after, e, before);
  }

  lemma LapseNext(l: Ledger, ds: set<DomainId>, d: DomainId)
    requires ds <= l.domains.Keys && d in l.domains && d !in ds
    ensures var before := Lapse(l, ds);
            Lapse(l, ds + {d}) == before.(domains := before.domains - {d},
                                          grace := before.grace[d := (l.domains[d].validUntil, l.domains[d].owner)])
  {
    var before, after := Lapse(l, ds), Lapse(l, ds + {d});
    assert after.domains == before.domains - {d};
    assert after.grace == before.grace[d := (l.domains[d].validUntil, l.domains[d].owner)];
  }

  lemma ElemsSplit(order: seq<DomainId>)
    requires order != []
    ensures Elems(order) == Elems(order[..|order| - 1]) + {order[|order| - 1]}
  {
    var front, d := order[..|order| - 1], order[|order| - 1];
    assert order == front + [d];
  }

  lemma SplitOrder(l: Ledger, order: seq<DomainId>)
    requires GcOrder(l, order) && order != []
    ensures var (front, d) := (order[..|order| - 1], order[|order| - 1]);
            && GcOrder(l, front) && d !in Elems(front) && Elems(order) == Elems(front) + {d}
            && ExpireEntries(l, order) == ExpireEntries(l, front) + [UndoExpireDomain(d, l.domains[d])]
  {
    ElemsSplit(order);
  }

  /** Names retired one after the other come back in reverse. */
  lemma {:induction false} LapseReverts(R: Rules, l: Ledger, order: seq<DomainId>)
    requires LedgerOk(R, l) && GcOrder(l, order)
    ensures Elems(order) <= l.domains.Keys
    ensures Reverts(Lapse(l, Elems(order)), ExpireEntries(l, order), l) && LedgerOk(R, Lapse(l, Elems(order)))
    decreases |order|
  {
    if order == [] {
      assert l.domains - {} == l.domains;
      assert Lapse(l, {}) == l;
      RevertsNone(l);
    } else {
      var front, d := order[..|order| - 1], order[|order| - 1];
      SplitOrder(l, order);
      LapseReverts(R, l, front);
      LapseOneMore(R, l, Elems(front), d);
      hide LedgerOk, Reverts, Lapse, GcOrder, Elems;
      RevertsCompose(l, ExpireEntries(l, front), Lapse(l, Elems(front)), [UndoExpireDomain(d, l.domains[d])],
          Lapse(l, Elems(order)));
    }
  }

  // ----- a block's worth of work -----

  /** Transactions in order into one journal, stopping at the first failure; signatures are checked on the way. */
  ghost function StepAll(R: Rules, l: Ledger, txs: seq<Transaction>, now: U64): Outcome
    decreases |txs|
  {
    if txs == [] then Outcome(l, [], None)
    else if !R.signatureOk(txs[0]) then Fail(l, InvalidSignature)
    else
      var o := Step(R, l, txs[0], now);
      if o.error.Some? then o
      else
        var rest := StepAll(R, o.ledger, txs[1..], now);
        Outcome(rest.ledger, o.journal + rest.journal, rest.error)
  }

  lemma {:induction false} StepAllReverts(R: Rules, l: Ledger, txs: seq<Transaction>, now: U64)
    requires LedgerOk(R, l)
    ensures var o := StepAll(R, l, txs, now); Reverts(o.ledger, o.journal, l) && LedgerOk(R, o.ledger)
    decreases |txs|
  {
    if txs == [] || !R.signatureOk(txs[0]) {
      RevertsNone(l);
    } else {
      StepReverts(R, l, txs[0], now);
      var o := Step(R, l, txs[0], now);
      if o.error == None {
        StepAllReverts(R, o.ledger, txs[1..], now);
        var rest := StepAll(R, o.ledger, txs[1..], now);
        RevertsCompose(l, o.journal, o.ledger, rest.journal, rest.ledger);
      }
    }
  }

  /** Expiry and then any list of transactions, wherever it stops, is undone exactly. */
  lemma RollbackIsExact(R: Rules, l: Ledger, now: U64, order: seq<DomainId>, txs: seq<Transaction>)
    requires LedgerOk(R, l) && GcOrder(l, order) && Elems(order) == Expired(l, now)
    ensures var o := StepAll(R, Gc(l, now), txs, now);
            Reverts(o.ledger, ExpireEntries(l, order) + o.journal, l) && LedgerOk(R, o.ledger)
  {
    LapseReverts(R, l, order);
    StepAllReverts(R, Gc(l, now), txs, now);
    var o := StepAll(R, Gc(l, now), txs, now);
    RevertsCompose(l, ExpireEntries(l, order), Gc(l, now), o.journal, o.ledger);
  }
}
