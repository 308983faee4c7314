/** What happens to a name over a whole history of expiry passes and transactions. */
module Lifecycle {
  import opened Prelude
  import opened Checkpoints
  import opened Ledger

  /** One thing the chain does to the ledger, at a parent block time. */
  datatype Event = GcAt(now: U64) | TxAt(tx: Transaction, now: U64)

  /** A refused transaction leaves no trace here, because its block is rolled back; what it would leave
      without the rollback is Ledger.RefusalTrace. */
  ghost function After(R: Rules, l: Ledger, e: Event): Ledger {
    match e
    case GcAt(now) => Gc(l, now)
    case TxAt(tx, now) => var o := Step(R, l, tx, now); if o.error == None then o.ledger else l
  }

  /** The ledger after the first i events of a history that starts empty. */
  ghost function State(R: Rules, events: seq<Event>, i: nat): Ledger
    requires i <= |events|
  {
    if i == 0 then EMPTY else After(R, State(R, events, i - 1), events[i - 1])
  }

  lemma {:induction false} StateOk(R: Rules, events: seq<Event>, i: nat)
    requires i <= |events|
    ensures LedgerOk(R, State(R, events, i))
  {
    if i > 0 {
      StateOk(R, events, i - 1);
      match events[i - 1]
      case GcAt(now) =>
      case TxAt(tx, now) => StepReverts(R, State(R, events, i - 1), tx, now);
    }
  }

  /** tx is accepted here and is an update of d. */
  ghost predicate Updates(R: Rules, l: Ledger, e: Event, d: DomainId) {
    e.TxAt? && e.tx.body.UpdateDomain? && e.tx.body.updateId == d && Step(R, l, e.tx, e.now).error == None
  }

  /** The three transactions that change a live name. */
  predicate Touches(tx: Transaction, d: DomainId) {
    match tx.body
    case UpdateDomain(x, _, _) => x == d
    case RenewDomain(x, _) => x == d
    case TransferDomain(x, _) => x == d
    case _ => false
  }

  lemma UntouchedByTx(R: Rules, l: Ledger, tx: Transaction, now: U64, d: DomainId)
    requires d in l.domains && !Touches(tx, d)
    ensures var m := Step(R, l, tx, now).ledger; d in m.domains && m.domains[d] == l.domains[d]
  {
    hide InPool, Validate, LedgerOk;
  }

  lemma TouchedByTx(R: Rules, l: Ledger, tx: Transaction, now: U64, d: DomainId)
    requires LedgerOk(R, l) && d in l.domains && Touches(tx, d)
    ensures var o := Step(R, l, tx, now);
            && d in o.ledger.domains
            && var (a, b) := (l.domains[d], o.ledger.domains[d]);
               && (b != a ==> o.error == None && tx.owner == a.owner)
               && (o.error == None ==> tx.owner == a.owner == R.ownerOf(tx.publicKey))
               && (o.error == None ==>
                     match tx.body
                     case UpdateDomain(_, sequence, rh) => sequence == a.sequence + 1 &&
                         b == Stored(a.(sequence := sequence, recordHash := Some(rh)))
                     case RenewDomain(_, until) => a.validUntil < until <= now + DOMAIN_MAX_HORIZON_SECS &&
                         b == a.(validUntil := until)
                     case TransferDomain(_, owner) => b == a.(owner := owner)
                     case _ => true)
  {
    hide InPool, VerifyEvidence;
  }

  /** While a name stays live: its owner changes only by the owner's own transfer, its sequence and records
      only by the owner's update, one step at a time, and its expiry only forward, within the horizon. */
  lemma LiveStep(R: Rules, l: Ledger, e: Event, d: DomainId)
    requires LedgerOk(R, l) && d in l.domains && d in After(R, l, e).domains
    ensures var (a, b) := (l.domains[d], After(R, l, e).domains[d]);
            && (b.owner != a.owner ==>
                  e.TxAt? && e.tx.body == TransferDomain(d, b.owner) && e.tx.owner == a.owner == R.ownerOf(e.tx.publicKey))
            && b.sequence == a.sequence + (if Updates(R, l, e, d) then 1 else 0)
            && (b.recordHash != a.recordHash ==> Updates(R, l, e, d))
            && (Updates(R, l, e, d) ==>
                  && e.tx.owner == a.owner == R.ownerOf(e.tx.publicKey)
                  && e.tx.body.sequence == b.sequence)
            && a.validUntil <= b.validUntil
            && (b.validUntil != a.validUntil ==> b.validUntil <= e.now + DOMAIN_MAX_HORIZON_SECS)
            && b.registeredAt == a.registeredAt
  {
    hide Step, LedgerOk;
    if e.TxAt? {
      if Touches(e.tx, d) { TouchedByTx(R, l, e.tx, e.now, d); } else { UntouchedByTx(R, l, e.tx, e.now, d); }
    }
  }

  /** A live name disappears only by expiry, and its grace entry remembers its last expiry and owner. */
  lemma LapseStep(R: Rules, l: Ledger, e: Event, d: DomainId)
    requires d in l.domains && d !in After(R, l, e).domains
    ensures e.GcAt? && l.domains[d].validUntil <= e.now
    ensures var g := After(R, l, e).grace; d in g && g[d] == (l.domains[d].validUntil, l.domains[d].owner)
  {
  }

  /** A lapsed name keeps its grace entry until it is registered again. */
  lemma DormantStep(R: Rules, l: Ledger, e: Event, d: DomainId)
    requires d !in l.domains && d !in After(R, l, e).domains && d in l.grace
    ensures d in After(R, l, e).grace && After(R, l, e).grace[d] == l.grace[d]
  {
  }

  /** Who may bring a name to life: its future owner under an open namespace with a valid proof, or the
      owner of the namespace for anyone. */
  ghost predicate MayClaim(R: Rules, l: Ledger, tx: Transaction, d: DomainId, owner: OwnerId) {
    match tx.body
    case RegisterDomain(name, x, proof) =>
      var t := R.tldIdOf(R.tldOf(name));
      && x == d == R.domainIdOf(name) && owner == tx.owner == R.ownerOf(tx.publicKey)
      && t in l.tlds && l.tlds[t].open && R.domainProofOk(name, proof)
    case AssignDomain(name, x, assignee) =>
      var t := R.tldIdOf(R.tldOf(name));
      && x == d == R.domainIdOf(name) && owner == assignee
      && t in l.tlds && l.tlds[t].owner == tx.owner == R.ownerOf(tx.publicKey)
    case _ => false
  }

  lemma OnlyClaimsBringNames(R: Rules, l: Ledger, e: Event, d: DomainId)
    requires d !in l.domains && d in After(R, l, e).domains
    ensures e.TxAt? && Step(R, l, e.tx, e.now).error == None
    ensures if e.tx.body.RegisterDomain? then e.tx.body.domainId == d else e.tx.body.AssignDomain? && e.tx.body.assignId == d
  {
    hide InPool, Validate, DomainFree, TermEnd, SaturatingAdd, Stored, LearnEntry, ClaimEntry;
  }

  /** A name becomes live only by such a claim, for one term from now, at sequence 0, and past anyone else's grace. */
  lemma ClaimStep(R: Rules, l: Ledger, e: Event, d: DomainId)
    requires d !in l.domains && d in After(R, l, e).domains
    ensures e.TxAt?
    ensures var st := After(R, l, e).domains[d];
            && st == DomainState(st.owner, 0, None, e.now, TermEnd(e.now))
            && MayClaim(R, l, e.tx, d, st.owner)
            && (d in l.grace && st.owner != l.grace[d].1 ==> SaturatingAdd(l.grace[d].0, DOMAIN_GRACE_SECS) <= e.now)
  {
    hide InPool, VerifyEvidence, TermEnd, SaturatingAdd;
    OnlyClaimsBringNames(R, l, e, d);
  }

  /** Near the end of the clock's range the term wraps round: a new registration outlives the expiry pass of its
      own block time exactly when one term still fits. */
  lemma FreshNameOutlives(R: Rules, l: Ledger, e: Event, d: DomainId)
    requires d !in l.domains && d in After(R, l, e).domains
    ensures d in Gc(After(R, l, e), e.now).domains <==> e.now <= U64_MAX - DOMAIN_TERM_SECS
  {
    hide After;
    ClaimStep(R, l, e, d);
  }

  /** The rules refuse a live name's owner nothing but a wrong sequence or an expiry that does not extend or goes too far. */
  lemma OwnerKeepsControl(R: Rules, l: Ledger, tx: Transaction, now: U64, d: DomainId)
    requires Validate(R, tx) && tx.network == R.networkId && Touches(tx, d)
    requires d in l.domains && tx.owner == l.domains[d].owner
    ensures Step(R, l, tx, now).error == None <==>
              match tx.body
              case UpdateDomain(_, sequence, _) => sequence == l.domains[d].sequence + 1
              case RenewDomain(_, until) => l.domains[d].validUntil < until <= now + DOMAIN_MAX_HORIZON_SECS
              case _ => true
  {
    hide InPool, VerifyEvidence, Validate;
  }

  /** A well-formed registration is accepted exactly under an open namespace, with a valid proof, for a name that
      is not live and whose grace window is over or belongs to the claimant. */
  lemma RegistrationAccepted(R: Rules, l: Ledger, tx: Transaction, now: U64)
    requires Validate(R, tx) && tx.network == R.networkId && tx.body.RegisterDomain?
    ensures Step(R, l, tx, now).error == None <==>
              var (d, t) := (tx.body.domainId, R.tldIdOf(R.tldOf(tx.body.name)));
              && t in l.tlds && l.tlds[t].open && R.domainProofOk(tx.body.name, tx.body.proof)
              && d !in l.domains
              && (d in l.grace ==> tx.owner == l.grace[d].1 || SaturatingAdd(l.grace[d].0, DOMAIN_GRACE_SECS) <= now)
  {
    hide InPool, VerifyEvidence, Validate;
  }

  lemma TldsUntouched(R: Rules, l: Ledger, tx: Transaction, now: U64)
    requires !OnTld(tx.body)
    ensures Step(R, l, tx, now).ledger.tlds == l.tlds
  {
    hide InPool, VerifyEvidence, DomainFree, Validate;
  }

  /** A namespace is claimed closed, by its owner, off the reserved list; changes hands or opens only by its
      owner's transaction; and is given up only by its owner. Expiry never touches it. */
  lemma TldStep(R: Rules, l: Ledger, e: Event, t: TldId)
    ensures var m := After(R, l, e).tlds;
            && (t in m && (t !in l.tlds || m[t] != l.tlds[t]) ==> e.TxAt? && e.tx.owner == R.ownerOf(e.tx.publicKey))
            && (t !in l.tlds && t in m ==>
                  && e.tx.body.RegisterTld? && t == e.tx.body.newTldId == R.tldIdOf(e.tx.body.tldName)
                  && !R.isIcannTld(e.tx.body.tldName) && R.tldProofOk(e.tx.body.tldName, e.tx.body.tldProof)
                  && m[t] == TldState(e.tx.owner, false))
            && (t in l.tlds && t in m && m[t] != l.tlds[t] ==>
                  && e.tx.owner == l.tlds[t].owner
                  && (e.tx.body == TransferTld(t, m[t].owner) || e.tx.body == SetTldOpen(t, m[t].open))
                  && (m[t].owner == l.tlds[t].owner || m[t].open == l.tlds[t].open))
            && (t in l.tlds && t !in m ==>
                  && e.TxAt? && e.tx.body == RevokeTld(t)
                  && e.tx.owner == l.tlds[t].owner == R.ownerOf(e.tx.publicKey))
  {
    hide InPool, VerifyEvidence, DomainFree, StepRegisterDomain, StepUpdateDomain, StepAssignDomain, StepRenewDomain, Expired;
    if e.TxAt? && !OnTld(e.tx.body) { TldsUntouched(R, l, e.tx, e.now); }
  }

  ghost predicate Live(R: Rules, events: seq<Event>, i: nat, d: DomainId)
    requires i <= |events|
  {
    d in State(R, events, i).domains
  }

  lemma {:induction false} DormantGrace(R: Rules, events: seq<Event>, i: nat, j: nat, d: DomainId)
    requires i < j <= |events| && Live(R, events, i, d)
    requires forall k :: i < k <= j ==> !Live(R, events, k, d)
    ensures var (st, g) := (State(R, events, i).domains[d], State(R, events, j).grace);
            d in g && g[d] == (st.validUntil, st.owner)
  {
    if j == i + 1 {
      LapseStep(R, State(R, events, i), events[i], d);
    } else {
      assert !Live(R, events, j - 1, d) && !Live(R, events, j, d);
      DormantGrace(R, events, i, j - 1, d);
      DormantStep(R, State(R, events, j - 1), events[j - 1], d);
    }
  }

  /** A name that lapsed goes to someone other than its last owner only when 30 days have passed since its expiry. */
  lemma GraceProtectsLastOwner(R: Rules, events: seq<Event>, i: nat, j: nat, d: DomainId)
    requires i + 1 < j <= |events| && Live(R, events, i, d) && Live(R, events, j, d)
    requires forall k :: i < k < j ==> !Live(R, events, k, d)
    requires State(R, events, j).domains[d].owner != State(R, events, i).domains[d].owner
    ensures SaturatingAdd(State(R, events, i).domains[d].validUntil, DOMAIN_GRACE_SECS) <= events[j - 1].now
  {
    hide After, Step, Gc;
    assert !Live(R, events, j - 1, d);
    DormantGrace(R, events, i, j - 1, d);
    ClaimStep(R, State(R, events, j - 1), events[j - 1], d);
  }

  /** A name that was never live has no grace entry. */
  lemma {:induction false} NeverLive(R: Rules, events: seq<Event>, i: nat, d: DomainId)
    requires i <= |events| && forall k :: 0 <= k <= i ==> !Live(R, events, k, d)
    ensures d !in State(R, events, i).grace
  {
    if i > 0 {
      NeverLive(R, events, i - 1, d);
      assert !Live(R, events, i - 1, d) && !Live(R, events, i, d);
      NoNewGrace(R, State(R, events, i - 1), events[i - 1], d);
    }
  }

  lemma NoNewGrace(R: Rules, l: Ledger, e: Event, d: DomainId)
    requires d !in l.domains && d !in l.grace && d !in After(R, l, e).domains
    ensures d !in After(R, l, e).grace
  {
    hide InPool, VerifyEvidence, DomainFree;
  }

  /** k is the last time at or before i at which the name was live. */
  ghost predicate LastLive(R: Rules, events: seq<Event>, k: nat, i: nat, d: DomainId)
    requires k <= i <= |events|
  {
    Live(R, events, k, d) && forall j :: k < j <= i ==> !Live(R, events, j, d)
  }

  /** What the free check decides, over every run: a name is free for a claimant exactly when it was never
      live, or it is not live now and the claimant was its last owner or thirty days have passed since its
      last expiry. */
  lemma FreeOverRuns(R: Rules, events: seq<Event>, i: nat, d: DomainId, now: U64, claimant: OwnerId)
    requires i <= |events|
    ensures DomainFree(State(R, events, i), d, now, claimant) <==>
              || (forall k :: 0 <= k <= i ==> !Live(R, events, k, d))
              || exists k :: 0 <= k < i && LastLive(R, events, k, i, d) &&
                   var st := State(R, events, k).domains[d];
                   claimant == st.owner || SaturatingAdd(st.validUntil, DOMAIN_GRACE_SECS) <= now
  {
    hide State, Live;
    if forall k :: 0 <= k <= i ==> !Live(R, events, k, d) {
      NeverLive(R, events, i, d);
      NotLive(R, events, i, d);
    } else {
      var some :| 0 <= some <= i && Live(R, events, some, d);
      var last := LastLiveExists(R, events, some, i, d);
      IsLive(R, events, last, d);
      if last == i {
        forall k | 0 <= k < i ensures !LastLive(R, events, k, i, d) { assert Live(R, events, i, d); }
      } else {
        DormantGrace(R, events, last, i, d);
        assert !Live(R, events, i, d);
        NotLive(R, events, i, d);
        forall k | 0 <= k < i && LastLive(R, events, k, i, d) ensures k == last {}
      }
    }
  }

  lemma IsLive(R: Rules, events: seq<Event>, i: nat, d: DomainId)
    requires i <= |events| && Live(R, events, i, d)
    ensures d in State(R, events, i).domains
  {
  }

  lemma NotLive(R: Rules, events: seq<Event>, i: nat, d: DomainId)
    requires i <= |events| && !Live(R, events, i, d)
    ensures d !in State(R, events, i).domains
  {
  }

  lemma {:induction false} LastLiveExists(R: Rules, events: seq<Event>, some: nat, i: nat, d: DomainId) returns (last: nat)
    requires some <= i <= |events| && Live(R, events, some, d)
    ensures some <= last <= i && LastLive(R, events, last, i, d)
    decreases i - some
  {
    if j :| some < j <= i && Live(R, events, j, d) {
      last := LastLiveExists(R, events, j, i, d);
    } else {
      last := some;
    }
  }

  ghost predicate IsDomainId(R: Rules, d: DomainId) {
    exists n :: R.domainIdOf(n) == d
  }

  ghost predicate IsTldId(R: Rules, t: TldId) {
    exists n :: R.tldIdOf(n) == t
  }

  /** In every run each name is filed under an id derived from a name and each namespace under one derived from
      a namespace; so where the two derivations never agree, no id names both. */
  lemma {:induction false} IdsStayDisjoint(R: Rules, events: seq<Event>, i: nat)
    requires i <= |events|
    ensures forall d :: d in State(R, events, i).domains ==> IsDomainId(R, d)
    ensures forall t :: t in State(R, events, i).tlds ==> IsTldId(R, t)
    ensures (forall n, m :: R.domainIdOf(n) != R.tldIdOf(m)) ==>
              State(R, events, i).domains.Keys !! State(R, events, i).tlds.Keys
  {
    hide After;
    if i > 0 {
      IdsStayDisjoint(R, events, i - 1);
      var l, e := State(R, events, i - 1), events[i - 1];
      forall d | d in After(R, l, e).domains ensures IsDomainId(R, d) {
        if d !in l.domains { ClaimStep(R, l, e, d); }
      }
      forall t | t in After(R, l, e).tlds ensures IsTldId(R, t) {
        TldStep(R, l, e, t);
      }
    }
  }

  ghost function UpdateCount(R: Rules, events: seq<Event>, i: nat, j: nat, d: DomainId): nat
    requires i <= j <= |events|
  {
    if i == j then 0
    else UpdateCount(R, events, i, j - 1, d) + if Updates(R, State(R, events, j - 1), events[j - 1], d) then 1 else 0
  }

  /** Over any stretch of uninterrupted registration the sequence counts the accepted updates. */
  lemma {:induction false} SequenceCountsUpdates(R: Rules, events: seq<Event>, i: nat, j: nat, d: DomainId)
    requires i <= j <= |events| && forall k :: i <= k <= j ==> Live(R, events, k, d)
    ensures Live(R, events, i, d) && Live(R, events, j, d)
    ensures State(R, events, j).domains[d].sequence ==
        State(R, events, i).domains[d].sequence + UpdateCount(R, events, i, j, d)
  {
    hide After, Step, Updates, LedgerOk;
    assert Live(R, events, i, d) && Live(R, events, j, d);
    if i < j {
      assert Live(R, events, j - 1, d);
      SequenceCountsUpdates(R, events, i, j - 1, d);
      StateOk(R, events, j - 1);
      LiveStep(R, State(R, events, j - 1), events[j - 1], d);
    }
  }

  ghost function LatestTime(events: seq<Event>, i: nat): nat
    requires i <= |events|
  {
    if i == 0 then 0 else Max(LatestTime(events, i - 1), events[i - 1].now)
  }

  /** No live name is ever registered further than three years past the latest time used so far. */
  lemma {:induction false} ExpiryHorizon(R: Rules, events: seq<Event>, i: nat, d: DomainId)
    requires i <= |events| && Live(R, events, i, d)
    ensures State(R, events, i).domains[d].validUntil <= LatestTime(events, i) + DOMAIN_MAX_HORIZON_SECS
  {
    if i > 0 {
      var l := State(R, events, i - 1);
      if d in l.domains {
        ExpiryHorizon(R, events, i - 1, d);
        StateOk(R, events, i - 1);
        LiveStep(R, l, events[i - 1], d);
      } else {
        ClaimStep(R, l, events[i - 1], d);
      }
    }
  }

  ghost predicate OwnsUnexpired(l: Ledger, o: OwnerId, now: U64) {
    || (exists d :: d in l.domains && now < l.domains[d].validUntil && l.domains[d].owner == o)
    || (exists t :: t in l.tlds && l.tlds[t].owner == o)
  }

  /** Right after an expiry pass at `now` every live name outlasts it, and the pool is exactly the
      known unbanned keys of owners of such names and of namespaces. */
  lemma PoolAfterExpiry(R: Rules, l: Ledger, now: U64, key: PublicKey)
    ensures var g := Gc(l, now);
            && (forall d :: d in g.domains <==> d in l.domains && now < l.domains[d].validUntil)
            && (InPool(g, key) <==>
                  key !in l.banned &&
                  exists o :: (o in l.ownerKeys && l.ownerKeys[o] == key && OwnsUnexpired(l, o, now)))
  {
    var g := Gc(l, now);
    forall d ensures d in g.domains <==> d in l.domains && now < l.domains[d].validUntil {}
    forall o: OwnerId ensures Owns(g, o) <==> OwnsUnexpired(l, o, now) {
      if d :| d in l.domains && now < l.domains[d].validUntil && l.domains[d].owner == o {
        assert d in g.domains && g.domains[d].owner == o;
      }
      if d :| d in g.domains && g.domains[d].owner == o {
        assert d in l.domains && l.domains[d].owner == o;
      }
    }
  }

  /** A key is banned only by evidence that verifies against it while it is in the pool, and never unbanned. */
  lemma BanStep(R: Rules, l: Ledger, e: Event, key: PublicKey)
    ensures key in l.banned ==> key in After(R, l, e).banned
    ensures key !in l.banned && key in After(R, l, e).banned ==>
              && e.TxAt? && e.tx.body.Slash? && e.tx.body.evidence.offender == key
              && VerifyEvidence(R.crypto, e.tx.body.evidence) && InPool(l, key)
  {
    hide InPool, VerifyEvidence, DomainFree;
  }

  /** A ban is for life: no later event brings the key back into the pool. */
  lemma {:induction false} BanIsForLife(R: Rules, events: seq<Event>, i: nat, j: nat, key: PublicKey)
    requires i <= j <= |events| && key in State(R, events, i).banned
    ensures key in State(R, events, j).banned && !InPool(State(R, events, j), key)
  {
    if i < j {
      BanIsForLife(R, events, i, j - 1, key);
      BanStep(R, State(R, events, j - 1), events[j - 1], key);
    }
  }
}
