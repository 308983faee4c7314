/** What an accepted transaction does for its signer and for everyone else, told through the transactions that are
    accepted or refused afterwards (crates/scone-blockchain/src/state.rs). */
module Effects {
  import opened Prelude
  import opened Checkpoints
  import opened Ledger

  /** Carries this network's id and is bound to the key of o. */
  predicate SignedBy(R: Rules, tx: Transaction, o: OwnerId) {
    tx.network == R.networkId && tx.owner == o && R.ownerOf(tx.publicKey) == o
  }

  // ----- when a transaction is accepted -----

  /** Acceptance, rule by rule. */
  lemma AcceptedExactly(R: Rules, l: Ledger, tx: Transaction, now: U64)
    ensures Step(R, l, tx, now).error == None <==>
              && tx.network == R.networkId
              && (!tx.body.Slash? ==> tx.owner == R.ownerOf(tx.publicKey))
              && match tx.body
                 case RegisterDomain(name, d, proof) =>
                   var t := R.tldIdOf(R.tldOf(name));
                   && d == R.domainIdOf(name) && t in l.tlds && l.tlds[t].open && R.domainProofOk(name, proof)
                   && d !in l.domains
                   && (d in l.grace ==> tx.owner == l.grace[d].1 || SaturatingAdd(l.grace[d].0, 30 * 24 * 3600) <= now)
                 case UpdateDomain(d, sequence, _) =>
                   d in l.domains && l.domains[d].owner == tx.owner && sequence == l.domains[d].sequence + 1
                 case RegisterTld(name, t, proof) =>
                   t == R.tldIdOf(name) && t !in l.tlds && !R.isIcannTld(name) && R.tldProofOk(name, proof)
                 case TransferTld(t, _) => t in l.tlds && l.tlds[t].owner == tx.owner
                 case RevokeTld(t) => t in l.tlds && l.tlds[t].owner == tx.owner
                 case SetTldOpen(t, _) => t in l.tlds && l.tlds[t].owner == tx.owner
                 case AssignDomain(name, d, assignee) =>
                   var t := R.tldIdOf(R.tldOf(name));
                   && d == R.domainIdOf(name) && t in l.tlds && l.tlds[t].owner == tx.owner && d !in l.domains
                   && (d in l.grace ==> assignee == l.grace[d].1 || SaturatingAdd(l.grace[d].0, 30 * 24 * 3600) <= now)
                 case RenewDomain(d, until) =>
                   && d in l.domains && l.domains[d].owner == tx.owner
                   && l.domains[d].validUntil < until <= now + 3 * 365 * 24 * 3600
                 case TransferDomain(d, _) => d in l.domains && l.domains[d].owner == tx.owner
                 case Slash(e) =>
                   && InPool(l, e.offender) && e.a.epoch == e.b.epoch && e.a.prevCheckpointHash == e.b.prevCheckpointHash
                   && R.crypto.signingHash(e.a) != R.crypto.signingHash(e.b)
                   && R.crypto.verify(e.offender, R.crypto.signingHash(e.a), e.sigA)
                   && R.crypto.verify(e.offender, R.crypto.signingHash(e.b), e.sigB)
  {
    hide InPool, LearnKey, SetDomain, Claim, TermEnd;
  }

  /** Every refusal names a cause that is there. */
  lemma RefusalIsTrue(R: Rules, l: Ledger, tx: Transaction, now: U64)
    requires Step(R, l, tx, now).error.Some?
    ensures match Step(R, l, tx, now).error.value
            case InvalidTransaction =>
              || (!tx.body.Slash? && tx.owner != R.ownerOf(tx.publicKey))
              || (tx.body.Slash? && !VerifyEvidence(R.crypto, tx.body.evidence))
              || (tx.body.RegisterDomain? && tx.body.domainId != R.domainIdOf(tx.body.name))
              || (tx.body.AssignDomain? && tx.body.assignId != R.domainIdOf(tx.body.assignName))
              || (tx.body.RegisterTld? && tx.body.newTldId != R.tldIdOf(tx.body.tldName))
              || (tx.body.UpdateDomain? && tx.body.sequence == 0)
            case WrongNetwork => tx.network != R.networkId
            case UnknownTld => TldOf(R, tx.body) !in l.tlds
            case TldClosed =>
              tx.body.RegisterDomain? && var t := TldOf(R, tx.body); t in l.tlds && !l.tlds[t].open
            case NotTldOwner => var t := TldOf(R, tx.body); t in l.tlds && l.tlds[t].owner != tx.owner
            case TldAlreadyRegistered => tx.body.RegisterTld? && tx.body.newTldId in l.tlds
            case IcannTldReserved => tx.body.RegisterTld? && R.isIcannTld(tx.body.tldName)
            case InvalidProof =>
              || (tx.body.RegisterDomain? && !R.domainProofOk(tx.body.name, tx.body.proof))
              || (tx.body.RegisterTld? && !R.tldProofOk(tx.body.tldName, tx.body.tldProof))
            case DomainAlreadyRegistered =>
              || (tx.body.RegisterDomain? && !DomainFree(l, tx.body.domainId, now, tx.owner))
              || (tx.body.AssignDomain? && !DomainFree(l, tx.body.assignId, now, tx.body.assignee))
            case UnknownDomain => NameOf(tx.body) !in l.domains
            case NotOwner => var d := NameOf(tx.body); d in l.domains && l.domains[d].owner != tx.owner
            case InvalidSequence =>
              && tx.body.UpdateDomain? && tx.body.updateId in l.domains
              && tx.body.sequence != l.domains[tx.body.updateId].sequence + 1
            case RenewalNotExtending =>
              && tx.body.RenewDomain? && tx.body.renewId in l.domains
              && tx.body.validUntil <= l.domains[tx.body.renewId].validUntil
            case RenewalExceedsTerm => tx.body.RenewDomain? && tx.body.validUntil > now + 3 * 365 * 24 * 3600
            case SlashOffenderNotInPool => tx.body.Slash? && !InPool(l, tx.body.evidence.offender)
            case InvalidSignature => false
  {
    hide InPool, VerifyEvidence, LearnKey, SetDomain, Claim, TermEnd;
  }

  /** The namespace a transaction acts under, and the live name it acts on; zero when there is none. */
  function TldOf(R: Rules, body: Body): TldId {
    match body
    case RegisterDomain(name, _, _) => R.tldIdOf(R.tldOf(name))
    case AssignDomain(name, _, _) => R.tldIdOf(R.tldOf(name))
    case TransferTld(t, _) => t
    case RevokeTld(t) => t
    case SetTldOpen(t, _) => t
    case _ => 0
  }

  function NameOf(body: Body): DomainId {
    match body
    case UpdateDomain(d, _, _) => d
    case RenewDomain(d, _) => d
    case TransferDomain(d, _) => d
    case _ => 0
  }

  // ----- the pool -----

  /** Who is in the pool: the known, unbanned key of anyone who owns a live name or a namespace. */
  lemma PoolMembers(l: Ledger, k: PublicKey)
    ensures InPool(l, k) <==>
              k !in l.banned && exists o ::
                && o in l.ownerKeys && l.ownerKeys[o] == k
                && ((exists d :: d in l.domains && l.domains[d].owner == o)
                    || (exists t :: t in l.tlds && l.tlds[t].owner == o))
  {
    forall o ensures Owns(l, o) <==>
        (exists d :: d in l.domains && l.domains[d].owner == o) || (exists t :: t in l.tlds && l.tlds[t].owner == o) {}
  }

  /** An accepted slash takes the offender, and nobody else, out of the pool, seizes nothing, and cannot be repeated. */
  lemma SlashBans(R: Rules, l: Ledger, tx: Transaction, now: U64, again: Transaction, later: U64)
    requires tx.body.Slash? && Step(R, l, tx, now).error == None
    requires again.body.Slash? && again.body.evidence.offender == tx.body.evidence.offender
    ensures var (m, k) := (Step(R, l, tx, now).ledger, tx.body.evidence.offender);
            && k in m.banned && (forall x :: InPool(m, x) <==> InPool(l, x) && x != k)
            && m.domains == l.domains && m.tlds == l.tlds && m.grace == l.grace && m.ownerKeys == l.ownerKeys
            && Step(R, m, again, later).error.Some?
  {
    hide VerifyEvidence;
    var m := Step(R, l, tx, now).ledger;
    assert forall o :: Owns(m, o) <==> Owns(l, o);
  }

  // ----- namespaces -----

  /** The owner's word decides who may register: once a namespace is set open, every free name with a valid proof is
      accepted under it from anyone; once set closed, none is. */
  lemma OpenTldTakesNames(R: Rules, l: Ledger, tx: Transaction, now: U64, reg: Transaction, later: U64)
    requires tx.body.SetTldOpen? && Step(R, l, tx, now).error == None
    requires reg.body.RegisterDomain? && SignedBy(R, reg, reg.owner) && reg.body.domainId == R.domainIdOf(reg.body.name)
    requires R.tldIdOf(R.tldOf(reg.body.name)) == tx.body.setTld && R.domainProofOk(reg.body.name, reg.body.proof)
    requires DomainFree(l, reg.body.domainId, later, reg.owner)
    ensures Step(R, Step(R, l, tx, now).ledger, reg, later).error == if tx.body.open then None else Some(TldClosed)
  {
    hide InPool, LearnKey, Claim;
  }

  /** A claimed namespace belongs to its signer and starts closed: nobody registers under it, it cannot be claimed
      again, and its owner, whose known key is now in the pool unless banned, assigns free names. */
  lemma ClaimedTld(R: Rules, l: Ledger, tx: Transaction, now: U64, other: Transaction, later: U64)
    requires tx.body.RegisterTld? && Step(R, l, tx, now).error == None && SignedBy(R, other, other.owner)
    ensures var (m, t, o) := (Step(R, l, tx, now).ledger, tx.body.newTldId, tx.owner);
            && o in m.ownerKeys && (o !in l.ownerKeys ==> m.ownerKeys[o] == tx.publicKey)
            && (m.ownerKeys[o] !in m.banned ==> InPool(m, m.ownerKeys[o]))
            && (other.body.RegisterTld? && other.body.newTldId == t ==> Step(R, m, other, later).error.Some?)
            && (other.body.RegisterDomain? && R.tldIdOf(R.tldOf(other.body.name)) == t ==>
                  Step(R, m, other, later).error.Some?)
            && (other.body.AssignDomain? && R.tldIdOf(R.tldOf(other.body.assignName)) == t
                && other.body.assignId == R.domainIdOf(other.body.assignName)
                && DomainFree(l, other.body.assignId, later, other.body.assignee) ==>
                  (Step(R, m, other, later).error == None <==> other.owner == o))
  {
    hide VerifyEvidence, Claim;
    var m := Step(R, l, tx, now).ledger;
    assert tx.body.newTldId in m.tlds && m.tlds[tx.body.newTldId].owner == tx.owner;
    assert Owns(m, tx.owner);
  }

  /** After a transfer the new owner commands the namespace and nobody else does; whether it is open does not change. */
  lemma TldChangesHands(R: Rules, l: Ledger, tx: Transaction, now: U64, other: Transaction, later: U64)
    requires tx.body.TransferTld? && Step(R, l, tx, now).error == None && SignedBy(R, other, other.owner)
    requires match other.body
             case TransferTld(t, _) => t == tx.body.tldId
             case RevokeTld(t) => t == tx.body.tldId
             case SetTldOpen(t, _) => t == tx.body.tldId
             case _ => false
    ensures var m := Step(R, l, tx, now).ledger;
            && Step(R, m, other, later).error == (if other.owner == tx.body.newTldOwner then None else Some(NotTldOwner))
            && tx.body.tldId in l.tlds && tx.body.tldId in m.tlds && m.tlds[tx.body.tldId].open == l.tlds[tx.body.tldId].open
            && m.tlds - {tx.body.tldId} == l.tlds - {tx.body.tldId}
  {
    hide InPool, VerifyEvidence, DomainFree;
  }

  /** A revoked namespace is gone: nothing can be done under it or with it, and anyone may claim it afresh. */
  lemma RevokedTldIsGone(R: Rules, l: Ledger, tx: Transaction, now: U64, other: Transaction, later: U64)
    requires tx.body.RevokeTld? && Step(R, l, tx, now).error == None && SignedBy(R, other, other.owner)
    ensures var (m, t) := (Step(R, l, tx, now).ledger, tx.body.revokedTld);
            && m.tlds == l.tlds - {t} && m.domains == l.domains
            && (TldOf(R, other.body) == t && (other.body.TransferTld? || other.body.RevokeTld? || other.body.SetTldOpen?) ==>
                  Step(R, m, other, later).error == Some(UnknownTld))
            && (other.body.RegisterDomain? && TldOf(R, other.body) == t
                && other.body.domainId == R.domainIdOf(other.body.name) ==>
                  Step(R, m, other, later).error == Some(UnknownTld))
            && (other.body.AssignDomain? && TldOf(R, other.body) == t
                && other.body.assignId == R.domainIdOf(other.body.assignName) ==>
                  Step(R, m, other, later).error == Some(UnknownTld))
            && (other.body.RegisterTld? && other.body.newTldId == t == R.tldIdOf(other.body.tldName) ==>
                  (Step(R, m, other, later).error == None <==>
                     !R.isIcannTld(other.body.tldName) && R.tldProofOk(other.body.tldName, other.body.tldProof)))
  {
    hide InPool, VerifyEvidence, DomainFree, LearnKey, Claim;
  }

  // ----- names -----

  /** A new name, registered or assigned: it is live under its owner at sequence zero until its term ends, and no one
      can register it again; a registration also seats its signer's known key in the pool, unless banned. */
  lemma NewName(R: Rules, l: Ledger, tx: Transaction, now: U64, other: Transaction, later: U64)
    requires (tx.body.RegisterDomain? || tx.body.AssignDomain?) && Step(R, l, tx, now).error == None
    ensures var m := Step(R, l, tx, now).ledger;
            var (d, o) := if tx.body.RegisterDomain? then (tx.body.domainId, tx.owner)
                          else (tx.body.assignId, tx.body.assignee);
            && d in m.domains && m.domains[d].owner == o && m.domains[d].sequence == 0 && m.domains[d].recordHash == None
            && m.domains[d].registeredAt == now
            && m.domains[d].validUntil == (now + 365 * 24 * 3600) % 0x1_0000_0000_0000_0000
            && m.domains - {d} == l.domains - {d} && d !in m.grace && m.grace == l.grace - {d}
            && (d in Gc(m, later).domains <==> later < m.domains[d].validUntil)
            && ((other.body.RegisterDomain? && other.body.domainId == d)
                || (other.body.AssignDomain? && other.body.assignId == d) ==>
                  Step(R, m, other, later).error.Some?)
            && (tx.body.RegisterDomain? ==>
                  && o in m.ownerKeys && (o !in l.ownerKeys ==> m.ownerKeys[o] == tx.publicKey)
                  && (m.ownerKeys[o] !in m.banned ==> InPool(m, m.ownerKeys[o])))
            && (tx.body.AssignDomain? ==> m.ownerKeys == l.ownerKeys)
  {
    hide VerifyEvidence;
    var m := Step(R, l, tx, now).ledger;
    var (d, o) := if tx.body.RegisterDomain? then (tx.body.domainId, tx.owner) else (tx.body.assignId, tx.body.assignee);
    assert d in m.domains && m.domains[d].owner == o;
    assert Owns(m, o);
  }

  /** Whoever holds a name, and only they, may transfer it on, renew it and update it with the next sequence. */
  lemma HolderCommands(R: Rules, l: Ledger, tx: Transaction, now: U64)
    requires SignedBy(R, tx, tx.owner) && (tx.body.TransferDomain? || tx.body.UpdateDomain? || tx.body.RenewDomain?)
    requires NameOf(tx.body) in l.domains && (tx.body.UpdateDomain? ==> tx.body.sequence != 0)
    ensures var st := l.domains[NameOf(tx.body)];
            && (st.owner != tx.owner ==> Step(R, l, tx, now).error == Some(NotOwner))
            && (st.owner == tx.owner ==>
                  (Step(R, l, tx, now).error == None <==>
                     match tx.body
                     case UpdateDomain(_, sequence, _) => sequence == st.sequence + 1
                     case RenewDomain(_, until) => st.validUntil < until <= now + 3 * 365 * 24 * 3600
                     case _ => true))
  {
    hide InPool, VerifyEvidence, LearnKey, SetDomain;
  }

  /** What each of the three does to the name, and that it touches no other: an update shows the new record and counts
      one; it cannot be applied twice. A renewal moves the expiry, by which an expiry pass decides. A transfer changes the
      holder only. */
  lemma ChangedName(R: Rules, l: Ledger, tx: Transaction, now: U64, later: U64)
    requires (tx.body.TransferDomain? || tx.body.UpdateDomain? || tx.body.RenewDomain?) && Step(R, l, tx, now).error == None
    ensures var (m, d) := (Step(R, l, tx, now).ledger, NameOf(tx.body));
            && d in l.domains && d in m.domains && m.domains - {d} == l.domains - {d}
            && m.tlds == l.tlds && m.grace == l.grace
    ensures var (m, d) := (Step(R, l, tx, now).ledger, NameOf(tx.body));
            var (a, b) := (l.domains[d], m.domains[d]);
            && b.registeredAt == a.registeredAt
            && b.owner == (if tx.body.TransferDomain? then tx.body.newOwner else a.owner)
            && b.validUntil == (if tx.body.RenewDomain? then tx.body.validUntil else a.validUntil)
            && b.sequence == (if tx.body.UpdateDomain? then a.sequence + 1 else a.sequence)
            && (tx.body.UpdateDomain? ==> b.recordHash == if tx.body.recordHash == 0 then None else Some(tx.body.recordHash))
            && (!tx.body.UpdateDomain? && a.recordHash != Some(0) ==> b.recordHash == a.recordHash)
            && (d in Gc(m, later).domains <==> later < b.validUntil)
    ensures var m := Step(R, l, tx, now).ledger;
            && (tx.body.UpdateDomain? || tx.body.RenewDomain? ==> Step(R, m, tx, later).error.Some?)
            && (tx.body.UpdateDomain? ==> tx.owner in m.ownerKeys)
            && (forall o :: o in l.ownerKeys ==> o in m.ownerKeys && m.ownerKeys[o] == l.ownerKeys[o])
  {
    hide InPool, VerifyEvidence;
  }

  // ----- a whole block -----

  /** A list of transactions is accepted exactly when each of them is signed and accepted where it stands, after all
      those before it; otherwise the verdict is that of the first that is not. */
  lemma {:induction false} AllAccepted(R: Rules, l: Ledger, txs: seq<Transaction>, now: U64, i: nat)
    requires i < |txs| && StepAll(R, l, txs[..i], now).error == None
    ensures var m := StepAll(R, l, txs[..i], now).ledger;
            var next := StepAll(R, l, txs[..i + 1], now);
            && next.error == (if !R.signatureOk(txs[i]) then Some(InvalidSignature) else Step(R, m, txs[i], now).error)
            && (next.error == None ==> next.ledger == Step(R, m, txs[i], now).ledger)
            && (next.error != None ==> StepAll(R, l, txs, now).error == next.error)
    decreases i
  {
    hide Step;
    if i == 0 {
      assert txs[..0] == [] && txs[..1] == [txs[0]] && [txs[0]][1..] == [];
    } else {
      var m := Step(R, l, txs[0], now).ledger;
      assert txs[..i][1..] == txs[1..][..i - 1] && txs[..i + 1][1..] == txs[1..][..i];
      AllAccepted(R, m, txs[1..], now, i - 1);
    }
  }
}
