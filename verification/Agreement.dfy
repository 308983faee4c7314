/** Finality safety: guarded keys are never convicted, and two certificates of one epoch agree. */
module Agreement {
  import opened Prelude
  import opened Checkpoints
  import opened Quorum
  import opened Signer
  import opened Bytes
  import opened CheckpointHash

  /** The life of one signer process: its states and the steps between them. */
  datatype Life = Life(states: seq<SignerNode>, steps: seq<Step>)

  ghost predicate IsLife(c: Crypto, validKey: PublicKey -> bool, life: Life) {
    IsRun(c, validKey, life.states, life.steps)
  }

  ghost function ReleasedBy(life: Life): set<(PublicKey, CheckpointData)> {
    if life.states == [] then {} else life.states[|life.states| - 1].released
  }

  ghost predicate Released(c: Crypto, life: Life, key: PublicKey, message: Word32) {
    exists d :: (key, d) in ReleasedBy(life) && c.signingHash(d) == message
  }

  /** Nobody forges this key: whatever verifies under it was released by its guard. */
  ghost predicate OnlyThroughGuard(c: Crypto, validKey: PublicKey -> bool, life: Life, key: PublicKey) {
    && IsLife(c, validKey, life)
    && forall message: Word32, sig: Signature :: c.verify(key, message, sig) ==> Released(c, life, key, message)
  }

  /** No content of another epoch that this guard released shares the signing hash of x. */
  ghost predicate HashNamesEpoch(c: Crypto, life: Life, key: PublicKey, x: CheckpointData) {
    forall d :: (key, d) in ReleasedBy(life) && c.signingHash(d) == c.signingHash(x) ==> d.epoch == x.epoch
  }

  /** That is so when the signing hash is a hash of the signing bytes and none of the bytes involved collide. */
  lemma SigningHashNamesEpoch(c: Crypto, H: seq<Byte> -> Word32, life: Life, key: PublicKey, x: CheckpointData)
    requires forall d :: c.signingHash(d) == H(SigningBytes(d))
    requires forall d :: (key, d) in ReleasedBy(life) && H(SigningBytes(d)) == H(SigningBytes(x)) ==>
        SigningBytes(d) == SigningBytes(x)
    requires x.recovery < 0x1_0000_0000 && forall d :: (key, d) in ReleasedBy(life) ==> d.recovery < 0x1_0000_0000
    ensures HashNamesEpoch(c, life, key, x)
  {
    hide SigningBytes, ReleasedBy;
    forall d | (key, d) in ReleasedBy(life) && c.signingHash(d) == c.signingHash(x) ensures d.epoch == x.epoch {
      SigningBytesBind(d, x);
    }
  }

  /** Two verifying signatures of a guarded key for one epoch are over the same signing hash. */
  lemma GuardedKeySignsOnce(c: Crypto, validKey: PublicKey -> bool, life: Life, key: PublicKey,
                            a: CheckpointData, sigA: Signature, b: CheckpointData, sigB: Signature)
    requires OnlyThroughGuard(c, validKey, life, key)
    requires HashNamesEpoch(c, life, key, a) && HashNamesEpoch(c, life, key, b)
    requires a.epoch == b.epoch
    requires c.verify(key, c.signingHash(a), sigA) && c.verify(key, c.signingHash(b), sigB)
    ensures c.signingHash(a) == c.signingHash(b)
  {
    var last := |life.states| - 1;
    CrashSafeSigning(c, validKey, life.states, life.steps, last);
    assert Consistent(c, life.states[last].released);
    assert Released(c, life, key, c.signingHash(a)) && Released(c, life, key, c.signingHash(b));
    var d :| (key, d) in ReleasedBy(life) && c.signingHash(d) == c.signingHash(a);
    var e :| (key, e) in ReleasedBy(life) && c.signingHash(e) == c.signingHash(b);
    assert d.epoch == e.epoch;
  }

  /** A key used only through the guard never yields valid slash evidence, whatever crashed on the way. */
  lemma GuardedKeyIsNeverConvicted(c: Crypto, validKey: PublicKey -> bool, life: Life, e: Evidence)
    requires OnlyThroughGuard(c, validKey, life, e.offender)
    requires HashNamesEpoch(c, life, e.offender, e.a) && HashNamesEpoch(c, life, e.offender, e.b)
    ensures !VerifyEvidence(c, e)
  {
    if VerifyEvidence(c, e) {
      GuardedKeySignsOnce(c, validKey, life, e.offender, e.a, e.sigA, e.b, e.sigB);
    }
  }

  /** Members that sign outside any guard. */
  ghost function Unguarded(committee: seq<PublicKey>, guards: map<PublicKey, Life>): set<PublicKey> {
    set k | k in committee && k !in guards
  }

  /** With at most floor((n-1)/3) unguarded members, two certificates of one epoch certify the same content. */
  lemma Agreement(c: Crypto, validKey: PublicKey -> bool, committee: seq<PublicKey>, guards: map<PublicKey, Life>,
                  a: Checkpoint, b: Checkpoint)
    requires Distinct(committee) && |Unguarded(committee, guards)| <= MaxFaulty(|committee|)
    requires forall k :: k in committee && k in guards ==>
                           && OnlyThroughGuard(c, validKey, guards[k], k)
                           && HashNamesEpoch(c, guards[k], k, a.data) && HashNamesEpoch(c, guards[k], k, b.data)
    requires a.data.epoch == b.data.epoch
    requires HasQuorum(c, a, committee, QuorumFor(|committee|)) && HasQuorum(c, b, committee, QuorumFor(|committee|))
    ensures c.signingHash(a.data) == c.signingHash(b.data)
  {
    var both, unguarded := Equivocators(c, a, b, committee), Unguarded(committee, guards);
    DistinctSize(committee);
    SignersAreMembers(c, a, committee);
    SignersAreMembers(c, b, committee);
    Intersection(|committee|, SetOf(committee), Signers(c, a, committee, |a.signatures|),
        Signers(c, b, committee, |b.signatures|));
    if both <= unguarded {
      SubsetSize(both, unguarded);
      assert false;
    }
    var k :| k in both && k !in unguarded;
    var i :| 0 <= i < |a.signatures| && FirstListed(a, i, k) && c.verify(k, c.signingHash(a.data), a.signatures[i].1);
    var j :| 0 <= j < |b.signatures| && FirstListed(b, j, k) && c.verify(k, c.signingHash(b.data), b.signatures[j].1);
    GuardedKeySignsOnce(c, validKey, guards[k], k, a.data, a.signatures[i].1, b.data, b.signatures[j].1);
  }
}
