/** The signer guard: one key, one content per epoch, across crashes and failed writes
    (crates/scone-blockchain/src/signer.rs). */
module Signer {
  import opened Prelude
  import opened Bytes
  import opened Checkpoints
  import opened SmtSpec

  /** "SCONE-SIGNER-V1" */
  const SIGNER_TAG: seq<Byte> := [83, 67, 79, 78, 69, 45, 83, 73, 71, 78, 69, 82, 45, 86, 49]

  const RECORD_LEN: nat := 95

  datatype SignedContext = SignedContext(signer: PublicKey, signingHash: Word32, epoch: U64, height: U64)

  type Contexts = map<PublicKey, SignedContext>

  // ----- record bytes -----

  function ToBytes(x: SignedContext): (b: seq<Byte>)
    ensures |b| == RECORD_LEN
  {
    SIGNER_TAG + WordBytes(x.signer) + WordBytes(x.signingHash) + EncodeLE(x.epoch, 8) + EncodeLE(x.height, 8)
  }

  function FromBytes(validKey: PublicKey -> bool, b: seq<Byte>): (x: Option<SignedContext>)
    ensures x.Some? ==> validKey(x.value.signer)
  {
    if |b| != RECORD_LEN || b[..15] != SIGNER_TAG then None
    else if !validKey(WordOf(b[15..47])) then None
    else Some(SignedContext(WordOf(b[15..47]), WordOf(b[47..79]), U64Of(b[79..87]), U64Of(b[87..95])))
  }

  lemma RecordParts(t: seq<Byte>, k: seq<Byte>, h: seq<Byte>, e: seq<Byte>, n: seq<Byte>)
    requires |t| == 15 && |k| == 32 && |h| == 32 && |e| == 8 && |n| == 8
    ensures var b := t + k + h + e + n; b[..15] == t && b[15..47] == k && b[47..79] == h && b[79..87] == e && b[87..95] == n
  {
  }

  lemma RecordRoundTrip(validKey: PublicKey -> bool, x: SignedContext)
    requires validKey(x.signer)
    ensures FromBytes(validKey, ToBytes(x)) == Some(x)
  {
    var b := ToBytes(x);
    RecordParts(SIGNER_TAG, WordBytes(x.signer), WordBytes(x.signingHash), EncodeLE(x.epoch, 8), EncodeLE(x.height, 8));
    WordRoundTrip(x.signer);
    WordRoundTrip(x.signingHash);
    U64RoundTrip(x.epoch);
    U64RoundTrip(x.height);
  }

  function Encode(xs: seq<SignedContext>): (b: seq<Byte>)
    ensures |b| == RECORD_LEN * |xs|
  {
    if xs == [] then [] else ToBytes(xs[0]) + Encode(xs[1..])
  }

  lemma EncodeLength(xs: seq<SignedContext>)
    ensures |Encode(xs)| % RECORD_LEN == 0
  {
  }

  /** The contexts of a file image, later records overriding earlier ones; None for a bad record. */
  function Decode(validKey: PublicKey -> bool, b: seq<Byte>, m: Contexts): Option<Contexts>
    requires |b| % RECORD_LEN == 0
    decreases |b|
  {
    if b == [] then Some(m)
    else
      var x := FromBytes(validKey, b[..RECORD_LEN]);
      if x.None? then None else Decode(validKey, b[RECORD_LEN..], m[x.value.signer := x.value])
  }

  function Collect(xs: seq<SignedContext>, m: Contexts): Contexts
    decreases |xs|
  {
    if xs == [] then m else Collect(xs[1..], m[xs[0].signer := xs[0]])
  }

  lemma {:induction false} DecodeEncode(validKey: PublicKey -> bool, xs: seq<SignedContext>, m: Contexts)
    requires forall i :: 0 <= i < |xs| ==> validKey(xs[i].signer)
    ensures Decode(validKey, Encode(xs), m) == Some(Collect(xs, m))
    decreases |xs|
  {
    if xs != [] {
      assert Encode(xs)[..RECORD_LEN] == ToBytes(xs[0]) && Encode(xs)[RECORD_LEN..] == Encode(xs[1..]);
      RecordRoundTrip(validKey, xs[0]);
      DecodeEncode(validKey, xs[1..], m[xs[0].signer := xs[0]]);
    }
  }

  /** Every context is filed under its own, well-formed key. */
  ghost predicate Keyed(validKey: PublicKey -> bool, m: Contexts) {
    forall k :: k in m ==> m[k].signer == k && validKey(k)
  }

  /** One record per key, in key order: what persist writes. */
  ghost predicate InKeyOrder(m: Contexts, xs: seq<SignedContext>) {
    && (forall i, j :: 0 <= i < j < |xs| ==> xs[i].signer < xs[j].signer)
    && (forall i :: 0 <= i < |xs| ==> xs[i].signer in m && m[xs[i].signer] == xs[i])
    && (forall k :: k in m ==> m[k] in xs)
  }

  lemma InKeyOrderMeans(m: Contexts, xs: seq<SignedContext>)
    requires InKeyOrder(m, xs)
    ensures forall i, j :: 0 <= i < j < |xs| ==> xs[i].signer < xs[j].signer
    ensures forall x :: x in xs <==> x.signer in m && m[x.signer] == x
  {
    forall x ensures x in xs <==> x.signer in m && m[x.signer] == x {
      if x in xs { var i :| 0 <= i < |xs| && xs[i] == x; }
    }
  }

  lemma {:induction false} CollectAll(xs: seq<SignedContext>, m: Contexts, target: Contexts)
    requires forall i, j :: 0 <= i < j < |xs| ==> xs[i].signer < xs[j].signer
    requires forall i :: 0 <= i < |xs| ==> xs[i].signer in target && target[xs[i].signer] == xs[i]
    requires forall k :: k in m ==> k in target && m[k] == target[k]
    requires forall k :: k in target ==> target[k].signer == k && (k in m || target[k] in xs)
    ensures Collect(xs, m) == target
    decreases |xs|
  {
    if xs == [] {
      assert m.Keys == target.Keys;
    } else {
      forall k | k in target ensures target[k].signer == k && (k in m[xs[0].signer := xs[0]] || target[k] in xs[1..]) {
        if k !in m {
          var i :| 0 <= i < |xs| && xs[i] == target[k];
          if i > 0 { assert xs[1..][i - 1] == target[k]; }
        }
      }
      CollectAll(xs[1..], m[xs[0].signer := xs[0]], target);
    }
  }

  /** Loading what was persisted gives back the same contexts. */
  lemma LoadAfterPersist(validKey: PublicKey -> bool, m: Contexts, xs: seq<SignedContext>)
    requires Keyed(validKey, m) && InKeyOrder(m, xs)
    ensures Decode(validKey, Encode(xs), map[]) == Some(m)
    ensures m != map[] ==> Encode(xs) != []
  {
    DecodeEncode(validKey, xs, map[]);
    CollectAll(xs, map[], m);
    if m != map[] {
      var k :| k in m;
      assert m[k] in xs;
    }
  }

  // ----- the guard -----

  /** How an atomic write ended. A failed one leaves the old file or, past the rename, the new one. */
  datatype WriteResult = Written | FailedOld | FailedNew

  /** The signer file: absent, or its bytes. */
  class Disk {
    var file: Option<seq<Byte>>

    constructor ()
      ensures file == None
    {
      file := None;
    }

    method AtomicWrite(data: seq<Byte>, io: WriteResult) returns (ok: bool)
      modifies this
      ensures ok <==> io == Written
      ensures file == if io == FailedOld then old(file) else Some(data)
    {
      ok := io == Written;
      if io != FailedOld { file := Some(data); }
    }
  }

  /** What a file holds: nothing yet, contexts, or something unreadable. */
  function FileContexts(validKey: PublicKey -> bool, file: Option<seq<Byte>>): Option<Contexts> {
    if file.None? then Some(map[])
    else if file.value == [] || |file.value| % RECORD_LEN != 0 then None
    else Decode(validKey, file.value, map[])
  }

  predicate MaySign(c: Crypto, m: Contexts, isSealed: bool, signer: PublicKey, data: CheckpointData) {
    && !isSealed
    && (signer in m ==>
          !(data.epoch < m[signer].epoch || (data.epoch == m[signer].epoch && c.signingHash(data) != m[signer].signingHash)))
  }

  function ContextOf(c: Crypto, signer: PublicKey, data: CheckpointData): SignedContext {
    SignedContext(signer, c.signingHash(data), data.epoch, data.height)
  }

  class SignerGuard {
    const c: Crypto
    const validKey: PublicKey -> bool
    const disk: Disk
    var last: Contexts
    var isSealed: bool

    ghost predicate Valid()
      reads this
    {
      Keyed(validKey, last)
    }

    /** Absent file: a fresh guard. Unreadable file: sealed, it never signs. */
    constructor Load(c: Crypto, validKey: PublicKey -> bool, disk: Disk, readable: bool, ghost crashed: SignerNode)
      requires crashed.file == disk.file
      ensures Next(c, validKey, crashed, Restart(readable), SignerNode(last, isSealed, disk.file, crashed.released))
      ensures Valid() && this.c == c && this.validKey == validKey && this.disk == disk
      ensures var m := FileContexts(validKey, disk.file);
              if (disk.file.None? || readable) && m.Some? then !isSealed && last == m.value else isSealed && last == map[]
    {
      hide FromBytes;
      this.c, this.validKey, this.disk := c, validKey, disk;
      last, isSealed := map[], false;
      new;
      if disk.file.Some? {
        var data := disk.file.value;
        if !readable || data == [] || |data| % RECORD_LEN != 0 {
          isSealed := true;
        } else {
          var i := 0;
          assert data[0..] == data;
          while i < |data|
            invariant i <= |data| && i % RECORD_LEN == 0
            invariant Keyed(validKey, last) && !isSealed
            invariant Decode(validKey, data[i..], last) == Decode(validKey, data, map[])
          {
            assert data[i..][..RECORD_LEN] == data[i..i + RECORD_LEN] && data[i..][RECORD_LEN..] == data[i + RECORD_LEN..];
            var x := FromBytes(validKey, data[i..i + RECORD_LEN]);
            if x.None? {
              last, isSealed := map[], true;
              return;
            }
            last := last[x.value.signer := x.value];
            i := i + RECORD_LEN;
          }
        }
      }
    }

    /** Checks the rule, records the context, persists it, and only then releases the signature. */
    method Authorize(signer: PublicKey, data: CheckpointData, io: WriteResult, ghost before: set<(PublicKey, CheckpointData)>)
      returns (released: bool)
      requires Valid() && validKey(signer)
      modifies this, disk
      ensures Next(c, validKey, SignerNode(old(last), old(isSealed), old(disk.file), before), Sign(signer, data, io),
          SignerNode(last, isSealed, disk.file, before + if released then {(signer, data)} else {}))
      ensures Valid() && isSealed == old(isSealed)
      ensures released <==> MaySign(c, old(last), isSealed, signer, data) && io == Written
      ensures !MaySign(c, old(last), isSealed, signer, data) ==> last == old(last) && disk.file == old(disk.file)
      ensures MaySign(c, old(last), isSealed, signer, data) ==>
                && last == old(last)[signer := SignedContext(signer, c.signingHash(data), data.epoch, data.height)]
                && (io == FailedOld ==> disk.file == old(disk.file))
                && (io != FailedOld ==> FileContexts(validKey, disk.file) == Some(last))
    {
      released := false;
      if MaySign(c, last, isSealed, signer, data) {
        last := last[signer := ContextOf(c, signer, data)];
        released := Persist(io);
      }
    }

    method Persist(io: WriteResult) returns (ok: bool)
      requires Valid() && last != map[]
      modifies disk
      ensures ok <==> io == Written
      ensures io == FailedOld ==> disk.file == old(disk.file)
      ensures io != FailedOld ==> FileContexts(validKey, disk.file) == Some(last)
      ensures io != FailedOld ==> exists xs: seq<SignedContext> {:trigger Encode(xs)} ::
                && disk.file == Some(Encode(xs))
                && (forall i, j :: 0 <= i < j < |xs| ==> xs[i].signer < xs[j].signer)
                && forall x :: x in xs <==> x.signer in last && last[x.signer] == x
    {
      hide Encode, Decode, InKeyOrder;
      var xs := ContextsInKeyOrder(last);
      EncodeLength(xs);
      LoadAfterPersist(validKey, last, xs);
      InKeyOrderMeans(last, xs);
      ok := disk.AtomicWrite(Encode(xs), io);
    }
  }

  method ContextsInKeyOrder(m: Contexts) returns (xs: seq<SignedContext>)
    requires forall k :: k in m ==> m[k].signer == k
    ensures InKeyOrder(m, xs)
  {
    hide WrittenSoFar, InKeyOrder;
    xs := [];
    var left := m.Keys;
    NothingWritten(m);
    while left != {}
      invariant left <= m.Keys && WrittenSoFar(m, xs, left)
      decreases left
    {
      LeastKey(left);
      var k: PublicKey :| k in left && forall y :: y in left ==> k <= y;
      WriteNext(m, xs, left, k);
      xs := xs + [m[k]];
      left := left - {k};
    }
    AllWritten(m, xs);
  }

  /** xs lists, in key order, exactly the contexts whose key is no longer left; all left keys come after. */
  ghost predicate WrittenSoFar(m: Contexts, xs: seq<SignedContext>, left: set<PublicKey>) {
    && (forall i, j :: 0 <= i < j < |xs| ==> xs[i].signer < xs[j].signer)
    && (forall x :: x in xs ==> x.signer in m && m[x.signer] == x && Before(x, left))
    && (forall k :: k in m ==> k in left || m[k] in xs)
  }

  ghost predicate Before(x: SignedContext, left: set<PublicKey>) {
    forall k :: k in left ==> x.signer < k
  }

  lemma NothingWritten(m: Contexts)
    ensures WrittenSoFar(m, [], m.Keys)
  {
  }

  lemma AllWritten(m: Contexts, xs: seq<SignedContext>)
    requires WrittenSoFar(m, xs, {})
    ensures InKeyOrder(m, xs)
  {
  }

  lemma WriteNext(m: Contexts, xs: seq<SignedContext>, left: set<PublicKey>, k: PublicKey)
    requires WrittenSoFar(m, xs, left)
    requires k in left && k in m && m[k].signer == k && forall y :: y in left ==> k <= y
    ensures WrittenSoFar(m, xs + [m[k]], left - {k})
  {
    forall i, j | 0 <= i < j < |xs| + 1 ensures (xs + [m[k]])[i].signer < (xs + [m[k]])[j].signer {
      if j == |xs| { assert xs[i] in xs && Before(xs[i], left); }
    }
    forall x | x in xs + [m[k]] ensures x.signer in m && m[x.signer] == x && Before(x, left - {k}) {
      if x in xs { assert Before(x, left); }
    }
  }

  lemma LeastKey(s: set<PublicKey>)
    requires s != {}
    ensures exists k :: k in s && forall y :: y in s ==> k <= y
  {
    var k := Least(s);
    assert k in s;
  }

  // ----- every run -----

  /** The guard, its file, and every signature it ever released. */
  datatype SignerNode = SignerNode(last: Contexts, isSealed: bool, file: Option<seq<Byte>>, released: set<(PublicKey,
      CheckpointData)>)

  datatype Step =
    | Sign(signer: PublicKey, data: CheckpointData, io: WriteResult)
    | Restart(readable: bool)

  /** One step of a node, as the guard's methods promise it. */
  ghost predicate Next(c: Crypto, validKey: PublicKey -> bool, s: SignerNode, step: Step, t: SignerNode) {
    match step
    case Sign(signer, data, io) =>
      validKey(signer) && t.isSealed == s.isSealed &&
      if !MaySign(c, s.last, s.isSealed, signer, data) then t == s
      else
        && t.last == s.last[signer := ContextOf(c, signer, data)]
        && (if io == FailedOld then t.file == s.file else FileContexts(validKey, t.file) == Some(t.last))
        && t.released == s.released + if io == Written then {(signer, data)} else {}
    case Restart(readable) =>
      var m := FileContexts(validKey, s.file);
      && t.file == s.file && t.released == s.released
      && if (s.file.None? || readable) && m.Some? then !t.isSealed && t.last == m.value else t.isSealed && t.last == map[]
  }

  /** What a context allows: only this content at its epoch, anything above. */
  ghost predicate Dominates(c: Crypto, x: SignedContext, epoch: U64, hash: Word32) {
    epoch < x.epoch || (epoch == x.epoch && hash == x.signingHash)
  }

  /** One content per key and epoch among everything released. */
  ghost predicate Consistent(c: Crypto, released: set<(PublicKey, CheckpointData)>) {
    forall k, d, d' :: (k, d) in released && (k, d') in released && d.epoch == d'.epoch ==>
        c.signingHash(d) == c.signingHash(d')
  }

  ghost predicate Above(c: Crypto, m: Contexts, n: Contexts) {
    forall k :: k in n ==> k in m && Dominates(c, m[k], n[k].epoch, n[k].signingHash)
  }

  ghost predicate AboveReleased(c: Crypto, m: Contexts, released: set<(PublicKey, CheckpointData)>) {
    forall k, d :: (k, d) in released ==> k in m && Dominates(c, m[k], d.epoch, c.signingHash(d))
  }

  /** The file dominates everything released, and memory dominates the file. */
  ghost predicate Safe(c: Crypto, validKey: PublicKey -> bool, s: SignerNode) {
    && Keyed(validKey, s.last)
    && FileContexts(validKey, s.file).Some?
    && Keyed(validKey, FileContexts(validKey, s.file).value)
    && (!s.isSealed ==> Above(c, s.last, FileContexts(validKey, s.file).value))
    && AboveReleased(c, FileContexts(validKey, s.file).value, s.released)
    && Consistent(c, s.released)
  }

  lemma {:induction false} DecodeKeyed(validKey: PublicKey -> bool, b: seq<Byte>, m: Contexts)
    requires |b| % RECORD_LEN == 0 && Keyed(validKey, m)
    ensures Decode(validKey, b, m).Some? ==> Keyed(validKey, Decode(validKey, b, m).value)
    decreases |b|
  {
    if b != [] {
      var x := FromBytes(validKey, b[..RECORD_LEN]);
      if x.Some? { DecodeKeyed(validKey, b[RECORD_LEN..], m[x.value.signer := x.value]); }
    }
  }

  lemma SafeStep(c: Crypto, validKey: PublicKey -> bool, s: SignerNode, step: Step, t: SignerNode)
    requires Safe(c, validKey, s) && Next(c, validKey, s, step, t)
    ensures Safe(c, validKey, t) && s.released <= t.released
  {
    hide FileContexts;
    match step
    case Restart(readable) =>
    case Sign(signer, data, io) =>
      if MaySign(c, s.last, s.isSealed, signer, data) {
        var durable := FileContexts(validKey, s.file).value;
        forall k, d | (k, d) in s.released ensures k in t.last && Dominates(c, t.last[k], d.epoch, c.signingHash(d)) {
          assert k in durable && k in s.last;
        }
        forall k, d, d' | (k, d) in t.released && (k, d') in t.released && d.epoch == d'.epoch
          ensures c.signingHash(d) == c.signingHash(d')
        {
          if (k, d) in s.released && (k, d') in s.released {
          } else if (k, d) in s.released {
            assert Dominates(c, s.last[k], d.epoch, c.signingHash(d));
          } else if (k, d') in s.released {
            assert Dominates(c, s.last[k], d'.epoch, c.signingHash(d'));
          }
        }
      }
  }

  const FRESH: SignerNode := SignerNode(map[], false, None, {})

  ghost predicate IsRun(c: Crypto, validKey: PublicKey -> bool, states: seq<SignerNode>, steps: seq<Step>) {
    && |states| == |steps| + 1 && states[0] == FRESH
    && forall i :: 0 <= i < |steps| ==> Next(c, validKey, states[i], steps[i], states[i + 1])
  }

  /** Whatever the interleaving of signing, failed writes, crashes and restarts: at most one content
      per key and epoch is ever released, and the file dominates everything released. */
  lemma {:induction false} CrashSafeSigning(c: Crypto, validKey: PublicKey -> bool, states: seq<SignerNode>,
      steps: seq<Step>, i: nat)
    requires IsRun(c, validKey, states, steps) && i < |states|
    ensures Safe(c, validKey, states[i])
  {
    if i > 0 {
      CrashSafeSigning(c, validKey, states, steps, i - 1);
      SafeStep(c, validKey, states[i - 1], steps[i - 1], states[i]);
    }
  }

  // ----- what the guard lets through -----

  /** A content that may be signed may be signed again, so a failed write costs no vote. */
  lemma SameContentAgain(c: Crypto, m: Contexts, k: PublicKey, d: CheckpointData)
    requires MaySign(c, m, false, k, d)
    ensures MaySign(c, m[k := ContextOf(c, k, d)], false, k, d)
  {
  }

  ghost predicate Bars(c: Crypto, epoch: U64, hash: Word32, d: CheckpointData) {
    epoch > d.epoch || (epoch == d.epoch && hash != c.signingHash(d))
  }

  /** Step i let a content of k through that bars d. */
  ghost predicate BarredAt(c: Crypto, states: seq<SignerNode>, steps: seq<Step>, i: nat, k: PublicKey, d: CheckpointData)
    requires i < |states| && i < |steps|
  {
    && steps[i].Sign? && steps[i].signer == k && MaySign(c, states[i].last, false, k, steps[i].data)
    && Bars(c, steps[i].data.epoch, c.signingHash(steps[i].data), d)
  }

  lemma {:induction false} RefusedIsBarred(c: Crypto, validKey: PublicKey -> bool, states: seq<SignerNode>, steps: seq<Step>,
      from: nat, n: nat, k: PublicKey, d: CheckpointData)
    requires from <= n < |states| && |states| == |steps| + 1 && !states[from].isSealed
    requires forall i :: from <= i < n ==> steps[i].Sign? && Next(c, validKey, states[i], steps[i], states[i + 1])
    ensures !states[n].isSealed
    ensures !MaySign(c, states[n].last, false, k, d) <==>
              || (k in states[from].last && Bars(c, states[from].last[k].epoch, states[from].last[k].signingHash, d))
              || exists i :: from <= i < n && BarredAt(c, states, steps, i, k, d)
    decreases n
  {
    hide FileContexts;
    if from < n {
      var j := n - 1;
      RefusedIsBarred(c, validKey, states, steps, from, j, k, d);
      assert Next(c, validKey, states[j], steps[j], states[n]);
      var e := steps[j].data;
      if steps[j].signer == k && MaySign(c, states[j].last, false, k, e) {
        RefusedIsBarred(c, validKey, states, steps, from, j, k, e);
        assert states[n].last[k] == ContextOf(c, k, e);
        if Bars(c, e.epoch, c.signingHash(e), d) {
          assert BarredAt(c, states, steps, j, k, d);
        } else {
          forall i | from <= i < j ensures !BarredAt(c, states, steps, i, k, d) {
            assert !BarredAt(c, states, steps, i, k, e);
          }
        }
      } else {
        assert !BarredAt(c, states, steps, j, k, d);
      }
    }
  }

  /** The guard refuses no more than it must. Between restarts, an unsealed guard refuses d to a key exactly when the
      context it started with, or some content it let through since, is of a later epoch, or of the same epoch and
      another hash; whether the write succeeded makes no difference. */
  lemma RefusesExactly(c: Crypto, validKey: PublicKey -> bool, states: seq<SignerNode>, steps: seq<Step>,
      from: nat, n: nat, k: PublicKey, d: CheckpointData)
    requires from <= n < |states| && |states| == |steps| + 1 && !states[from].isSealed
    requires forall i :: from <= i < n ==> steps[i].Sign? && Next(c, validKey, states[i], steps[i], states[i + 1])
    ensures !MaySign(c, states[n].last, states[n].isSealed, k, d) <==>
              || (k in states[from].last
                  && (states[from].last[k].epoch > d.epoch
                      || (states[from].last[k].epoch == d.epoch && states[from].last[k].signingHash != c.signingHash(d))))
              || exists i ::
                   && from <= i < n && steps[i].signer == k && MaySign(c, states[i].last, false, k, steps[i].data)
                   && (steps[i].data.epoch > d.epoch
                       || (steps[i].data.epoch == d.epoch && c.signingHash(steps[i].data) != c.signingHash(d)))
  {
    hide Next;
    RefusedIsBarred(c, validKey, states, steps, from, n, k, d);
    forall i | from <= i < n
      ensures BarredAt(c, states, steps, i, k, d) <==>
                && steps[i].signer == k && MaySign(c, states[i].last, false, k, steps[i].data)
                && (steps[i].data.epoch > d.epoch
                    || (steps[i].data.epoch == d.epoch && c.signingHash(steps[i].data) != c.signingHash(d)))
    {
    }
  }

  // ----- what a file must hold -----

  function RecordAt(b: seq<Byte>, i: nat): seq<Byte>
    requires RECORD_LEN * (i + 1) <= |b|
  {
    b[RECORD_LEN * i..RECORD_LEN * i + RECORD_LEN]
  }

  lemma {:induction false} AllRecordsRead(validKey: PublicKey -> bool, b: seq<Byte>, m: Contexts)
    requires |b| % RECORD_LEN == 0
    ensures Decode(validKey, b, m).Some? <==>
              forall i {:trigger RecordAt(b, i)} :: 0 <= i < |b| / RECORD_LEN ==> FromBytes(validKey, RecordAt(b, i)).Some?
    decreases |b|
  {
    hide FromBytes;
    if b != [] {
      var rest := b[RECORD_LEN..];
      assert RecordAt(b, 0) == b[..RECORD_LEN];
      forall i | 0 <= i < |rest| / RECORD_LEN ensures RecordAt(rest, i) == RecordAt(b, i + 1) {}
      var x := FromBytes(validKey, RecordAt(b, 0));
      if x.Some? { AllRecordsRead(validKey, rest, m[x.value.signer := x.value]); }
      if forall i {:trigger RecordAt(rest, i)} ::
           0 <= i < |rest| / RECORD_LEN ==> FromBytes(validKey, RecordAt(rest, i)).Some? {
        forall i | 1 <= i < |b| / RECORD_LEN ensures FromBytes(validKey, RecordAt(b, i)).Some? {
          assert RecordAt(rest, i - 1) == RecordAt(b, i);
        }
      }
    }
  }

  /** A file is read exactly when it is absent, or made of whole records that all carry the tag and a well-formed key;
      an empty file is not. */
  lemma FileIsRead(validKey: PublicKey -> bool, file: Option<seq<Byte>>)
    ensures FileContexts(validKey, file).Some? <==>
              || file.None?
              || (var b := file.value;
                  && b != [] && |b| % 95 == 0
                  && forall i {:trigger RecordAt(b, i)} :: 0 <= i < |b| / 95 ==>
                       RecordAt(b, i)[..15] == SIGNER_TAG && validKey(WordOf(RecordAt(b, i)[15..47])))
  {
    hide WordOf;
    if file.Some? && |file.value| % RECORD_LEN == 0 { AllRecordsRead(validKey, file.value, map[]); }
  }

  /** The last record of a key is the one that counts. */
  lemma {:induction false} LastRecordCounts(validKey: PublicKey -> bool, b: seq<Byte>, m: Contexts, k: PublicKey, i: nat)
    requires |b| % RECORD_LEN == 0 && i < |b| / RECORD_LEN && Decode(validKey, b, m).Some?
    requires FromBytes(validKey, RecordAt(b, i)).Some? && FromBytes(validKey, RecordAt(b, i)).value.signer == k
    requires forall j {:trigger RecordAt(b, j)} :: i < j < |b| / RECORD_LEN ==>
               FromBytes(validKey, RecordAt(b, j)).Some? && FromBytes(validKey, RecordAt(b, j)).value.signer != k
    ensures var r := Decode(validKey, b, m).value; k in r && Some(r[k]) == FromBytes(validKey, RecordAt(b, i))
    decreases |b|
  {
    hide FromBytes;
    var rest := b[RECORD_LEN..];
    assert RecordAt(b, 0) == b[..RECORD_LEN];
    var x := FromBytes(validKey, RecordAt(b, 0)).value;
    forall j: nat | j < |rest| / RECORD_LEN ensures RecordAt(rest, j) == RecordAt(b, j + 1) {}
    if i > 0 {
      LastRecordCounts(validKey, rest, m[x.signer := x], k, i - 1);
    } else {
      Unlisted(validKey, rest, m[x.signer := x], k);
    }
  }

  lemma {:induction false} Unlisted(validKey: PublicKey -> bool, b: seq<Byte>, m: Contexts, k: PublicKey)
    requires |b| % RECORD_LEN == 0 && Decode(validKey, b, m).Some?
    requires forall j {:trigger RecordAt(b, j)} :: 0 <= j < |b| / RECORD_LEN ==>
               FromBytes(validKey, RecordAt(b, j)).Some? && FromBytes(validKey, RecordAt(b, j)).value.signer != k
    ensures var r := Decode(validKey, b, m).value; (k in r <==> k in m) && (k in m ==> r[k] == m[k])
    decreases |b|
  {
    hide FromBytes;
    if b != [] {
      var rest := b[RECORD_LEN..];
      assert RecordAt(b, 0) == b[..RECORD_LEN];
      var x := FromBytes(validKey, RecordAt(b, 0)).value;
      forall j: nat | j < |rest| / RECORD_LEN ensures RecordAt(rest, j) == RecordAt(b, j + 1) {}
      Unlisted(validKey, rest, m[x.signer := x], k);
    }
  }
}
