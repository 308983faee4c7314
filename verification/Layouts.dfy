/** Where every field stands in the bytes that are stored, signed and sent, field by field. */
module Layouts {
  import opened Prelude
  import opened Bytes
  import opened Checkpoints
  import opened Ledger
  import opened Indexes
  import opened Wire
  import EC = EntryCodec
  import S = Signer
  import CW = CheckpointWire
  import CH = CheckpointHash
  import RC = RecordCodec
  import RS = RecordSet

  // ----- stored entries -----

  /** A stored name: owner, sequence, record hash or zeroes, registration time, expiry. */
  lemma DomainEntry(st: DomainState)
    ensures var b := EC.EncodeDomain(st);
            && b[0..32] == WordBytes(st.owner) && b[32..40] == EncodeLE(st.sequence, 8)
            && b[40..72] == (if st.recordHash.Some? then WordBytes(st.recordHash.value) else seq(32, _ => 0))
            && b[72..80] == EncodeLE(st.registeredAt, 8) && b[80..88] == EncodeLE(st.validUntil, 8) && |b| == 88
  {
    hide EncodeLE, EncodeBE;
    ZeroWord(32);
  }

  lemma {:induction false} ZeroWord(n: nat)
    ensures EncodeBE(0, n) == seq(n, _ => 0)
  {
    if n > 0 { ZeroWord(n - 1); }
  }

  lemma TldEntry(st: TldState)
    ensures var b := EC.EncodeTld(st); b[0..32] == WordBytes(st.owner) && b[32] == (if st.open then 1 else 0) && |b| == 33
  {
    hide WordBytes;
  }

  /** "SCONE-LEAF-DOM-V2" and "SCONE-LEAF-TLD-V2" */
  const LEAF_PREFIX: seq<Byte> := [83, 67, 79, 78, 69, 45, 76, 69, 65, 70, 45]
  const DOMAIN_TAG: seq<Byte> := LEAF_PREFIX + [68, 79, 77, 45, 86, 50]
  const TLD_TAG: seq<Byte> := LEAF_PREFIX + [84, 76, 68, 45, 86, 50]

  /** The bytes hashed into the leaf of an entry. */
  function LeafBytes(y: Leaf): seq<Byte> {
    match y
    case DomainLeaf(id, owner, sequence, registeredAt, validUntil, recordHash) =>
      DOMAIN_TAG + WordBytes(id) + WordBytes(owner) + EncodeBE(sequence, 8) + EncodeBE(registeredAt, 8) +
      EncodeBE(validUntil, 8) + WordBytes(recordHash)
    case TldLeaf(id, owner, open) => TLD_TAG + WordBytes(id) + WordBytes(owner) + [if open then 1 else 0]
  }

  /** Different entries are hashed from different bytes, names and namespaces included. */
  lemma LeafBytesBind(x: Leaf, y: Leaf)
    ensures LeafBytes(x) == LeafBytes(y) <==> x == y
  {
    hide WordBytes, EncodeBE;
    if LeafBytes(x) == LeafBytes(y) {
      if x.DomainLeaf? { DomainLeafFields(x); } else { TldLeafFields(x); }
      if y.DomainLeaf? { DomainLeafFields(y); } else { TldLeafFields(y); }
    }
  }

  lemma DomainLeafFields(y: Leaf)
    requires y.DomainLeaf?
    ensures var b := LeafBytes(y);
            && |b| == 137
            && WordOf(b[17..49]) == y.id && WordOf(b[49..81]) == y.owner && DecodeBE(b[81..89]) == y.sequence
            && DecodeBE(b[89..97]) == y.registeredAt && DecodeBE(b[97..105]) == y.validUntil
            && WordOf(b[105..137]) == y.recordHash
  {
    hide WordBytes, EncodeBE, WordOf, DecodeBE;
    var b := LeafBytes(y);
    assert b[17..49] == WordBytes(y.id) && b[49..81] == WordBytes(y.owner) && b[81..89] == EncodeBE(y.sequence, 8);
    assert b[89..97] == EncodeBE(y.registeredAt, 8) && b[97..105] == EncodeBE(y.validUntil, 8);
    assert b[105..137] == WordBytes(y.recordHash);
    WordRoundTrip(y.id);
    WordRoundTrip(y.owner);
    WordRoundTrip(y.recordHash);
    Widths();
    BERoundTrip(y.sequence, 8);
    BERoundTrip(y.registeredAt, 8);
    BERoundTrip(y.validUntil, 8);
  }

  lemma TldLeafFields(y: Leaf)
    requires y.TldLeaf?
    ensures var b := LeafBytes(y);
            |b| == 82 && WordOf(b[17..49]) == y.id && WordOf(b[49..81]) == y.owner && b[81] == (if y.open then 1 else 0)
  {
    hide WordBytes, WordOf;
    var b := LeafBytes(y);
    assert b[17..49] == WordBytes(y.id) && b[49..81] == WordBytes(y.owner);
    WordRoundTrip(y.id);
    WordRoundTrip(y.owner);
  }

  // ----- signatures -----

  /** A signer record: "SCONE-SIGNER-V1", key, signing hash, epoch, height. */
  lemma SignerRecord(x: S.SignedContext)
    ensures var b := S.ToBytes(x);
            && b[0..15] == [83, 67, 79, 78, 69, 45, 83, 73, 71, 78, 69, 82, 45, 86, 49]
            && b[15..47] == WordBytes(x.signer) && b[47..79] == WordBytes(x.signingHash)
            && b[79..87] == EncodeLE(x.epoch, 8) && b[87..95] == EncodeLE(x.height, 8) && |b| == 95
  {
    hide WordBytes, EncodeLE;
  }

  /** The bytes a member signs: "SCONE-CKPT-V1", epoch, height, recovery counter, the three hashes. */
  lemma SignedCheckpoint(d: CheckpointData)
    ensures var b := CH.SigningBytes(d);
            && b[0..13] == [83, 67, 79, 78, 69, 45, 67, 75, 80, 84, 45, 86, 49]
            && b[13..21] == EncodeLE(d.epoch, 8) && b[21..29] == EncodeLE(d.height, 8) && b[29..33] == EncodeLE(d.recovery, 4)
            && b[33..65] == WordBytes(d.blockHash) && b[65..97] == WordBytes(d.prevCheckpointHash)
            && b[97..129] == WordBytes(d.stateRoot) && |b| == 129
  {
    hide WordBytes, EncodeLE;
  }

  /** The envelope: what is signed, the number of signatures, then key and signature of each in order. It is written
      exactly for at most 64 signatures with strictly rising keys. */
  lemma Envelope(cp: Checkpoint)
    ensures CW.EncodeCheckpoint(cp).Ok? <==>
              |cp.signatures| <= 64 && forall i :: 0 < i < |cp.signatures| ==> cp.signatures[i - 1].0 < cp.signatures[i].0
    ensures CW.EncodeCheckpoint(cp) == Err(TooManySigners) <==> |cp.signatures| > 64
    ensures CW.EncodeCheckpoint(cp).Ok? ==>
              var (b, n) := (CW.EncodeCheckpoint(cp).value, |cp.signatures|);
              && |b| == 130 + 96 * n && b[0..129] == CH.SigningBytes(cp.data) && b[129] == n
              && forall i :: 0 <= i < n ==>
                   && b[130 + 96 * i..162 + 96 * i] == WordBytes(cp.signatures[i].0)
                   && b[162 + 96 * i..226 + 96 * i] == EncodeBE(cp.signatures[i].1, 64)
  {
    hide WordBytes, EncodeBE, CW.EncodeBody, CW.EncodePairs;
    if CW.EncodeCheckpoint(cp).Ok? {
      var (b, n, p) := (CW.EncodeCheckpoint(cp).value, |cp.signatures|, CW.EncodePairs(cp.signatures));
      assert Put(n) == [n];
      assert b == CH.SigningBytes(cp.data) + [n] + p;
      forall i | 0 <= i < n
        ensures b[130 + 96 * i..162 + 96 * i] == WordBytes(cp.signatures[i].0)
        ensures b[162 + 96 * i..226 + 96 * i] == EncodeBE(cp.signatures[i].1, 64)
      {
        PairAt(cp.signatures, i);
        assert b[130 + 96 * i..162 + 96 * i] == p[96 * i..96 * i + 32];
        assert b[162 + 96 * i..226 + 96 * i] == p[96 * i + 32..96 * i + 96];
      }
    }
  }

  lemma {:induction false} PairAt(pairs: seq<(PublicKey, Signature)>, i: nat)
    requires i < |pairs|
    ensures var p := CW.EncodePairs(pairs);
            && p[96 * i..96 * i + 32] == WordBytes(pairs[i].0) && p[96 * i + 32..96 * i + 96] == EncodeBE(pairs[i].1, 64)
  {
    hide WordBytes, EncodeBE;
    var p, rest := CW.EncodePairs(pairs), CW.EncodePairs(pairs[1..]);
    if i > 0 {
      PairAt(pairs[1..], i - 1);
      assert p[96..] == rest;
      assert p[96 * i..96 * i + 32] == rest[96 * (i - 1)..96 * (i - 1) + 32];
      assert p[96 * i + 32..96 * i + 96] == rest[96 * (i - 1) + 32..96 * (i - 1) + 96];
    } else {
      assert p == WordBytes(pairs[0].0) + (EncodeBE(pairs[0].1, 64) + rest);
    }
  }

  /** What is hashed to chain checkpoints: the content's hash, the varint count, and the same pairs. */
  lemma ChainedCheckpoint(c: Crypto, cp: Checkpoint)
    ensures CH.ChainingBytes(c, cp) ==
            WordBytes(c.signingHash(cp.data)) + Put(|cp.signatures|) + CW.EncodePairs(cp.signatures)
    ensures |CW.EncodePairs(cp.signatures)| == 96 * |cp.signatures|
  {
  }

  // ----- varints -----

  function Pow128(n: nat): nat {
    if n == 0 then 1 else 128 * Pow128(n - 1)
  }

  lemma {:induction false} GroupPositive(i: nat)
    ensures Pow128(i) > 0
  {
    if i > 0 { GroupPositive(i - 1); }
  }

  lemma GroupShift(v: nat, i: nat)
    ensures Pow128(i) > 0 && v / 128 / Pow128(i) == v / Pow128(i + 1)
  {
    GroupPositive(i);
    var m := Pow128(i);
    var q := v / 128 / m;
    assert v / 128 == q * m + (v / 128) % m;
    assert 128 * (v / 128) <= v < 128 * (v / 128) + 128;
    assert q * (128 * m) <= v < q * (128 * m) + 128 * m;
    QuotientUnique(v, 128 * m, q);
  }

  /** A varint: seven bits a byte, least significant first, the high bit on every byte but the last, and no byte more
      than the number needs. */
  lemma {:induction false} Varint(v: nat, i: nat)
    requires i < |Put(v)|
    ensures Pow128(i) > 0 && Put(v)[i] % 128 == v / Pow128(i) % 128
    ensures Put(v)[i] >= 128 <==> i < |Put(v)| - 1
    ensures i > 0 ==> v >= Pow128(i)
  {
    if i > 0 {
      assert Put(v)[i] == Put(v / 128)[i - 1];
      Varint(v / 128, i - 1);
      GroupShift(v, i - 1);
      if i > 1 { assert v / 128 >= Pow128(i - 1); }
    }
  }

  /** Why a varint is refused: the bytes end before one without the high bit, ten of them have it, the tenth exceeds the
      64th bit, or the last one is a zero that says nothing. */
  lemma {:induction false} RefusedVarint(b: seq<Byte>, i: nat) returns (n: nat)
    requires i <= 10 && Take(b, i).Err?
    ensures n <= |b| && i + n <= 10 && forall j :: 0 <= j < n ==> b[j] >= 128
    ensures match Take(b, i).error
            case Truncated => n == |b| && i + n < 10
            case VarintTooLong => i + n == 10
            case VarintOverflow => i + n == 9 && n < |b| && 1 < b[n] < 128
            case VarintNotMinimal => i + n > 0 && n < |b| && b[n] == 0
            case _ => false
    decreases 10 - i
  {
    n := 0;
    if i < 10 && b != [] && b[0] >= 128 {
      var m := RefusedVarint(b[1..], i + 1);
      n := m + 1;
      forall j | 0 <= j < n ensures b[j] >= 128 {
        if j > 0 { assert b[1..][j - 1] >= 128; }
      }
    }
  }

  // ----- record sets -----

  /** Each kind of record: its type code, then its address, or the length and the bytes of its data, within bounds. A
      record of unknown type may not borrow a known code. */
  lemma Record(x: RC.RecordData)
    ensures RC.EncodeData(x) ==
              match x
              case A(ip) => Ok([1] + ip)
              case Aaaa(ip) => Ok([28] + ip)
              case Cname(n) => if |n| > 253 then Err(LimitExceeded) else Ok([5] + Put(|n|) + n)
              case Mx(p, n) => if |n| > 253 then Err(LimitExceeded) else Ok([15] + Put(p) + Put(|n|) + n)
              case Txt(t) => if |t| > 4096 then Err(LimitExceeded) else Ok([16] + Put(|t|) + t)
              case Ns(n) => if |n| > 253 then Err(LimitExceeded) else Ok([2] + Put(|n|) + n)
              case Unknown(code, d) =>
                if code in {1, 2, 5, 15, 16, 28} then Err(KnownTypeCode)
                else if |d| > 4096 then Err(LimitExceeded)
                else Ok(Put(code) + Put(|d|) + d)
  {
    assert Put(1) == [1] && Put(28) == [28] && Put(5) == [5] && Put(15) == [15] && Put(16) == [16] && Put(2) == [2];
    hide Put;
    match x
    case Cname(n) => RC.Regroup([5], Put(|n|), n);
    case Mx(p, n) => RC.Regroup([15] + Put(p), Put(|n|), n);
    case Txt(t) => RC.Regroup([16], Put(|t|), t);
    case Ns(n) => RC.Regroup([2], Put(|n|), n);
    case Unknown(code, d) => RC.Regroup(Put(code), Put(|d|), d);
    case _ =>
  }

  /** The order of the set is that of a dictionary: at the first byte where two encodings differ the smaller comes
      first, and a prefix before what it starts. */
  lemma {:induction false} DictionaryOrder(a: seq<Byte>, b: seq<Byte>)
    ensures RS.Less(a, b) <==>
              exists k :: 0 <= k <= |a| && k < |b| && a[..k] == b[..k] && (k == |a| || a[k] < b[k])
    decreases |a|
  {
    if a != [] && b != [] && a[0] == b[0] {
      DictionaryOrder(a[1..], b[1..]);
      if RS.Less(a[1..], b[1..]) {
        var k :| 0 <= k <= |a[1..]| && k < |b[1..]| && a[1..][..k] == b[1..][..k] && (k == |a[1..]| || a[1..][k] < b[1..][k]);
        assert a[..k + 1] == [a[0]] + a[1..][..k] && b[..k + 1] == [b[0]] + b[1..][..k];
      }
      if k :| 0 <= k <= |a| && k < |b| && a[..k] == b[..k] && (k == |a| || a[k] < b[k]) {
        assert k > 0;
        assert a[1..][..k - 1] == a[..k][1..] && b[1..][..k - 1] == b[..k][1..];
        assert 0 <= k - 1 <= |a[1..]| && k - 1 < |b[1..]|;
      }
    } else {
      if RS.Less(a, b) { assert a[..0] == b[..0]; }
      SharedHead(a, b);
    }
  }

  lemma SharedHead(a: seq<Byte>, b: seq<Byte>)
    ensures forall k :: 0 < k <= |a| && k < |b| && a[..k] == b[..k] ==> a[0] == b[0]
  {
    forall k | 0 < k <= |a| && k < |b| && a[..k] == b[..k] ensures a[0] == b[0] {
      assert a[..k][0] == a[0] && b[..k][0] == b[0];
    }
  }

  predicate NoTwins(es: seq<seq<Byte>>) {
    forall i, j :: 0 <= i < j < |es| ==> es[i] != es[j]
  }

  lemma {:induction false} TwinsCount(es: seq<seq<Byte>>)
    ensures NoTwins(es) <==> forall x :: multiset(es)[x] <= 1
    decreases |es|
  {
    if es != [] {
      var head, rest := es[0], es[1..];
      TwinsCount(rest);
      assert es == [head] + rest;
      assert forall x :: multiset(es)[x] == multiset(rest)[x] + if x == head then 1 else 0;
      assert multiset(rest)[head] == 0 <==> head !in rest;
      if NoTwins(es) {
        assert head !in rest;
        forall i, j | 0 <= i < j < |rest| ensures rest[i] != rest[j] { assert es[i + 1] != es[j + 1]; }
      }
      if NoTwins(rest) && head !in rest {
        forall i, j | 0 <= i < j < |es| ensures es[i] != es[j] {
          if i == 0 { assert es[j] == rest[j - 1]; } else { assert rest[i - 1] != rest[j - 1]; }
        }
      }
    }
  }

  predicate InOrder(es: seq<seq<Byte>>) {
    forall i :: 0 < i < |es| ==> !RS.Less(es[i], es[i - 1])
  }

  lemma {:induction false} InsertSorts(e: seq<Byte>, es: seq<seq<Byte>>)
    requires InOrder(es)
    ensures InOrder(RS.InsertBytes(e, es)) && multiset(RS.InsertBytes(e, es)) == multiset(es) + multiset{e}
  {
    hide RS.Less;
    if es != [] {
      RS.LessTotal(es[0], e);
      assert es == [es[0]] + es[1..];
      if RS.Less(es[0], e) {
        forall i | 0 < i < |es[1..]| ensures !RS.Less(es[1..][i], es[1..][i - 1]) { assert !RS.Less(es[i + 1], es[i]); }
        InsertSorts(e, es[1..]);
        var r, rest := RS.InsertBytes(e, es), RS.InsertBytes(e, es[1..]);
        assert rest[0] == e || (es[1..] != [] && rest[0] == es[1]);
        forall i | 0 < i < |r| ensures !RS.Less(r[i], r[i - 1]) {
          if i > 1 { assert !RS.Less(rest[i - 1], rest[i - 2]); } else if rest[0] != e { assert !RS.Less(es[1], es[0]); }
        }
      }
    }
  }

  lemma {:induction false} SortSorts(es: seq<seq<Byte>>)
    ensures InOrder(RS.SortBytes(es)) && multiset(RS.SortBytes(es)) == multiset(es)
  {
    if es != [] {
      SortSorts(es[1..]);
      InsertSorts(es[0], RS.SortBytes(es[1..]));
      assert es == [es[0]] + es[1..];
    }
  }

  lemma CanonicalUnlessTwins(es: seq<seq<Byte>>)
    ensures RS.Canonical(RS.SortBytes(es)) <==> NoTwins(es)
  {
    hide RS.Less, NoTwins, RS.SortBytes;
    var s := RS.SortBytes(es);
    SortSorts(es);
    TwinsCount(es);
    TwinsCount(s);
    if RS.Canonical(s) { RisingHasNoTwins(s); }
    if NoTwins(s) { OrderedWithoutTwins(s); }
  }

  lemma RisingHasNoTwins(s: seq<seq<Byte>>)
    requires RS.Canonical(s)
    ensures NoTwins(s)
  {
    hide RS.Less, RS.Canonical;
    forall i, j | 0 <= i < j < |s| ensures s[i] != s[j] {
      RS.CanonicalFrom(s, i, j);
      RS.LessTotal(s[i], s[j]);
    }
  }

  lemma OrderedWithoutTwins(s: seq<seq<Byte>>)
    requires NoTwins(s) && InOrder(s)
    ensures RS.Canonical(s)
  {
    hide RS.Less;
    forall i | 0 < i < |s| ensures RS.Less(s[i - 1], s[i]) { RS.LessTotal(s[i - 1], s[i]); }
  }

  /** Which record sets have an encoding: the sequence is not zero, there are 1 to 256 records, each has an encoding,
      and no two have the same. The bytes are the id, sequence, expiration and count, then the encodings in order. */
  lemma RecordSetEncodes(r: RC.DnsRecord)
    ensures RS.EncodeRecord(r).Ok? <==>
              && r.sequence != 0 && 0 < |r.records| <= 256
              && (forall i :: 0 <= i < |r.records| ==> RC.EncodeData(r.records[i]).Ok?)
              && forall i, j :: 0 <= i < j < |r.records| ==> RC.EncodeData(r.records[i]) != RC.EncodeData(r.records[j])
    ensures RS.EncodeRecord(r) == Err(InvalidRecord) <==> r.sequence == 0 || r.records == []
    ensures RS.EncodeRecord(r).Ok? ==>
              RS.EncodeRecord(r).value ==
              WordBytes(r.domainId) + Put(r.sequence) + Put(r.expiration) + Put(|r.records|) +
              RS.Joined(RS.SortBytes(RS.Encodings(r.records)))
  {
    hide RC.EncodeData, RS.Canonical, RS.SortBytes, RS.Joined, WordBytes, Put;
    var es := RS.Encodings(r.records);
    RS.NoFailure(r.records);
    FailureIsNotInvalid(r.records);
    CanonicalUnlessTwins(es);
    if forall i :: 0 <= i < |r.records| ==> RC.EncodeData(r.records[i]).Ok? {
      forall i, j | 0 <= i < j < |r.records|
        ensures es[i] == es[j] <==> RC.EncodeData(r.records[i]) == RC.EncodeData(r.records[j])
      {
        assert es[i] == RC.EncodeData(r.records[i]).value && es[j] == RC.EncodeData(r.records[j]).value;
      }
    }
  }

  lemma {:induction false} FailureIsNotInvalid(records: seq<RC.RecordData>)
    ensures RS.FirstFailure(records) != Some(InvalidRecord)
  {
    if records != [] {
      Record(records[0]);
      hide RC.EncodeData;
      FailureIsNotInvalid(records[1..]);
    }
  }
}
