/** The checkpoint envelope on the wire: a tag, a fixed body, signatures strictly sorted by key
    (crates/scone-protocol/src/checkpoint.rs). */
module CheckpointWire {
  import opened Prelude
  import opened Bytes
  import opened Checkpoints
  import opened Wire

  /** "SCONE-CKPT-V1" */
  const CHECKPOINT_WIRE_TAG: seq<Byte> := [83, 67, 79, 78, 69, 45, 67, 75, 80, 84, 45, 86, 49]

  const CHECKPOINT_DATA_LEN: nat := 116
  const MAX_CHECKPOINT_SIGNERS: nat := 64

  /** What the types of the source guarantee: a 32-bit recovery counter, 64-byte signatures, well-formed keys. */
  ghost predicate CheckpointOk(validKey: PublicKey -> bool, cp: Checkpoint) {
    cp.data.recovery < 0x1_0000_0000 && forall i :: 0 <= i < |cp.signatures| ==> PairOk(validKey, cp.signatures[i])
  }

  ghost predicate PairOk(validKey: PublicKey -> bool, pair: (PublicKey, Signature)) {
    validKey(pair.0) && pair.1 < Pow256(64)
  }

  // ----- the fixed body -----

  function EncodeBody(d: CheckpointData): (b: seq<Byte>)
    ensures |b| == CHECKPOINT_DATA_LEN
  {
    EncodeLE(d.epoch, 8) + EncodeLE(d.height, 8) + EncodeLE(d.recovery, 4) +
    WordBytes(d.blockHash) + WordBytes(d.prevCheckpointHash) + WordBytes(d.stateRoot)
  }

  function DecodeBody(b: seq<Byte>): CheckpointData
    requires |b| == CHECKPOINT_DATA_LEN
  {
    CheckpointData(U64Of(b[0..8]), U64Of(b[8..16]), WordOf(b[20..52]), WordOf(b[52..84]), WordOf(b[84..116]),
        DecodeLE(b[16..20]))
  }

  lemma BodyRoundTrip(d: CheckpointData)
    requires d.recovery < 0x1_0000_0000
    ensures DecodeBody(EncodeBody(d)) == d
  {
    hide EncodeLE, DecodeLE, WordBytes, WordOf, U64Of, Pow256;
    var b := EncodeBody(d);
    assert b[0..8] == EncodeLE(d.epoch, 8) && b[8..16] == EncodeLE(d.height, 8) && b[16..20] == EncodeLE(d.recovery, 4);
    assert b[20..52] == WordBytes(d.blockHash) && b[52..84] == WordBytes(d.prevCheckpointHash) &&
        b[84..116] == WordBytes(d.stateRoot);
    U64RoundTrip(d.epoch);
    U64RoundTrip(d.height);
    Widths();
    LERoundTrip(d.recovery, 4);
    WordRoundTrip(d.blockHash);
    WordRoundTrip(d.prevCheckpointHash);
    WordRoundTrip(d.stateRoot);
  }

  lemma BodyCanonical(b: seq<Byte>)
    requires |b| == CHECKPOINT_DATA_LEN
    ensures EncodeBody(DecodeBody(b)) == b && DecodeBody(b).recovery < 0x1_0000_0000
  {
    hide EncodeLE, DecodeLE, WordBytes, WordOf, U64Of, Pow256;
    FixedCanonical(b[0..8]);
    FixedCanonical(b[8..16]);
    LECanonical(b[16..20]);
    Widths();
    WordCanonical(b[20..52]);
    WordCanonical(b[52..84]);
    WordCanonical(b[84..116]);
    assert b == b[0..8] + b[8..16] + b[16..20] + b[20..52] + b[52..84] + b[84..116];
  }

  // ----- signatures -----

  function EncodePair(pair: (PublicKey, Signature)): (b: seq<Byte>)
    ensures |b| == 96
  {
    WordBytes(pair.0) + EncodeBE(pair.1, 64)
  }

  function DecodePair(b: seq<Byte>): (PublicKey, Signature)
    requires |b| == 96
  {
    (WordOf(b[..32]), DecodeBE(b[32..]))
  }

  lemma PairRoundTrip(pair: (PublicKey, Signature))
    requires pair.1 < Pow256(64)
    ensures DecodePair(EncodePair(pair)) == pair
  {
    hide WordBytes, WordOf, EncodeBE, DecodeBE, Pow256;
    assert EncodePair(pair)[..32] == WordBytes(pair.0) && EncodePair(pair)[32..] == EncodeBE(pair.1, 64);
    WordRoundTrip(pair.0);
    BERoundTrip(pair.1, 64);
  }

  lemma PairCanonical(b: seq<Byte>)
    requires |b| == 96
    ensures EncodePair(DecodePair(b)) == b && DecodePair(b).1 < Pow256(64)
  {
    WordCanonical(b[..32]);
    BECanonical(b[32..]);
    hide WordBytes, WordOf, EncodeBE, DecodeBE, Pow256;
    assert b == b[..32] + b[32..];
  }

  function EncodePairs(pairs: seq<(PublicKey, Signature)>): (b: seq<Byte>)
    ensures |b| == 96 * |pairs|
  {
    if pairs == [] then [] else EncodePair(pairs[0]) + EncodePairs(pairs[1..])
  }

  /** Strictly increasing keys, all above `above` if there is one. */
  ghost predicate SignersSorted(pairs: seq<(PublicKey, Signature)>, above: Option<PublicKey>) {
    && (forall i :: 0 < i < |pairs| ==> pairs[i - 1].0 < pairs[i].0)
    && (above.Some? && pairs != [] ==> above.value < pairs[0].0)
  }

  function DecodePairs(validKey: PublicKey -> bool, b: seq<Byte>, count: nat,
      above: Option<PublicKey>): Parse<seq<(PublicKey, Signature)>>
    decreases count
  {
    if count == 0 then Ok(([], b))
    else
      match TakeArray(b, 96)
      case Err(e) => Err(e)
      case Ok((head, rest)) =>
        var pair := DecodePair(head);
        if above.Some? && pair.0 <= above.value then Err(SignersNotSorted)
        else if !validKey(pair.0) then Err(InvalidKey)
        else Joined(pair, DecodePairs(validKey, rest, count - 1, Some(pair.0)))
  }

  function Joined(pair: (PublicKey, Signature), p: Parse<seq<(PublicKey, Signature)>>): Parse<seq<(PublicKey, Signature)>> {
    match p
    case Ok((pairs, rest)) => Ok(([pair] + pairs, rest))
    case Err(e) => Err(e)
  }

  lemma {:induction false} PairsRoundTrip(validKey: PublicKey -> bool, pairs: seq<(PublicKey, Signature)>,
      above: Option<PublicKey>, rest: seq<Byte>)
    requires SignersSorted(pairs, above) && forall i :: 0 <= i < |pairs| ==> PairOk(validKey, pairs[i])
    ensures DecodePairs(validKey, EncodePairs(pairs) + rest, |pairs|, above) == Ok((pairs, rest))
    decreases |pairs|
  {
    hide EncodePair, DecodePair, TakeArray;
    if pairs != [] {
      var tail := EncodePairs(pairs[1..]) + rest;
      assert EncodePairs(pairs) + rest == EncodePair(pairs[0]) + tail;
      ArrayRoundTrip(EncodePair(pairs[0]), tail);
      assert PairOk(validKey, pairs[0]);
      PairRoundTrip(pairs[0]);
      PairsRoundTrip(validKey, pairs[1..], Some(pairs[0].0), rest);
      assert [pairs[0]] + pairs[1..] == pairs;
    } else {
      assert EncodePairs(pairs) + rest == rest;
    }
  }

  lemma {:induction false} PairsCanonical(validKey: PublicKey -> bool, b: seq<Byte>, count: nat, above: Option<PublicKey>)
    requires DecodePairs(validKey, b, count, above).Ok?
    ensures var (pairs, rest) := DecodePairs(validKey, b, count, above).value;
            && |pairs| == count && SignersSorted(pairs, above) && b == EncodePairs(pairs) + rest
            && forall i :: 0 <= i < |pairs| ==> PairOk(validKey, pairs[i])
    decreases count
  {
    hide EncodePair, DecodePair, Pow256;
    if count > 0 {
      var (head, rest) := TakeArray(b, 96).value;
      var pair := DecodePair(head);
      PairCanonical(head);
      PairsCanonical(validKey, rest, count - 1, Some(pair.0));
      var (pairs, left) := DecodePairs(validKey, rest, count - 1, Some(pair.0)).value;
      assert ([pair] + pairs)[1..] == pairs;
      assert head + (EncodePairs(pairs) + left) == head + EncodePairs(pairs) + left;
    } else {
      assert EncodePairs([]) + b == b;
    }
  }

  // ----- the envelope -----

  function SignersInOrder(pairs: seq<(PublicKey, Signature)>): bool {
    forall i :: 0 < i < |pairs| ==> pairs[i - 1].0 < pairs[i].0
  }

  function EncodeCheckpoint(cp: Checkpoint): Result<seq<Byte>> {
    if |cp.signatures| > MAX_CHECKPOINT_SIGNERS then Err(TooManySigners)
    else if !SignersInOrder(cp.signatures) then Err(SignersNotSorted)
    else Ok(CHECKPOINT_WIRE_TAG + EncodeBody(cp.data) + Put(|cp.signatures|) + EncodePairs(cp.signatures))
  }

  function DecodeCheckpoint(validKey: PublicKey -> bool, b: seq<Byte>): Parse<Checkpoint> {
    var tag := TakeArray(b, |CHECKPOINT_WIRE_TAG|);
    if tag.Err? then Err(tag.error) else
    if tag.value.0 != CHECKPOINT_WIRE_TAG then Err(BadTag) else
    var body := TakeArray(tag.value.1, CHECKPOINT_DATA_LEN);
    if body.Err? then Err(body.error) else
    var count := TakeU64(body.value.1);
    if count.Err? then Err(count.error) else
    if count.value.0 > MAX_CHECKPOINT_SIGNERS then Err(TooManySigners) else
    if |count.value.1| < count.value.0 * 96 then Err(Truncated) else
    match DecodePairs(validKey, count.value.1, count.value.0, None)
    case Ok((pairs, rest)) => Ok((Checkpoint(DecodeBody(body.value.0), pairs), rest))
    case Err(e) => Err(e)
  }

  /** A checkpoint is read back exactly from its bytes. */
  lemma CheckpointRoundTrip(validKey: PublicKey -> bool, cp: Checkpoint, rest: seq<Byte>)
    requires CheckpointOk(validKey, cp) && EncodeCheckpoint(cp).Ok?
    ensures DecodeCheckpoint(validKey, EncodeCheckpoint(cp).value + rest) == Ok((cp, rest))
  {
    hide EncodeBody, DecodeBody, Put, TakeU64, EncodePairs, DecodePairs, TakeArray, PairOk;
    var (t, d, c, p) := (CHECKPOINT_WIRE_TAG, EncodeBody(cp.data), Put(|cp.signatures|), EncodePairs(cp.signatures));
    assert t + d + c + p + rest == t + (d + (c + (p + rest)));
    ArrayRoundTrip(t, d + (c + (p + rest)));
    ArrayRoundTrip(d, c + (p + rest));
    U64RoundTrips(|cp.signatures|, p + rest);
    BodyRoundTrip(cp.data);
    PairsRoundTrip(validKey, cp.signatures, None, rest);
  }

  /** Accepted bytes are the one encoding of the checkpoint read. */
  lemma CheckpointCanonical(validKey: PublicKey -> bool, b: seq<Byte>)
    requires DecodeCheckpoint(validKey, b).Ok?
    ensures var (cp, rest) := DecodeCheckpoint(validKey, b).value;
            CheckpointOk(validKey, cp) && EncodeCheckpoint(cp).Ok? && b == EncodeCheckpoint(cp).value + rest
  {
    hide EncodeBody, DecodeBody, Put, TakeU64, EncodePairs, DecodePairs, PairOk;
    var tag := TakeArray(b, |CHECKPOINT_WIRE_TAG|).value;
    var body := TakeArray(tag.1, CHECKPOINT_DATA_LEN).value;
    var count := TakeU64(body.1).value;
    U64Canonical(body.1);
    BodyCanonical(body.0);
    PairsCanonical(validKey, count.1, count.0, None);
    var (pairs, rest) := DecodePairs(validKey, count.1, count.0, None).value;
    var (t, d, c, p) := (tag.0, body.0, Put(count.0), EncodePairs(pairs));
    assert t + (d + (c + (p + rest))) == t + d + c + p + rest;
  }

  /** Writes the envelope, refusing unsorted or repeated signers. */
  method WriteCheckpoint(cp: Checkpoint, out: Writer) returns (r: Result<()>)
    modifies out
    ensures match EncodeCheckpoint(cp)
            case Ok(e) => r == Ok(()) && out.bytes == old(out.bytes) + e
            case Err(e) => r == Err(e)
  {
    hide EncodeBody, Put, EncodePair;
    ghost var start := out.bytes;
    out.Append(CHECKPOINT_WIRE_TAG);
    out.Append(EncodeBody(cp.data));
    if |cp.signatures| > MAX_CHECKPOINT_SIGNERS { return Err(TooManySigners); }
    out.PutU64(|cp.signatures|);
    ghost var head := out.bytes;
    var prev: Option<PublicKey> := None;
    var i := 0;
    assert cp.signatures[0..] == cp.signatures;
    while i < |cp.signatures|
      invariant 0 <= i <= |cp.signatures|
      invariant prev == if i == 0 then None else Some(cp.signatures[i - 1].0)
      invariant forall j :: 0 < j < i ==> cp.signatures[j - 1].0 < cp.signatures[j].0
      invariant out.bytes + EncodePairs(cp.signatures[i..]) == head + EncodePairs(cp.signatures)
    {
      var (pk, sig) := cp.signatures[i];
      if prev.Some? && pk <= prev.value { return Err(SignersNotSorted); }
      prev := Some(pk);
      assert cp.signatures[i..][1..] == cp.signatures[i + 1..];
      PairsStep(out.bytes, cp.signatures[i], EncodePairs(cp.signatures[i + 1..]));
      out.Append(WordBytes(pk));
      out.Append(EncodeBE(sig, 64));
      i := i + 1;
    }
    assert out.bytes + EncodePairs(cp.signatures[i..]) == out.bytes;
    assert out.bytes == start + (CHECKPOINT_WIRE_TAG + EncodeBody(cp.data) + Put(|cp.signatures|) + EncodePairs(cp.signatures));
    r := Ok(());
  }

  lemma PairsStep(before: seq<Byte>, pair: (PublicKey, Signature), rest: seq<Byte>)
    ensures before + WordBytes(pair.0) + EncodeBE(pair.1, 64) + rest == before + (EncodePair(pair) + rest)
  {
  }

  /** Reads the envelope, checking every bound before it takes anything. */
  method ReadCheckpoint(validKey: PublicKey -> bool, input: Cursor) returns (r: Result<Checkpoint>)
    modifies input
    ensures Reads(DecodeCheckpoint(validKey, old(input.rest)), r, input.rest)
  {
    hide DecodeBody, TakeU64, DecodePair, DecodePairs;
    var tag := input.ReadArray(|CHECKPOINT_WIRE_TAG|);
    if tag.Err? { return Err(tag.error); }
    if tag.value != CHECKPOINT_WIRE_TAG { return Err(BadTag); }
    var body := input.ReadArray(CHECKPOINT_DATA_LEN);
    if body.Err? { return Err(body.error); }
    var count := input.ReadU64();
    if count.Err? { return Err(count.error); }
    if count.value > MAX_CHECKPOINT_SIGNERS { return Err(TooManySigners); }
    if |input.rest| < count.value * 96 { return Err(Truncated); }
    var pairs := ReadPairs(validKey, count.value, input);
    if pairs.Err? { return Err(pairs.error); }
    r := Ok(Checkpoint(DecodeBody(body.value), pairs.value));
  }

  method ReadPairs(validKey: PublicKey -> bool, count: nat, input: Cursor) returns (r: Result<seq<(PublicKey, Signature)>>)
    modifies input
    ensures Reads(DecodePairs(validKey, old(input.rest), count, None), r, input.rest)
  {
    hide DecodePair, DecodePairs;
    var pairs: seq<(PublicKey, Signature)>, prev: Option<PublicKey>, i := [], None, 0;
    ghost var whole := DecodePairs(validKey, input.rest, count, None);
    AfterNone(whole);
    while i < count
      invariant 0 <= i <= count
      invariant whole == After(pairs, DecodePairs(validKey, input.rest, count - i, prev))
    {
      PairsUnfold(validKey, input.rest, count - i, prev);
      var head := input.ReadArray(96);
      if head.Err? { return Err(head.error); }
      var pair := DecodePair(head.value);
      if prev.Some? && pair.0 <= prev.value { return Err(SignersNotSorted); }
      if !validKey(pair.0) { return Err(InvalidKey); }
      AfterOne(pairs, pair, DecodePairs(validKey, input.rest, count - i - 1, Some(pair.0)));
      prev := Some(pair.0);
      pairs := pairs + [pair];
      i := i + 1;
    }
    PairsUnfold(validKey, input.rest, 0, prev);
    assert pairs + [] == pairs;
    r := Ok(pairs);
  }

  function After(done: seq<(PublicKey, Signature)>, p: Parse<seq<(PublicKey, Signature)>>): Parse<seq<(PublicKey,
      Signature)>> {
    match p
    case Ok((pairs, rest)) => Ok((done + pairs, rest))
    case Err(e) => Err(e)
  }

  lemma AfterNone(p: Parse<seq<(PublicKey, Signature)>>)
    ensures After([], p) == p
  {
    if p.Ok? { assert [] + p.value.0 == p.value.0; }
  }

  lemma AfterOne(done: seq<(PublicKey, Signature)>, pair: (PublicKey, Signature), p: Parse<seq<(PublicKey, Signature)>>)
    ensures After(done + [pair], p) == After(done, Joined(pair, p))
  {
    if p.Ok? { assert done + [pair] + p.value.0 == done + ([pair] + p.value.0); }
  }

  lemma PairsUnfold(validKey: PublicKey -> bool, b: seq<Byte>, count: nat, above: Option<PublicKey>)
    ensures DecodePairs(validKey, b, count, above) ==
            if count == 0 then Ok(([], b))
            else
              match TakeArray(b, 96)
              case Err(e) => Err(e)
              case Ok((head, rest)) =>
                var pair := DecodePair(head);
                if above.Some? && pair.0 <= above.value then Err(SignersNotSorted)
                else if !validKey(pair.0) then Err(InvalidKey)
                else Joined(pair, DecodePairs(validKey, rest, count - 1, Some(pair.0)))
  {
    hide DecodePair, Joined;
  }
}
