/** What a checkpoint's signatures and its chaining hash commit to (crates/scone-core/src/checkpoint.rs). */
module CheckpointHash {
  import opened Prelude
  import opened Bytes
  import opened Checkpoints
  import opened Wire
  import opened CheckpointWire

  /** The bytes a member signs: the tag and the fixed body. */
  function SigningBytes(d: CheckpointData): seq<Byte> {
    CHECKPOINT_WIRE_TAG + EncodeBody(d)
  }

  /** Two contents are signed as the same bytes only if they are the same content. */
  lemma SigningBytesBind(a: CheckpointData, b: CheckpointData)
    requires a.recovery < 0x1_0000_0000 && b.recovery < 0x1_0000_0000
    ensures SigningBytes(a) == SigningBytes(b) <==> a == b
  {
    hide EncodeBody;
    if SigningBytes(a) == SigningBytes(b) {
      var n := |CHECKPOINT_WIRE_TAG|;
      assert SigningBytes(a)[n..] == EncodeBody(a) && SigningBytes(b)[n..] == EncodeBody(b);
      BodyRoundTrip(a);
      BodyRoundTrip(b);
    }
  }

  /** The bytes hashed into the chaining hash: content hash, count, signatures in order. */
  function ChainingBytes(c: Crypto, cp: Checkpoint): seq<Byte> {
    WordBytes(c.signingHash(cp.data)) + Put(|cp.signatures|) + EncodePairs(cp.signatures)
  }

  method BuildChainingBytes(c: Crypto, cp: Checkpoint) returns (buf: seq<Byte>)
    ensures buf == ChainingBytes(c, cp)
  {
    hide WordBytes, EncodeBE;
    buf := WordBytes(c.signingHash(cp.data));
    ghost var head := buf + Put(|cp.signatures|);
    var n: nat := |cp.signatures|;
    while n >= 128
      invariant buf + Put(n) == head
    {
      assert buf + Put(n) == buf + [n % 128 + 128] + Put(n / 128);
      buf := buf + [n % 128 + 128];
      n := n / 128;
    }
    buf := buf + [n];
    var i := 0;
    assert cp.signatures[0..] == cp.signatures;
    while i < |cp.signatures|
      invariant 0 <= i <= |cp.signatures|
      invariant buf + EncodePairs(cp.signatures[i..]) == head + EncodePairs(cp.signatures)
    {
      assert cp.signatures[i..][1..] == cp.signatures[i + 1..];
      PairsStep(buf, cp.signatures[i], EncodePairs(cp.signatures[i + 1..]));
      buf := buf + WordBytes(cp.signatures[i].0) + EncodeBE(cp.signatures[i].1, 64);
      i := i + 1;
    }
    assert buf + EncodePairs(cp.signatures[i..]) == buf;
  }

  lemma {:induction false} PairsBind(a: seq<(PublicKey, Signature)>, b: seq<(PublicKey, Signature)>)
    requires EncodePairs(a) == EncodePairs(b)
    requires forall i :: 0 <= i < |a| ==> a[i].1 < Pow256(64)
    requires forall i :: 0 <= i < |b| ==> b[i].1 < Pow256(64)
    ensures a == b
    decreases |a|
  {
    hide EncodePair, Pow256;
    assert |a| == |b|;
    if a != [] {
      assert EncodePairs(a)[..96] == EncodePair(a[0]) && EncodePairs(a)[96..] == EncodePairs(a[1..]);
      assert EncodePairs(b)[..96] == EncodePair(b[0]) && EncodePairs(b)[96..] == EncodePairs(b[1..]);
      PairRoundTrip(a[0]);
      PairRoundTrip(b[0]);
      PairsBind(a[1..], b[1..]);
      assert a == [a[0]] + a[1..] && b == [b[0]] + b[1..];
    }
  }

  /** The chaining hash commits to the content hash and to every signature in its place. */
  lemma ChainingBytesBind(c: Crypto, a: Checkpoint, b: Checkpoint)
    requires |a.signatures| <= U64_MAX && |b.signatures| <= U64_MAX
    requires forall i :: 0 <= i < |a.signatures| ==> a.signatures[i].1 < Pow256(64)
    requires forall i :: 0 <= i < |b.signatures| ==> b.signatures[i].1 < Pow256(64)
    ensures ChainingBytes(c, a) == ChainingBytes(c, b) <==>
              c.signingHash(a.data) == c.signingHash(b.data) && a.signatures == b.signatures
  {
    hide WordBytes, WordOf, EncodePairs, Put, TakeU64, Pow256;
    if ChainingBytes(c, a) == ChainingBytes(c, b) {
      var (x, y) := (Put(|a.signatures|) + EncodePairs(a.signatures), Put(|b.signatures|) + EncodePairs(b.signatures));
      assert ChainingBytes(c, a) == WordBytes(c.signingHash(a.data)) + x
          && ChainingBytes(c, b) == WordBytes(c.signingHash(b.data)) + y;
      assert ChainingBytes(c, a)[..32] == WordBytes(c.signingHash(a.data)) && ChainingBytes(c, a)[32..] == x;
      assert ChainingBytes(c, b)[..32] == WordBytes(c.signingHash(b.data)) && ChainingBytes(c, b)[32..] == y;
      WordRoundTrip(c.signingHash(a.data));
      WordRoundTrip(c.signingHash(b.data));
      U64RoundTrips(|a.signatures|, EncodePairs(a.signatures));
      U64RoundTrips(|b.signatures|, EncodePairs(b.signatures));
      PairsBind(a.signatures, b.signatures);
    }
  }
}
