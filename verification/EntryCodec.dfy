/** The stored form of registry entries (crates/scone-blockchain/src/state.rs): 88 bytes a domain, 33 a namespace. */
module EntryCodec {
  import opened Prelude
  import opened Bytes
  import opened Ledger

  const DOMAIN_ENTRY_LEN: nat := 88
  const TLD_ENTRY_LEN: nat := 33

  function EncodeDomain(st: DomainState): (b: seq<Byte>)
    ensures |b| == DOMAIN_ENTRY_LEN
  {
    WordBytes(st.owner) + EncodeLE(st.sequence, 8) + WordBytes(if st.recordHash.Some? then st.recordHash.value else 0) +
    EncodeLE(st.registeredAt, 8) + EncodeLE(st.validUntil, 8)
  }

  function DecodeDomain(b: seq<Byte>): Option<DomainState> {
    if |b| != DOMAIN_ENTRY_LEN then None
    else
      var rh := WordOf(b[40..72]);
      Some(DomainState(WordOf(b[0..32]), U64Of(b[32..40]), if rh == 0 then None
          else Some(rh), U64Of(b[72..80]), U64Of(b[80..88])))
  }

  lemma EntryParts(o: seq<Byte>, s: seq<Byte>, h: seq<Byte>, r: seq<Byte>, v: seq<Byte>)
    requires |o| == 32 && |s| == 8 && |h| == 32 && |r| == 8 && |v| == 8
    ensures var b := o + s + h + r + v; b[0..32] == o && b[32..40] == s && b[40..72] == h && b[72..80] == r && b[80..88] == v
  {
  }

  /** Storing an entry and reading it back gives the entry, except that an all-zero record hash reads back as none. */
  lemma DomainRoundTrip(st: DomainState)
    ensures DecodeDomain(EncodeDomain(st)) == Some(Stored(st))
  {
    hide WordBytes, WordOf, EncodeLE, U64Of;
    var b, rh := EncodeDomain(st), if st.recordHash.Some? then st.recordHash.value else 0;
    EntryParts(WordBytes(st.owner), EncodeLE(st.sequence, 8), WordBytes(rh), EncodeLE(st.registeredAt, 8),
        EncodeLE(st.validUntil, 8));
    WordRoundTrip(st.owner);
    WordRoundTrip(rh);
    U64RoundTrip(st.sequence);
    U64RoundTrip(st.registeredAt);
    U64RoundTrip(st.validUntil);
  }

  /** So the round trip is exact if and only if the record hash is not all zero. */
  lemma DomainExact(st: DomainState)
    ensures DecodeDomain(EncodeDomain(st)) == Some(st) <==> st.recordHash != Some(0)
  {
    DomainRoundTrip(st);
  }

  /** Every stored domain entry of the right length re-encodes to itself. */
  lemma DomainCanonical(b: seq<Byte>)
    requires |b| == DOMAIN_ENTRY_LEN
    ensures EncodeDomain(DecodeDomain(b).value) == b
  {
    hide WordBytes, WordOf, EncodeLE, U64Of, DecodeLE;
    WordCanonical(b[0..32]);
    WordCanonical(b[40..72]);
    FixedCanonical(b[32..40]);
    FixedCanonical(b[72..80]);
    FixedCanonical(b[80..88]);
    assert b == b[0..32] + b[32..40] + b[40..72] + b[72..80] + b[80..88];
  }

  function EncodeTld(st: TldState): (b: seq<Byte>)
    ensures |b| == TLD_ENTRY_LEN
  {
    WordBytes(st.owner) + [if st.open then 1 else 0]
  }

  function DecodeTld(b: seq<Byte>): Option<TldState> {
    if |b| != TLD_ENTRY_LEN then None else Some(TldState(WordOf(b[0..32]), b[32] != 0))
  }

  lemma TldRoundTrip(st: TldState)
    ensures DecodeTld(EncodeTld(st)) == Some(st)
  {
    hide WordBytes, WordOf;
    assert EncodeTld(st)[0..32] == WordBytes(st.owner);
    WordRoundTrip(st.owner);
  }

  /** Any non-zero flag reads as open, so re-encoding is exact only for the flags 0 and 1. */
  lemma TldCanonical(b: seq<Byte>)
    requires |b| == TLD_ENTRY_LEN
    ensures EncodeTld(DecodeTld(b).value) == b <==> b[32] <= 1
  {
    WordCanonical(b[0..32]);
    hide WordBytes, WordOf;
    var e := EncodeTld(DecodeTld(b).value);
    assert b == b[0..32] + [b[32]];
    assert e[32] == if b[32] != 0 then 1 else 0;
  }
}
