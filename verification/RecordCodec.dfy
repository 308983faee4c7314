/** The canonical wire form of DNS record sets: the set is written sorted by the bytes of its members
    (crates/scone-protocol/src/record.rs). */
module RecordCodec {
  import opened Prelude
  import opened Bytes
  import opened Wire

  const MAX_NAME_LEN: nat := 253
  const MAX_TXT_LEN: nat := 4096
  const MAX_UNKNOWN_DATA: nat := 4096
  const MAX_RECORDS_PER_SET: nat := 256

  const TYPE_A: nat := 1
  const TYPE_NS: nat := 2
  const TYPE_CNAME: nat := 5
  const TYPE_MX: nat := 15
  const TYPE_TXT: nat := 16
  const TYPE_AAAA: nat := 28

  type Ipv4 = b: seq<Byte> | |b| == 4 witness [0, 0, 0, 0]
  type Ipv6 = b: seq<Byte> | |b| == 16 witness [0, 0, 0, 0, 0, 0, 0, 0, 0, 0, 0, 0, 0, 0, 0, 0]

  /** The text rules: which bytes are UTF-8 and which strings are domain names. */
  datatype TextRules = TextRules(utf8: seq<Byte> -> bool, nameOk: seq<Byte> -> bool)

  datatype RecordData =
    | A(ip4: Ipv4)
    | Aaaa(ip6: Ipv6)
    | Cname(name: seq<Byte>)
    | Mx(preference: U16, exchange: seq<Byte>)
    | Txt(text: seq<Byte>)
    | Ns(name: seq<Byte>)
    | Unknown(typeCode: U16, data: seq<Byte>)

  datatype DnsRecord = DnsRecord(domainId: Word32, sequence: U64, expiration: U64, records: seq<RecordData>)

  predicate IsName(T: TextRules, b: seq<Byte>) {
    |b| <= MAX_NAME_LEN && T.utf8(b) && T.nameOk(b)
  }

  /** Names are valid names and texts are UTF-8: what the types of the source guarantee. */
  predicate DataOk(T: TextRules, x: RecordData) {
    match x
    case Cname(n) => IsName(T, n)
    case Ns(n) => IsName(T, n)
    case Mx(_, n) => IsName(T, n)
    case Txt(t) => T.utf8(t)
    case _ => true
  }

  predicate IsKnown(code: U16) {
    code in {TYPE_A, TYPE_NS, TYPE_CNAME, TYPE_MX, TYPE_TXT, TYPE_AAAA}
  }

  // ----- one record -----

  function Prefixed(head: seq<Byte>, tail: Result<seq<Byte>>): Result<seq<Byte>> {
    if tail.Ok? then Ok(head + tail.value) else tail
  }

  function EncodeData(x: RecordData): Result<seq<Byte>> {
    match x
    case A(ip) => Ok(Put(TYPE_A) + ip)
    case Aaaa(ip) => Ok(Put(TYPE_AAAA) + ip)
    case Cname(n) => Prefixed(Put(TYPE_CNAME), PutBounded(n, MAX_NAME_LEN))
    case Mx(p, n) => Prefixed(Put(TYPE_MX) + Put(p), PutBounded(n, MAX_NAME_LEN))
    case Txt(t) => Prefixed(Put(TYPE_TXT), PutBounded(t, MAX_TXT_LEN))
    case Ns(n) => Prefixed(Put(TYPE_NS), PutBounded(n, MAX_NAME_LEN))
    case Unknown(code, data) =>
      if IsKnown(code) then Err(KnownTypeCode) else Prefixed(Put(code), PutBounded(data, MAX_UNKNOWN_DATA))
  }

  function TakeU16(b: seq<Byte>): Parse<U16> {
    match TakeU64(b)
    case Ok((v, rest)) => if v < 0x1_0000 then Ok((v, rest)) else Err(IntegerOutOfRange)
    case Err(e) => Err(e)
  }

  function TakeName(T: TextRules, b: seq<Byte>): Parse<seq<Byte>> {
    match TakeBytes(b, MAX_NAME_LEN)
    case Ok((n, rest)) => if !T.utf8(n) then Err(InvalidUtf8) else if !T.nameOk(n) then Err(InvalidName) else Ok((n, rest))
    case Err(e) => Err(e)
  }

  function TakeText(T: TextRules, b: seq<Byte>): Parse<seq<Byte>> {
    match TakeBytes(b, MAX_TXT_LEN)
    case Ok((t, rest)) => if T.utf8(t) then Ok((t, rest)) else Err(InvalidUtf8)
    case Err(e) => Err(e)
  }

  function Then<X, Y>(p: Parse<X>, f: X -> Y): Parse<Y> {
    match p
    case Ok((x, rest)) => Ok((f(x), rest))
    case Err(e) => Err(e)
  }

  function DecodePayload(T: TextRules, code: U16, b: seq<Byte>): Parse<RecordData> {
    if code == TYPE_A then
      var p := TakeArray(b, 4);
      if p.Ok? then Ok((A(p.value.0), p.value.1)) else Err(p.error)
    else if code == TYPE_AAAA then
      var p := TakeArray(b, 16);
      if p.Ok? then Ok((Aaaa(p.value.0), p.value.1)) else Err(p.error)
    else if code == TYPE_CNAME then Then(TakeName(T, b), n => Cname(n))
    else if code == TYPE_MX then
      match TakeU16(b)
      case Ok((preference, rest)) => Then(TakeName(T, rest), n => Mx(preference, n))
      case Err(e) => Err(e)
    else if code == TYPE_TXT then Then(TakeText(T, b), t => Txt(t))
    else if code == TYPE_NS then Then(TakeName(T, b), n => Ns(n))
    else Then(TakeBytes(b, MAX_UNKNOWN_DATA), d => Unknown(code, d))
  }

  function DecodeData(T: TextRules, b: seq<Byte>): Parse<RecordData> {
    match TakeU16(b)
    case Ok((code, rest)) => DecodePayload(T, code, rest)
    case Err(e) => Err(e)
  }

  lemma U16RoundTrip(v: U16, rest: seq<Byte>)
    ensures TakeU16(Put(v) + rest) == Ok((v, rest))
  {
    U64RoundTrips(v, rest);
  }

  lemma NameRoundTrip(T: TextRules, n: seq<Byte>, rest: seq<Byte>)
    requires IsName(T, n)
    ensures TakeName(T, PutBounded(n, MAX_NAME_LEN).value + rest) == Ok((n, rest))
  {
    BytesRoundTrip(n, MAX_NAME_LEN, rest);
  }

  lemma Regroup(a: seq<Byte>, b: seq<Byte>, c: seq<Byte>)
    ensures a + b + c == a + (b + c)
  {
  }

  /** A record is read back from its bytes, whatever follows. */
  lemma DataRoundTrip(T: TextRules, x: RecordData, rest: seq<Byte>)
    requires DataOk(T, x) && EncodeData(x).Ok?
    ensures DecodeData(T, EncodeData(x).value + rest) == Ok((x, rest))
  {
    hide Put, TakeU16, TakeBytes, TakeName, PutBounded, TakeArray;
    PutBoundedFits(x);
    match x
    case A(ip) =>
      Regroup(Put(TYPE_A), ip, rest);
      U16RoundTrip(TYPE_A, ip + rest);
      ArrayRoundTrip(ip, rest);
    case Aaaa(ip) =>
      Regroup(Put(TYPE_AAAA), ip, rest);
      U16RoundTrip(TYPE_AAAA, ip + rest);
      ArrayRoundTrip(ip, rest);
    case Cname(n) =>
      var e := PutBounded(n, MAX_NAME_LEN).value;
      Regroup(Put(TYPE_CNAME), e, rest);
      U16RoundTrip(TYPE_CNAME, e + rest);
      NameRoundTrip(T, n, rest);
    case Ns(n) =>
      var e := PutBounded(n, MAX_NAME_LEN).value;
      Regroup(Put(TYPE_NS), e, rest);
      U16RoundTrip(TYPE_NS, e + rest);
      NameRoundTrip(T, n, rest);
    case Mx(p, n) =>
      var e := PutBounded(n, MAX_NAME_LEN).value;
      Regroup(Put(TYPE_MX) + Put(p), e, rest);
      Regroup(Put(TYPE_MX), Put(p), e + rest);
      U16RoundTrip(TYPE_MX, Put(p) + (e + rest));
      U16RoundTrip(p, e + rest);
      NameRoundTrip(T, n, rest);
    case Txt(t) =>
      var e := PutBounded(t, MAX_TXT_LEN).value;
      Regroup(Put(TYPE_TXT), e, rest);
      U16RoundTrip(TYPE_TXT, e + rest);
      BytesRoundTrip(t, MAX_TXT_LEN, rest);
    case Unknown(code, d) =>
      var e := PutBounded(d, MAX_UNKNOWN_DATA).value;
      Regroup(Put(code), e, rest);
      U16RoundTrip(code, e + rest);
      BytesRoundTrip(d, MAX_UNKNOWN_DATA, rest);
  }

  lemma PutBoundedFits(x: RecordData)
    ensures forall bytes, max :: PutBounded(bytes, max).Ok? <==> |bytes| <= max
  {
  }

  lemma NameCanonical(T: TextRules, b: seq<Byte>)
    requires TakeName(T, b).Ok?
    ensures var (n, rest) := TakeName(T, b).value;
            && IsName(T, n) && PutBounded(n, MAX_NAME_LEN).Ok?
            && b == PutBounded(n, MAX_NAME_LEN).value + rest
  {
    BytesCanonical(b, MAX_NAME_LEN);
  }

  lemma U16Canonical(b: seq<Byte>)
    requires TakeU16(b).Ok?
    ensures b == Put(TakeU16(b).value.0) + TakeU16(b).value.1
  {
    U64Canonical(b);
  }

  lemma PayloadCanonical(T: TextRules, code: U16, b: seq<Byte>)
    requires DecodePayload(T, code, b).Ok?
    ensures var (x, rest) := DecodePayload(T, code, b).value;
            DataOk(T, x) && EncodeData(x).Ok? && Put(code) + b == EncodeData(x).value + rest
  {
    hide Put, TakeU16, TakeBytes, TakeName, PutBounded;
    var (x, rest) := DecodePayload(T, code, b).value;
    PutBoundedFits(x);
    match x
    case A(ip) =>
      Regroup(Put(code), ip, rest);
    case Aaaa(ip) =>
      Regroup(Put(code), ip, rest);
    case Cname(n) =>
      NameCanonical(T, b);
      Regroup(Put(code), PutBounded(n, MAX_NAME_LEN).value, rest);
    case Ns(n) =>
      NameCanonical(T, b);
      Regroup(Put(code), PutBounded(n, MAX_NAME_LEN).value, rest);
    case Mx(p, n) =>
      U16Canonical(b);
      var tail := TakeU16(b).value.1;
      NameCanonical(T, tail);
      var e := PutBounded(n, MAX_NAME_LEN).value;
      Regroup(Put(code), Put(p), e + rest);
      Regroup(Put(code) + Put(p), e, rest);
    case Txt(t) =>
      BytesCanonical(b, MAX_TXT_LEN);
      Regroup(Put(code), PutBounded(t, MAX_TXT_LEN).value, rest);
    case Unknown(_, d) =>
      BytesCanonical(b, MAX_UNKNOWN_DATA);
      Regroup(Put(code), PutBounded(d, MAX_UNKNOWN_DATA).value, rest);
  }

  /** Accepted record bytes are the one encoding of what was read. */
  lemma DataCanonical(T: TextRules, b: seq<Byte>)
    requires DecodeData(T, b).Ok?
    ensures var (x, rest) := DecodeData(T, b).value; DataOk(T, x) && EncodeData(x).Ok? && b == EncodeData(x).value + rest
  {
    hide DecodePayload, EncodeData, DataOk;
    U16Canonical(b);
    PayloadCanonical(T, TakeU16(b).value.0, TakeU16(b).value.1);
  }

  method WriteData(x: RecordData, out: Writer) returns (r: Result<()>)
    modifies out
    ensures match EncodeData(x)
            case Ok(e) => r == Ok(()) && out.bytes == old(out.bytes) + e
            case Err(e) => r == Err(e)
  {
    hide Put, PutBounded;
    ghost var start := out.bytes;
    r := Ok(());
    match x {
      case A(ip) =>
        out.PutU64(TYPE_A);
        out.Append(ip);
        Regroup(start, Put(TYPE_A), ip);
      case Aaaa(ip) =>
        out.PutU64(TYPE_AAAA);
        out.Append(ip);
        Regroup(start, Put(TYPE_AAAA), ip);
      case Cname(n) =>
        r := WriteTyped(TYPE_CNAME, n, MAX_NAME_LEN, out);
      case Mx(p, n) =>
        out.PutU64(TYPE_MX);
        out.PutU64(p);
        r := out.PutBytes(n, MAX_NAME_LEN);
        if r.Ok? {
          Regroup(start, Put(TYPE_MX), Put(p));
          Regroup(start, Put(TYPE_MX) + Put(p), PutBounded(n, MAX_NAME_LEN).value);
        }
      case Txt(t) =>
        r := WriteTyped(TYPE_TXT, t, MAX_TXT_LEN, out);
      case Ns(n) =>
        r := WriteTyped(TYPE_NS, n, MAX_NAME_LEN, out);
      case Unknown(code, d) =>
        if IsKnown(code) { return Err(KnownTypeCode); }
        r := WriteTyped(code, d, MAX_UNKNOWN_DATA, out);
    }
  }

  method WriteTyped(code: U16, payload: seq<Byte>, max: nat, out: Writer) returns (r: Result<()>)
    requires max <= U64_MAX
    modifies out
    ensures match Prefixed(Put(code), PutBounded(payload, max))
            case Ok(e) => r == Ok(()) && out.bytes == old(out.bytes) + e
            case Err(e) => r == Err(e)
  {
    hide Put, PutBounded;
    ghost var start := out.bytes;
    out.PutU64(code);
    r := out.PutBytes(payload, max);
    if r.Ok? { Regroup(start, Put(code), PutBounded(payload, max).value); }
  }

  method ReadU16(input: Cursor) returns (r: Result<U16>)
    modifies input
    ensures Reads(TakeU16(old(input.rest)), r, input.rest)
  {
    var v := input.ReadU64();
    if v.Err? { return Err(v.error); }
    r := if v.value < 0x1_0000 then Ok(v.value) else Err(IntegerOutOfRange);
  }

  method ReadName(T: TextRules, input: Cursor) returns (r: Result<seq<Byte>>)
    modifies input
    ensures Reads(TakeName(T, old(input.rest)), r, input.rest)
  {
    var n := input.ReadBytes(MAX_NAME_LEN);
    if n.Err? { return n; }
    r := if !T.utf8(n.value) then Err(InvalidUtf8) else if !T.nameOk(n.value) then Err(InvalidName) else n;
  }

  method ReadData(T: TextRules, input: Cursor) returns (r: Result<RecordData>)
    modifies input
    ensures Reads(DecodeData(T, old(input.rest)), r, input.rest)
  {
    hide TakeU16, TakeBytes, TakeName;
    var code := ReadU16(input);
    if code.Err? { return Err(code.error); }
    if code.value == TYPE_A {
      var ip := input.ReadArray(4);
      r := if ip.Ok? then Ok(A(ip.value)) else Err(ip.error);
    } else if code.value == TYPE_AAAA {
      var ip := input.ReadArray(16);
      r := if ip.Ok? then Ok(Aaaa(ip.value)) else Err(ip.error);
    } else if code.value == TYPE_CNAME {
      var n := ReadName(T, input);
      r := if n.Ok? then Ok(Cname(n.value)) else Err(n.error);
    } else if code.value == TYPE_MX {
      var preference := ReadU16(input);
      if preference.Err? { return Err(preference.error); }
      var n := ReadName(T, input);
      r := if n.Ok? then Ok(Mx(preference.value, n.value)) else Err(n.error);
    } else if code.value == TYPE_TXT {
      var t := input.ReadBytes(MAX_TXT_LEN);
      if t.Err? { return Err(t.error); }
      r := if T.utf8(t.value) then Ok(Txt(t.value)) else Err(InvalidUtf8);
    } else if code.value == TYPE_NS {
      var n := ReadName(T, input);
      r := if n.Ok? then Ok(Ns(n.value)) else Err(n.error);
    } else {
      var d := input.ReadBytes(MAX_UNKNOWN_DATA);
      r := if d.Ok? then Ok(Unknown(code.value, d.value)) else Err(d.error);
    }
  }
}
