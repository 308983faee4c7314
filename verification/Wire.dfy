/** Byte-level primitives of the wire format: minimal varints, bounded byte strings, a reading cursor and
    a growing output (crates/scone-protocol/src/varint.rs, codec.rs). */
module Wire {
  import opened Prelude
  import opened Bytes

  datatype WireError =
    | Truncated | VarintTooLong | VarintOverflow | VarintNotMinimal | LimitExceeded | InvalidUtf8 | InvalidName
    | IntegerOutOfRange | KnownTypeCode | DuplicateRecord | NotSorted | InvalidRecord | TrailingBytes(count: nat)
    | BadTag | TooManySigners | SignersNotSorted | InvalidKey

  datatype Result<+T> = Ok(value: T) | Err(error: WireError)

  /** A value read from the front of some bytes, and what is left of them. */
  type Parse<T> = Result<(T, seq<Byte>)>

  /** What a cursor method must answer, given the parse of its old contents. */
  ghost predicate Reads<T>(spec: Parse<T>, result: Result<T>, rest: seq<Byte>) {
    match spec
    case Ok(p) => result == Ok(p.0) && rest == p.1
    case Err(e) => result == Err(e)
  }

  const MAX_VARINT_LEN: nat := 10

  // ----- varints -----

  /** Base 128, least significant group first, high bit on every byte but the last. */
  function Put(v: nat): (b: seq<Byte>)
    ensures b != []
  {
    if v < 128 then [v] else [v % 128 + 128] + Put(v / 128)
  }

  function Take(b: seq<Byte>, i: nat): Parse<nat>
    decreases MAX_VARINT_LEN - i
  {
    if i >= MAX_VARINT_LEN then Err(VarintTooLong)
    else if b == [] then Err(Truncated)
    else if b[0] < 128 then
      if i == MAX_VARINT_LEN - 1 && b[0] > 1 then Err(VarintOverflow)
      else if i > 0 && b[0] == 0 then Err(VarintNotMinimal)
      else Ok((b[0], b[1..]))
    else Scaled(Take(b[1..], i + 1), b[0] - 128, 128)
  }

  function Scaled(p: Parse<nat>, low: nat, scale: nat): Parse<nat> {
    match p
    case Ok((v, rest)) => Ok((low + scale * v, rest))
    case Err(e) => Err(e)
  }

  /** One more than the largest value bytes i and up can add. */
  function Bound(i: nat): nat
    requires i < MAX_VARINT_LEN
    decreases MAX_VARINT_LEN - i
  {
    if i == MAX_VARINT_LEN - 1 then 2 else 128 * Bound(i + 1)
  }

  lemma BoundIsU64()
    ensures Bound(0) == U64_MAX + 1
  {
    assert Bound(6) == 128 * 128 * 128 * 2;
    assert Bound(3) == 128 * 128 * 128 * Bound(6);
  }

  /** A number that fits is read back, and nothing after it is touched. */
  lemma {:induction false} TakePut(v: nat, rest: seq<Byte>, i: nat)
    requires i < MAX_VARINT_LEN && v < Bound(i) && (i > 0 ==> v > 0)
    ensures Take(Put(v) + rest, i) == Ok((v, rest))
    decreases v
  {
    var b := Put(v) + rest;
    if v < 128 {
      assert b[1..] == rest;
    } else {
      assert b[1..] == Put(v / 128) + rest;
      TakePut(v / 128, rest, i + 1);
    }
  }

  /** What is read was the one encoding of its value. */
  lemma {:induction false} TakeIsPut(b: seq<Byte>, i: nat)
    requires i < MAX_VARINT_LEN && Take(b, i).Ok?
    ensures var (v, rest) := Take(b, i).value; v < Bound(i) && (i > 0 ==> v > 0) && b == Put(v) + rest
    decreases MAX_VARINT_LEN - i
  {
    if b[0] >= 128 {
      TakeIsPut(b[1..], i + 1);
      var (v, rest) := Take(b[1..], i + 1).value;
      var w := b[0] - 128 + 128 * v;
      assert w % 128 == b[0] - 128 && w / 128 == v;
      assert b == [b[0]] + b[1..];
    }
  }

  /** The varint at the front of some bytes. */
  function TakeU64(b: seq<Byte>): Parse<U64> {
    match Take(b, 0)
    case Ok((v, rest)) => if v <= U64_MAX then Ok((v, rest)) else Err(VarintOverflow)
    case Err(e) => Err(e)
  }

  lemma U64RoundTrips(v: U64, rest: seq<Byte>)
    ensures TakeU64(Put(v) + rest) == Ok((v, rest))
  {
    BoundIsU64();
    TakePut(v, rest, 0);
  }

  lemma U64Canonical(b: seq<Byte>)
    requires TakeU64(b).Ok?
    ensures b == Put(TakeU64(b).value.0) + TakeU64(b).value.1
  {
    TakeIsPut(b, 0);
  }

  /** The u64 bound is already enforced byte by byte. */
  lemma TakeU64IsTake(b: seq<Byte>)
    ensures Take(b, 0).Ok? ==> Take(b, 0).value.0 <= U64_MAX
  {
    BoundIsU64();
    if Take(b, 0).Ok? { TakeIsPut(b, 0); }
  }

  lemma {:induction false} PutLength(v: nat, i: nat)
    requires i < MAX_VARINT_LEN && v < Bound(i)
    ensures |Put(v)| <= MAX_VARINT_LEN - i
    decreases v
  {
    if v >= 128 { PutLength(v / 128, i + 1); }
  }

  // ----- byte strings -----

  function PutBounded(bytes: seq<Byte>, max: nat): Result<seq<Byte>> {
    if |bytes| > max then Err(LimitExceeded) else Ok(Put(|bytes|) + bytes)
  }

  function TakeBytes(b: seq<Byte>, max: nat): Parse<seq<Byte>> {
    match TakeU64(b)
    case Err(e) => Err(e)
    case Ok((len, rest)) =>
      if len > max then Err(LimitExceeded)
      else if |rest| < len then Err(Truncated)
      else Ok((rest[..len], rest[len..]))
  }

  lemma BytesRoundTrip(bytes: seq<Byte>, max: nat, rest: seq<Byte>)
    requires |bytes| <= max <= U64_MAX
    ensures TakeBytes(PutBounded(bytes, max).value + rest, max) == Ok((bytes, rest))
  {
    U64RoundTrips(|bytes|, bytes + rest);
    assert Put(|bytes|) + bytes + rest == Put(|bytes|) + (bytes + rest);
    assert (bytes + rest)[..|bytes|] == bytes && (bytes + rest)[|bytes|..] == rest;
  }

  lemma BytesCanonical(b: seq<Byte>, max: nat)
    requires TakeBytes(b, max).Ok?
    ensures var (bytes, rest) := TakeBytes(b, max).value;
            |bytes| <= max && b == PutBounded(bytes, max).value + rest
  {
    U64Canonical(b);
    var (len, tail) := TakeU64(b).value;
    assert tail == tail[..len] + tail[len..];
    assert Put(len) + (tail[..len] + tail[len..]) == Put(len) + tail[..len] + tail[len..];
  }

  function TakeArray(b: seq<Byte>, n: nat): (p: Parse<seq<Byte>>)
    ensures p.Ok? ==> |p.value.0| == n && b == p.value.0 + p.value.1
  {
    if |b| < n then Err(Truncated) else Ok((b[..n], b[n..]))
  }

  lemma ArrayRoundTrip(a: seq<Byte>, rest: seq<Byte>)
    ensures TakeArray(a + rest, |a|) == Ok((a, rest))
  {
    assert (a + rest)[..|a|] == a && (a + rest)[|a|..] == rest;
  }

  /** Nothing may follow a complete value. */
  function Complete<T>(p: Parse<T>): Result<T> {
    match p
    case Ok((v, rest)) => if rest == [] then Ok(v) else Err(TrailingBytes(|rest|))
    case Err(e) => Err(e)
  }

  // ----- reading and writing in place -----

  class Writer {
    var bytes: seq<Byte>

    constructor ()
      ensures bytes == []
    {
      bytes := [];
    }

    method Append(more: seq<Byte>)
      modifies this
      ensures bytes == old(bytes) + more
    {
      bytes := bytes + more;
    }

    method PutU64(value: U64)
      modifies this
      ensures bytes == old(bytes) + Put(value)
    {
      var v: nat := value;
      while v >= 128
        invariant bytes + Put(v) == old(bytes) + Put(value)
      {
        assert bytes + Put(v) == bytes + [v % 128 + 128] + Put(v / 128);
        bytes := bytes + [v % 128 + 128];
        v := v / 128;
      }
      bytes := bytes + [v];
    }

    method PutBytes(more: seq<Byte>, max: nat) returns (r: Result<()>)
      requires max <= U64_MAX
      modifies this
      ensures match PutBounded(more, max)
              case Ok(e) => r == Ok(()) && bytes == old(bytes) + e
              case Err(e) => r == Err(e)
    {
      if |more| > max { return Err(LimitExceeded); }
      PutU64(|more|);
      Append(more);
      assert bytes == old(bytes) + (Put(|more|) + more);
      r := Ok(());
    }
  }

  class Cursor {
    var rest: seq<Byte>

    constructor (input: seq<Byte>)
      ensures rest == input
    {
      rest := input;
    }

    method ReadU64() returns (r: Result<U64>)
      modifies this
      ensures Reads(TakeU64(old(rest)), r, rest)
    {
      hide Take, Scaled;
      TakeU64IsTake(rest);
      ghost var whole := Take(rest, 0);
      var value: nat, scale: nat, i := 0, 1, 0;
      ScaledByOne(whole);
      while i < MAX_VARINT_LEN
        invariant 0 <= i <= MAX_VARINT_LEN
        invariant whole == Scaled(Take(rest, i), value, scale)
      {
        TakeUnfold(rest, i, value, scale);
        if rest == [] { return Err(Truncated); }
        var byte := rest[0];
        ghost var before := rest;
        rest := rest[1..];
        if byte < 128 {
          if i == MAX_VARINT_LEN - 1 && byte > 1 { return Err(VarintOverflow); }
          if i > 0 && byte == 0 { return Err(VarintNotMinimal); }
          return Ok(value + scale * byte);
        }
        ScaledTwice(Take(rest, i + 1), byte - 128, value, scale);
        value := value + scale * (byte - 128);
        scale := scale * 128;
        i := i + 1;
      }
      TakeUnfold(rest, i, value, scale);
      r := Err(VarintTooLong);
    }

    method ReadBytes(max: nat) returns (r: Result<seq<Byte>>)
      modifies this
      ensures Reads(TakeBytes(old(rest), max), r, rest)
    {
      var len := ReadU64();
      if len.Err? { return Err(len.error); }
      if len.value > max { return Err(LimitExceeded); }
      if |rest| < len.value { return Err(Truncated); }
      r := Ok(rest[..len.value]);
      rest := rest[len.value..];
    }

    method ReadArray(n: nat) returns (r: Result<seq<Byte>>)
      modifies this
      ensures Reads(TakeArray(old(rest), n), r, rest)
    {
      if |rest| < n { return Err(Truncated); }
      r := Ok(rest[..n]);
      rest := rest[n..];
    }
  }

  lemma ScaledByOne(p: Parse<nat>)
    ensures Scaled(p, 0, 1) == p
  {
  }

  lemma TakeUnfold(b: seq<Byte>, i: nat, value: nat, scale: nat)
    ensures Scaled(Take(b, i), value, scale) ==
            if i >= MAX_VARINT_LEN then Err(VarintTooLong)
            else if b == [] then Err(Truncated)
            else if b[0] < 128 then
              if i == MAX_VARINT_LEN - 1 && b[0] > 1 then Err(VarintOverflow)
              else if i > 0 && b[0] == 0 then Err(VarintNotMinimal)
              else Ok((value + scale * b[0], b[1..]))
            else Scaled(Scaled(Take(b[1..], i + 1), b[0] - 128, 128), value, scale)
  {
  }

  lemma ScaledTwice(p: Parse<nat>, low: nat, value: nat, scale: nat)
    ensures Scaled(Scaled(p, low, 128), value, scale) == Scaled(p, value + scale * low, scale * 128)
  {
    if p.Ok? {
      var v := p.value.0;
      assert scale * (low + 128 * v) == scale * low + scale * 128 * v;
    }
  }
}
