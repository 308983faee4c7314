/** Fixed-width integers as bytes, in both byte orders. */
module Bytes {
  import opened Prelude

  type Byte = n: nat | n < 256

  function Pow256(n: nat): nat {
    if n == 0 then 1 else 256 * Pow256(n - 1)
  }

  function EncodeLE(x: nat, n: nat): (b: seq<Byte>)
    ensures |b| == n
  {
    if n == 0 then [] else [x % 256] + EncodeLE(x / 256, n - 1)
  }

  function DecodeLE(b: seq<Byte>): (x: nat)
    ensures x < Pow256(|b|)
  {
    if b == [] then 0 else b[0] + 256 * DecodeLE(b[1..])
  }

  function EncodeBE(x: nat, n: nat): (b: seq<Byte>)
    ensures |b| == n
  {
    if n == 0 then [] else EncodeBE(x / 256, n - 1) + [x % 256]
  }

  function DecodeBE(b: seq<Byte>): (x: nat)
    ensures x < Pow256(|b|)
  {
    if b == [] then 0 else 256 * DecodeBE(b[..|b| - 1]) + b[|b| - 1]
  }

  lemma {:induction false} LERoundTrip(x: nat, n: nat)
    requires x < Pow256(n)
    ensures DecodeLE(EncodeLE(x, n)) == x
  {
    if n > 0 {
      LERoundTrip(x / 256, n - 1);
      assert EncodeLE(x, n)[1..] == EncodeLE(x / 256, n - 1);
    }
  }

  lemma {:induction false} LECanonical(b: seq<Byte>)
    ensures EncodeLE(DecodeLE(b), |b|) == b
  {
    if b != [] {
      LECanonical(b[1..]);
      assert b == [b[0]] + b[1..];
    }
  }

  lemma {:induction false} BERoundTrip(x: nat, n: nat)
    requires x < Pow256(n)
    ensures DecodeBE(EncodeBE(x, n)) == x
  {
    if n > 0 {
      BERoundTrip(x / 256, n - 1);
      assert EncodeBE(x, n)[..n - 1] == EncodeBE(x / 256, n - 1);
    }
  }

  lemma {:induction false} BECanonical(b: seq<Byte>)
    ensures EncodeBE(DecodeBE(b), |b|) == b
  {
    if b != [] {
      BECanonical(b[..|b| - 1]);
      assert b == b[..|b| - 1] + [b[|b| - 1]];
    }
  }

  lemma Widths()
    ensures Pow256(2) == 0x1_0000 && Pow256(4) == 0x1_0000_0000 && Pow256(8) == U64_MAX + 1 && Pow256(32) == WORD_BOUND
  {
    assert Pow256(16) == Pow256(8) * (U64_MAX + 1) by { assert Pow256(8) == U64_MAX + 1; PowSum(8, 8); }
    PowSum(16, 16);
  }

  lemma {:induction false} PowSum(a: nat, b: nat)
    ensures Pow256(a + b) == Pow256(a) * Pow256(b)
  {
    if a > 0 {
      PowSum(a - 1, b);
      assert 256 * (Pow256(a - 1) * Pow256(b)) == (256 * Pow256(a - 1)) * Pow256(b);
    }
  }

  function WordBytes(x: Word32): (b: seq<Byte>)
    ensures |b| == 32
  {
    EncodeBE(x, 32)
  }

  function WordOf(b: seq<Byte>): Word32
    requires |b| == 32
  {
    Widths();
    DecodeBE(b)
  }

  function U64Of(b: seq<Byte>): U64
    requires |b| == 8
  {
    Widths();
    DecodeLE(b)
  }

  lemma WordRoundTrip(x: Word32)
    ensures WordOf(WordBytes(x)) == x
  {
    Widths();
    BERoundTrip(x, 32);
  }

  lemma WordCanonical(b: seq<Byte>)
    requires |b| == 32
    ensures WordBytes(WordOf(b)) == b
  {
    BECanonical(b);
  }

  lemma U64RoundTrip(x: U64)
    ensures U64Of(EncodeLE(x, 8)) == x
  {
    Widths();
    LERoundTrip(x, 8);
  }

  lemma FixedCanonical(b: seq<Byte>)
    requires |b| == 8
    ensures EncodeLE(U64Of(b), 8) == b
  {
    LECanonical(b);
  }

  lemma {:induction false} PowPositive(n: nat)
    ensures Pow256(n) > 0
  {
    if n > 0 { PowPositive(n - 1); }
  }

  lemma ByteShift(x: nat, d: nat)
    ensures Pow256(d) > 0 && (x / 256) / Pow256(d) == x / Pow256(d + 1)
  {
    PowPositive(d);
    var m := Pow256(d);
    var q := (x / 256) / m;
    assert x / 256 == q * m + (x / 256) % m;
    assert 256 * (x / 256) <= x < 256 * (x / 256) + 256;
    assert q * (256 * m) <= x < q * (256 * m) + 256 * m;
    QuotientUnique(x, 256 * m, q);
  }

  /** Little endian: byte i is the digit of 256 to the i. */
  lemma {:induction false} DigitLE(x: nat, n: nat, i: nat)
    requires i < n
    ensures Pow256(i) > 0 && EncodeLE(x, n)[i] == x / Pow256(i) % 256
  {
    if i > 0 {
      DigitLE(x / 256, n - 1, i - 1);
      ByteShift(x, i - 1);
    }
  }

  /** Big endian: byte i is the digit of 256 to the n - 1 - i. */
  lemma {:induction false} DigitBE(x: nat, n: nat, i: nat)
    requires i < n
    ensures Pow256(n - 1 - i) > 0 && EncodeBE(x, n)[i] == x / Pow256(n - 1 - i) % 256
  {
    if i < n - 1 {
      DigitBE(x / 256, n - 1, i);
      ByteShift(x, n - 2 - i);
    }
  }
}
