/** The packed 64-bit numbers of the source stand for the bit strings of the model. */
module Packing {
  import opened Prelude
  import opened SmtSpec
  import opened SmtShape

  function Pow2(n: nat): nat {
    if n == 0 then 1 else 2 * Pow2(n - 1)
  }

  /** The n low bits of x, most significant first. */
  function ToBits(x: nat, n: nat): (b: seq<bool>)
    ensures |b| == n
  {
    if n == 0 then [] else ToBits(x / 2, n - 1) + [x % 2 == 1]
  }

  function FromBits(b: seq<bool>): (x: nat)
    ensures x < Pow2(|b|)
  {
    if b == [] then 0
    else 2 * FromBits(b[..|b| - 1]) + if b[|b| - 1] then 1 else 0
  }

  lemma {:induction false} BitsRoundTrip(b: seq<bool>)
    ensures ToBits(FromBits(b), |b|) == b
  {
    if b != [] {
      BitsRoundTrip(b[..|b| - 1]);
      assert b == b[..|b| - 1] + [b[|b| - 1]];
    }
  }

  lemma {:induction false} NumberRoundTrip(x: nat, n: nat)
    requires x < Pow2(n)
    ensures FromBits(ToBits(x, n)) == x
  {
    if n > 0 {
      NumberRoundTrip(x / 2, n - 1);
      assert ToBits(x, n)[..n - 1] == ToBits(x / 2, n - 1);
    }
  }

  lemma PowPositive(n: nat)
    ensures Pow2(n) > 0
  {
  }

  lemma HalfShift(x: nat, d: nat)
    ensures Pow2(d) > 0 && (x / 2) / Pow2(d) == x / Pow2(d + 1)
  {
    PowPositive(d);
    var m := Pow2(d);
    var q := (x / 2) / m;
    assert x / 2 == q * m + (x / 2) % m;
    assert 2 * (x / 2) <= x < 2 * (x / 2) + 2;
    assert q * (2 * m) <= x < q * (2 * m) + 2 * m;
    QuotientUnique(x, 2 * m, q);
  }

  /** Shifting right by n - d keeps the first d bits: key >> (D - d). */
  lemma {:induction false} ShiftIsPrefix(x: nat, n: nat, d: nat)
    requires d <= n
    ensures Pow2(n - d) > 0 && ToBits(x, n)[..d] == ToBits(x / Pow2(n - d), d)
  {
    PowPositive(n - d);
    if d == n {
      assert x / Pow2(0) == x;
    } else {
      ShiftIsPrefix(x / 2, n - 1, d);
      HalfShift(x, n - 1 - d);
      assert ToBits(x, n)[..d] == ToBits(x / 2, n - 1)[..d];
    }
  }

  /** (key >> (D - 1 - d)) & 1 is the bit at depth d. */
  lemma BitAtDepth(x: nat, n: nat, d: nat)
    requires d < n
    ensures Pow2(n - 1 - d) > 0 && (ToBits(x, n)[d] <==> x / Pow2(n - 1 - d) % 2 == 1)
  {
    ShiftIsPrefix(x, n, d + 1);
    var prefix := ToBits(x / Pow2(n - 1 - d), d + 1);
    assert ToBits(x, n)[..d + 1][d] == prefix[d];
  }

  lemma SameBits(a: nat, b: nat, n: nat)
    requires a < Pow2(n) && b < Pow2(n)
    ensures ToBits(a, n) == ToBits(b, n) <==> a == b
  {
    NumberRoundTrip(a, n);
    NumberRoundTrip(b, n);
  }

  /** The bit length of a number: 64 minus its leading zeros. */
  function BitLength(x: nat): nat {
    if x == 0 then 0 else 1 + BitLength(x / 2)
  }

  function Xor(a: nat, b: nat): nat {
    if a == 0 && b == 0 then 0
    else 2 * Xor(a / 2, b / 2) + if a % 2 != b % 2 then 1 else 0
  }

  lemma {:induction false} XorZero(a: nat, b: nat)
    ensures Xor(a, b) == 0 <==> a == b
  {
    if a != 0 || b != 0 { XorZero(a / 2, b / 2); }
  }

  lemma XorHalf(a: nat, b: nat)
    ensures Xor(a, b) / 2 == Xor(a / 2, b / 2)
  {
    if a == 0 && b == 0 { assert Xor(0, 0) == 0; }
  }

  /** n minus the bit length of a ^ b is the first position at which the bits of a and b differ. */
  lemma {:induction false} DivergenceDepthIsFirstDifference(a: nat, b: nat, n: nat)
    requires a != b && a < Pow2(n) && b < Pow2(n)
    ensures 1 <= BitLength(Xor(a, b)) <= n
    ensures var div := n - BitLength(Xor(a, b));
            && ToBits(a, n)[..div] == ToBits(b, n)[..div]
            && ToBits(a, n)[div] != ToBits(b, n)[div]
  {
    XorZero(a, b);
    XorHalf(a, b);
    if a / 2 == b / 2 {
      XorZero(a / 2, b / 2);
      assert BitLength(Xor(a, b)) == 1;
      assert ToBits(a, n)[..n - 1] == ToBits(a / 2, n - 1);
      assert ToBits(b, n)[..n - 1] == ToBits(b / 2, n - 1);
    } else {
      DivergenceDepthIsFirstDifference(a / 2, b / 2, n - 1);
      var div := n - BitLength(Xor(a, b));
      assert div == n - 1 - BitLength(Xor(a / 2, b / 2));
      assert ToBits(a, n)[..div] == ToBits(a / 2, n - 1)[..div];
      assert ToBits(b, n)[..div] == ToBits(b / 2, n - 1)[..div];
    }
  }

  // ----- packed slots -----

  const TWO40: nat := 0x100_0000_0000
  const NODE_BIT: nat := 0x4000_0000_0000_0000
  const CHAIN_BIT: nat := 0x8000_0000_0000_0000

  function Pack(path: seq<bool>): nat {
    |path| * TWO40 + FromBits(path)
  }

  function Unpack(p: nat): seq<bool> {
    ToBits(p % TWO40, p / TWO40)
  }

  function EncodeSlot(s: Slot): nat {
    match s
    case Empty => 0
    case Chain(k) => CHAIN_BIT + FromBits(k)
    case Node(q) => NODE_BIT + Pack(q)
  }

  function DecodeSlot(c: nat): Slot {
    if c == 0 then Empty
    else if c / CHAIN_BIT % 2 == 1 then Chain(ToBits(c % NODE_BIT, D))
    else Node(Unpack(c % NODE_BIT))
  }

  lemma {:induction false} PowMonotone(a: nat, b: nat)
    requires a <= b
    ensures Pow2(a) <= Pow2(b)
  {
    if a < b { PowMonotone(a, b - 1); }
  }

  lemma Pow40()
    ensures Pow2(40) == TWO40
  {
    assert Pow2(10) == 1024;
    assert Pow2(20) == 1024 * 1024;
    assert Pow2(30) == 1024 * 1024 * 1024;
  }

  lemma UnpackPack(path: seq<bool>)
    requires |path| < D
    ensures Pack(path) < NODE_BIT && Unpack(Pack(path)) == path
  {
    Pow40();
    PowMonotone(|path|, 40);
    BitsRoundTrip(path);
    QuotientUnique(Pack(path), TWO40, |path|);
    assert Pack(path) < 40 * TWO40;
  }

  lemma TagBits(x: nat)
    requires x < NODE_BIT
    ensures (NODE_BIT + x) % NODE_BIT == x && (NODE_BIT + x) / CHAIN_BIT == 0
    ensures (CHAIN_BIT + x) % NODE_BIT == x && (CHAIN_BIT + x) / CHAIN_BIT == 1
  {
  }

  /** The three slot forms never collide in 64 bits and read back exactly. */
  lemma SlotCodec(s: Slot)
    requires s.Node? ==> |s.path| < D
    ensures EncodeSlot(s) <= U64_MAX && DecodeSlot(EncodeSlot(s)) == s
  {
    hide Pack, Unpack;
    match s
    case Empty =>
    case Chain(k) =>
      Pow40();
      BitsRoundTrip(k);
      TagBits(FromBits(k));
    case Node(q) =>
      UnpackPack(q);
      TagBits(Pack(q));
  }

  const TWO216: nat := 0x1_000000000000000000000000000000000000000000000000000000

  /** smt_key: the top 40 bits of a 32-byte id. */
  function SmtKey(id: Word32): Key {
    ToBits(id / TWO216, D)
  }

  /** Ids share a key exactly when their first five bytes agree. */
  lemma SmtKeyTopBits(a: Word32, b: Word32)
    ensures SmtKey(a) == SmtKey(b) <==> a / TWO216 == b / TWO216
  {
    Pow40();
    assert WORD_BOUND == TWO216 * TWO40;
    SameBits(a / TWO216, b / TWO216, 40);
  }

  lemma TwoTimes(x: nat, y: nat)
    ensures 2 * (x * y) == (2 * x) * y
  {
  }

  lemma {:induction false} PowAdds(a: nat, b: nat)
    ensures Pow2(a + b) == Pow2(a) * Pow2(b)
  {
    if a > 0 {
      PowAdds(a - 1, b);
      TwoTimes(Pow2(a - 1), Pow2(b));
    }
  }

  lemma Pow16()
    ensures Pow2(16) == 0x1_0000
  {
    assert Pow2(8) == 256;
  }

  lemma Pow216()
    ensures Pow2(216) == TWO216
  {
    hide Pow2;
    Pow16();
    Pow40();
    PowAdds(40, 40);
    PowAdds(80, 80);
    PowAdds(160, 40);
    PowAdds(200, 16);
  }

  lemma {:induction false} ShiftTwice(x: nat, a: nat, b: nat)
    ensures Pow2(a) > 0 && Pow2(b) > 0 && Pow2(a + b) > 0 && x / Pow2(a) / Pow2(b) == x / Pow2(a + b)
  {
    PowPositive(a);
    PowPositive(b);
    PowPositive(a + b);
    if a > 0 {
      HalfShift(x, a - 1);
      ShiftTwice(x / 2, a - 1, b);
      HalfShift(x, a + b - 1);
    }
  }

  lemma SmtKeyNumber(id: Word32)
    ensures FromBits(SmtKey(id)) == id / TWO216
  {
    Pow40();
    assert WORD_BOUND == TWO216 * TWO40;
    NumberRoundTrip(id / TWO216, D);
  }

  /** The key of an id is the number of its first five bytes: bit i of the key is bit i of the 256-bit id, counted
      from the top. */
  lemma SmtKeyBits(id: Word32, i: nat)
    requires i < D
    ensures Pow2(255 - i) > 0 && (SmtKey(id)[i] <==> id / Pow2(255 - i) % 2 == 1)
    ensures FromBits(SmtKey(id)) == id / TWO216
  {
    hide Pow2, ToBits, FromBits;
    Pow216();
    BitAtDepth(id / TWO216, D, i);
    ShiftTwice(id, 216, D - 1 - i);
    SmtKeyNumber(id);
  }

  lemma WordTags(x: nat)
    requires x < NODE_BIT
    ensures (CHAIN_BIT + x) / NODE_BIT == 2 && (CHAIN_BIT + x) / CHAIN_BIT == 1 && (CHAIN_BIT + x) % NODE_BIT == x
    ensures (NODE_BIT + x) / NODE_BIT == 1 && (NODE_BIT + x) / CHAIN_BIT == 0 && (NODE_BIT + x) % NODE_BIT == x
  {
  }

  lemma PackFields(q: seq<bool>)
    requires |q| < D
    ensures Pack(q) / TWO40 == |q| && Pack(q) % TWO40 == FromBits(q) && Pack(q) < NODE_BIT
    ensures (NODE_BIT + Pack(q)) % TWO40 == FromBits(q)
  {
    Pow40();
    PowMonotone(|q|, 40);
    QuotientUnique(Pack(q), TWO40, |q|);
    QuotientUnique(NODE_BIT + Pack(q), TWO40, 0x40_0000 + |q|);
  }

  /** The word of a slot, bit by bit: bit 63 marks a chain, bit 62 a branch point; below them stand the key, or the
      depth and the 40-bit prefix of a branch point. */
  lemma SlotBits(s: Slot)
    requires s.Node? ==> |s.path| < D
    ensures var w := EncodeSlot(s);
            && (w / 0x8000_0000_0000_0000 % 2 == 1 <==> s.Chain?)
            && (w / 0x4000_0000_0000_0000 % 2 == 1 <==> s.Node?)
            && (w == 0 <==> s.Empty?)
            && (s.Chain? ==> w % 0x4000_0000_0000_0000 == FromBits(s.key))
            && (s.Node? ==>
                  && w % 0x100_0000_0000 == FromBits(s.path)
                  && w % 0x4000_0000_0000_0000 / 0x100_0000_0000 == |s.path|)
  {
    hide Pack, FromBits, Pow2;
    match s
    case Empty =>
    case Chain(k) =>
      Pow40();
      WordTags(FromBits(k));
    case Node(q) =>
      PackFields(q);
      WordTags(Pack(q));
  }
}
