/** Small shared vocabulary: options, results, machine-word bounds and digests. */
module Prelude {

  datatype Option<+T> = None | Some(value: T)

  const U64_MAX: nat := 0xFFFF_FFFF_FFFF_FFFF

  type U64 = n: nat | n <= U64_MAX
  type U32 = n: nat | n < 0x1_0000_0000
  type U16 = n: nat | n < 0x1_0000

  /** The first number that no longer fits in 32 bytes. */
  const WORD_BOUND: nat := 0x1_0000000000000000_0000000000000000_0000000000000000_0000000000000000

  /** 32 bytes read as a big-endian number: ids, keys and stored hashes. Comparing numbers is comparing bytes. */
  type Word32 = n: nat | n < WORD_BOUND

  /** A hash value inside the Merkle tree. It is not bounded, so that "this hash has no collision"
      is a hypothesis some function meets. */
  type Digest = nat

  const ZERO_DIGEST: Digest := 0

  function SaturatingAdd(a: U64, b: nat): (r: U64)
    ensures r == if a + b <= U64_MAX then a + b else U64_MAX
  {
    if a + b <= U64_MAX then a + b else U64_MAX
  }

  function SaturatingSub(a: nat, b: nat): (r: nat)
    ensures r == if b <= a then a - b else 0
  {
    if b <= a then a - b else 0
  }

  function Min(a: int, b: int): int {
    if a <= b then a else b
  }

  function Max(a: int, b: int): int {
    if a <= b then b else a
  }

  lemma MulMonotone(a: nat, b: nat, m: nat)
    requires a <= b
    ensures a * m <= b * m
  {
    assert b * m == a * m + (b - a) * m;
  }

  lemma QuotientUnique(x: nat, m: nat, q: nat)
    requires m > 0 && q * m <= x < q * m + m
    ensures x / m == q
  {
    var e := x / m;
    assert e * m <= x < e * m + m;
    if e < q { MulMonotone(e + 1, q, m); }
    if e > q { MulMonotone(q + 1, e, m); }
  }

  /** Strictly increasing: sorted and free of duplicates. */
  ghost predicate Ascending(s: seq<int>) {
    forall i, j :: 0 <= i < j < |s| ==> s[i] < s[j]
  }

  method LeastOf(s: set<nat>) returns (least: nat)
    requires s != {}
    ensures least in s && forall y :: y in s ==> least <= y
  {
    least :| least in s;
    var left := s - {least};
    while left != {}
      invariant least in s && left <= s && forall y :: y in s ==> y in left || least <= y
      decreases left
    {
      var x :| x in left;
      if x < least { least := x; }
      left := left - {x};
    }
  }
}
