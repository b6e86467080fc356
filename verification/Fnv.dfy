/** FNV-1a, 64 bit (section 2 of draft-eastlake-fnv), as used by pkg/util/hash.go. */
module Fnv {
  import opened ByteStrings
  import opened Varints
  import opened Bits

  const OFFSET_BASIS: uint64 := 0xCBF2_9CE4_8422_2325
  const PRIME: uint64 := 0x100_0000_01B3

  // ---------- The hash ----------

  /** One byte: h ^= uint64(b); h *= prime, modulo 2^64. */
  function Mix(h: uint64, b: byte): uint64 {
    Xor(h, b) * PRIME % TWO64
  }

  function Sum64From(h: uint64, data: Bytes): uint64
    decreases |data|
  {
    if data == [] then h else Sum64From(Mix(h, data[0]), data[1..])
  }

  function Sum64(data: Bytes): uint64 {
    Sum64From(OFFSET_BASIS, data)
  }

  /** hash.Write followed by hash.Sum64. */
  method HashBytes(data: Bytes) returns (h: uint64)
    ensures h == Sum64(data)
  {
    h := OFFSET_BASIS;
    for i := 0 to |data|
      invariant Sum64(data) == Sum64From(h, data[i..])
    {
      assert data[i..][1..] == data[i + 1..];
      h := Mix(h, data[i]);
    }
    assert data[|data|..] == [];
  }

  /** Bytes are taken in order: hashing a concatenation is going on with its second part. */
  lemma {:induction false} SumConcat(h: uint64, a: Bytes, b: Bytes)
    ensures Sum64From(h, a + b) == Sum64From(Sum64From(h, a), b)
    decreases |a|
  {
    if a == [] {
      assert a + b == b;
    } else {
      assert (a + b)[1..] == a[1..] + b;
      SumConcat(Mix(h, a[0]), a[1..], b);
    }
  }

  /** Published test values: the empty string, and "a", which tells the xor-first variant
      from the multiply-first one. */
  lemma KnownSums(data: Bytes)
    ensures data == [] ==> Sum64(data) == 0xCBF2_9CE4_8422_2325
    ensures data == [0x61] ==> Sum64(data) == 0xAF63_DC4C_8601_EC8C
  {
    if |data| == 1 && data[0] == 0x61 {
      SumOfOne(OFFSET_BASIS, data);
      XorWithA(OFFSET_BASIS, data[0]);
      MixedValue(OFFSET_BASIS, data[0], 0xCBF2_9CE4_8422_2344);
    }
  }

  lemma SumOfOne(h: uint64, data: Bytes)
    requires |data| == 1
    ensures Sum64From(h, data) == Mix(h, data[0])
  {
    assert data[1..] == [];
  }

  lemma MixedValue(h: uint64, b: byte, x: nat)
    requires Xor(h, b) == x && x == 0xCBF2_9CE4_8422_2344
    ensures Mix(h, b) == 0xAF63_DC4C_8601_EC8C
  {
  }

  lemma XorWithA(h: nat, b: nat)
    requires h == OFFSET_BASIS && b == 0x61
    ensures Xor(h, b) == 0xCBF2_9CE4_8422_2344
  {
    assert Pow2(7) == 0x80;
    XorHigh(0x197E539C9084446, 0x25, b, 7);
    XorOfLowBits(b);
  }

  lemma XorOfLowBits(b: nat)
    requires b == 0x61
    ensures Xor(0x25, b) == 0x44
  {
    assert Xor(0x04, 0x0C) == 0x08;
  }

  /** int64(x): reinterpretation of the 64 bits. */
  function ToInt64(x: uint64): int64 {
    if x < TWO63 then x else x - TWO64
  }

  function BigEndian(x: uint64, n: nat): Bytes
    ensures |BigEndian(x, n)| == n
  {
    if n == 0 then [] else BigEndian(x / 0x100, n - 1) + [x % 0x100]
  }

  /** The number that bytes stand for, the first one counting most. */
  function BigEndianValue(b: Bytes): nat {
    if b == [] then 0 else BigEndianValue(b[..|b| - 1]) * 0x100 + b[|b| - 1]
  }

  lemma {:induction false} BigEndianRoundTrip(x: uint64, n: nat, bound: nat)
    requires bound == Pow256(n) && x < bound
    ensures BigEndianValue(BigEndian(x, n)) == x
    decreases n
  {
    if n == 0 {
      assert BigEndian(x, 0) == [];
    } else {
      var front := BigEndian(x / 0x100, n - 1);
      BigEndianRoundTrip(x / 0x100, n - 1, Pow256(n - 1));
      assert BigEndian(x, n)[..n - 1] == front;
    }
  }

  function Pow256(n: nat): nat {
    if n == 0 then 1 else 0x100 * Pow256(n - 1)
  }

  /** Negation wraps: -(-2^63) is -2^63. */
  function Hash64(n: int64): int64 {
    var result := ToInt64(Sum64(BigEndian(ToUint64(n), 8)));
    if result < 0 && result != -TWO63 then -result else result
  }

  /** The "absolute value" is negative only if the sum is the one number whose negation
      wraps; that some input has this sum is not claimed. */
  lemma Hash64NonNegativeIff(n: int64)
    ensures 0 <= Hash64(n) <==> Sum64(BigEndian(ToUint64(n), 8)) != TWO63
  {
  }

  // ---------- A single differing byte changes the hash ----------

  /** The inverse of the prime modulo 2^64 and the quotient of their product. */
  const PRIME_INVERSE: int := 0xCE965057AFF6957B
  const PRIME_QUOTIENT: int := 0xCE9650590F

  lemma MultiplyInjective(x: uint64, y: uint64)
    requires x * PRIME % TWO64 == y * PRIME % TWO64
    ensures x == y
  {
    var d := x - y;
    var q := x * PRIME / TWO64 - y * PRIME / TWO64;
    assert d * PRIME == q * TWO64;
    assert PRIME * PRIME_INVERSE == 1 + PRIME_QUOTIENT * TWO64;
    Cancel(d, q, TWO64);
  }

  lemma Cancel(d: int, q: int, m: int)
    requires m == TWO64 && -m < d < m
    requires d * PRIME == q * m
    requires PRIME * PRIME_INVERSE == 1 + PRIME_QUOTIENT * m
    ensures d == 0
  {
    calc {
      q * PRIME_INVERSE * m;
      q * m * PRIME_INVERSE;
      d * PRIME * PRIME_INVERSE;
      d * (PRIME * PRIME_INVERSE);
      d * (1 + PRIME_QUOTIENT * m);
      d + d * PRIME_QUOTIENT * m;
    }
    var k := q * PRIME_INVERSE - d * PRIME_QUOTIENT;
    assert d == k * m;
    assert k >= 1 ==> k * m >= m;
    assert k <= -1 ==> k * m <= -m;
  }

  /** One step is injective in the state and in the byte. */
  lemma MixInjective(g: uint64, h: uint64, b: byte, c: byte)
    requires Mix(g, b) == Mix(h, c) && (g == h || b == c)
    ensures g == h && b == c
  {
    Pow2Is64();
    assert 256 <= Pow2(64);
    XorBound(g, b, 64);
    XorBound(h, c, 64);
    MultiplyInjective(Xor(g, b), Xor(h, c));
    XorCancels(g, b);
    XorCancels(h, c);
  }

  /** Different states stay different over any further input. */
  lemma {:induction false} StatesNeverMerge(g: uint64, h: uint64, data: Bytes)
    requires g != h
    ensures Sum64From(g, data) != Sum64From(h, data)
    decreases |data|
  {
    if data != [] {
      if Mix(g, data[0]) == Mix(h, data[0]) { MixInjective(g, h, data[0], data[0]); }
      StatesNeverMerge(Mix(g, data[0]), Mix(h, data[0]), data[1..]);
    }
  }

  lemma {:induction false} OneByteFrom(h: uint64, a: Bytes, b: Bytes, i: nat)
    requires |a| == |b| && i < |a| && a[i] != b[i]
    requires forall j :: 0 <= j < |a| && j != i ==> a[j] == b[j]
    ensures Sum64From(h, a) != Sum64From(h, b)
    decreases i
  {
    if i == 0 {
      if Mix(h, a[0]) == Mix(h, b[0]) { MixInjective(h, h, a[0], b[0]); }
      assert a[1..] == b[1..];
      StatesNeverMerge(Mix(h, a[0]), Mix(h, b[0]), a[1..]);
    } else {
      OneByteFrom(Mix(h, a[0]), a[1..], b[1..], i - 1);
    }
  }

  /** Two byte strings of equal length that differ in exactly one position have different
      64-bit sums. */
  lemma OneByteChangesHash(a: Bytes, b: Bytes, i: nat)
    requires |a| == |b| && i < |a| && a[i] != b[i]
    requires forall j :: 0 <= j < |a| && j != i ==> a[j] == b[j]
    ensures Sum64(a) != Sum64(b)
  {
    OneByteFrom(OFFSET_BASIS, a, b, i);
  }
}
