/** Go's encoding/binary varints: zigzag for signed numbers, base 128 with the low group
    first and a continuation bit. */
module Varints {
  import opened ByteStrings

  const TWO63: int := 0x8000_0000_0000_0000
  const TWO64: int := 0x1_0000_0000_0000_0000
  const MAX_VARINT_LEN64: int := 10

  type int64 = x: int | -0x8000_0000_0000_0000 <= x < 0x8000_0000_0000_0000
  type uint64 = x: int | 0 <= x < 0x1_0000_0000_0000_0000

  /** uint64(x): reinterpretation of the 64 bits. */
  function ToUint64(x: int64): uint64 {
    if x < 0 then x + TWO64 else x
  }

  /** ux := uint64(x) << 1; if x < 0 { ux = ^ux } */
  function ZigZag(x: int64): uint64 {
    var ux := 2 * ToUint64(x) % TWO64;
    if x < 0 then TWO64 - 1 - ux else ux
  }

  /** x := int64(ux >> 1); if ux & 1 != 0 { x = ^x } */
  function UnZigZag(ux: uint64): int64 {
    if ux % 2 != 0 then -(ux / 2) - 1 else ux / 2
  }

  /** PutUvarint: low seven bits first, top bit set on all bytes but the last. */
  function PutUvarint(x: nat): Bytes {
    if x < 0x80 then [x] else [0x80 + x % 0x80] + PutUvarint(x / 0x80)
  }

  function PutVarint(x: int64): Bytes {
    PutUvarint(ZigZag(x))
  }

  /** The three outcomes of Uvarint: n > 0, n < 0 and n == 0. */
  datatype Read<+T> = Value(value: T, n: nat) | Overflow | Short

  /** The decoding loop at byte `i`, with the groups read so far summing to `x`. */
  function UvarintFrom(buf: Bytes, i: nat, x: nat, scale: nat): Read<nat>
    requires i <= |buf|
    decreases |buf| - i
  {
    if i == |buf| then Short
    else if i == MAX_VARINT_LEN64 then Overflow
    else if buf[i] < 0x80 then
      if i == MAX_VARINT_LEN64 - 1 && buf[i] > 1 then Overflow
      else Value(x + buf[i] * scale, i + 1)
    else UvarintFrom(buf, i + 1, x + (buf[i] - 0x80) * scale, scale * 0x80)
  }

  function Uvarint(buf: Bytes): Read<nat> {
    UvarintFrom(buf, 0, 0, 1)
  }

  /** A decoded value fits 64 bits and consumes between 1 and 10 bytes of the buffer. */
  lemma {:induction false} UvarintRange(buf: Bytes, i: nat, x: nat, scale: nat)
    requires i <= |buf| && i <= MAX_VARINT_LEN64 && scale == Pow128(i) && x < scale
    ensures var r := UvarintFrom(buf, i, x, scale);
            r.Value? ==> r.value < TWO64 && i < r.n <= |buf| && r.n <= MAX_VARINT_LEN64
    decreases |buf| - i
  {
    if i < |buf| && i < MAX_VARINT_LEN64 {
      if buf[i] >= 0x80 {
        GroupFits(x, buf[i] - 0x80, scale);
        UvarintRange(buf, i + 1, x + (buf[i] - 0x80) * scale, scale * 0x80);
      } else if i < 9 || buf[i] <= 1 {
        LastGroupFits(i, x, buf[i], scale);
      }
    }
  }

  lemma GroupFits(x: nat, d: nat, scale: nat)
    requires x < scale && d < 0x80
    ensures x + d * scale < scale * 0x80
  {
    assert d * scale <= 0x7F * scale;
  }

  lemma LastGroupFits(i: nat, x: nat, d: nat, scale: nat)
    requires i < MAX_VARINT_LEN64 && scale == Pow128(i) && x < scale && d < 0x80 && (i < 9 || d <= 1)
    ensures x + d * scale < TWO64
  {
    Pow128Table();
    if i < 9 {
      GroupFits(x, d, scale);
      Pow128Monotone(i + 1, 9);
    } else {
      assert d * scale <= scale;
    }
  }

  function Varint(buf: Bytes): Read<int64> {
    UvarintRange(buf, 0, 0, 1);
    match Uvarint(buf)
    case Value(ux, n) => Value(UnZigZag(ux), n)
    case Overflow => Overflow
    case Short => Short
  }

  // ---------- Round trip ----------

  lemma ZigZagRoundTrip(x: int64)
    ensures UnZigZag(ZigZag(x)) == x
    ensures ZigZag(x) == if x < 0 then -2 * x - 1 else 2 * x
  {
    if x < 0 {
      var y := 2 * x + TWO64;
      assert 2 * ToUint64(x) == y + TWO64 && 0 <= y < TWO64;
      assert (y + TWO64) % TWO64 == y;
      assert ZigZag(x) == 2 * (-(x as int) - 1) + 1;
    } else {
      assert 2 * ToUint64(x) % TWO64 == 2 * x;
    }
  }

  function Pow128(i: nat): nat {
    if i == 0 then 1 else Pow128(i - 1) * 0x80
  }

  lemma Pow128Table()
    ensures Pow128(0) == 1
    ensures Pow128(9) == TWO63
    ensures TWO64 < Pow128(10)
  {
    assert Pow128(3) == 0x20_0000;
    assert Pow128(6) == 0x400_0000_0000;
  }

  lemma {:induction false} Pow128Monotone(i: nat, j: nat)
    requires i <= j
    ensures 0 < Pow128(i) <= Pow128(j)
    decreases j
  {
    if i < j { Pow128Monotone(i, j - 1); } else if 0 < i { Pow128Monotone(i - 1, i - 1); }
  }

  lemma {:induction false} UvarintLength(x: nat, k: nat)
    requires 0 < k && x < Pow128(k)
    ensures 1 <= |PutUvarint(x)| <= k
    decreases k
  {
    if x >= 0x80 {
      assert Pow128(1) == 0x80;
      UvarintLength(x / 0x80, k - 1);
    }
  }

  /** At the tenth byte one bit is left. */
  lemma TenthByte(x: nat, scale: nat, v: nat)
    requires scale == Pow128(9) && x + v * scale < TWO64
    ensures v < 2
  {
    Pow128Table();
    assert v >= 2 ==> v * scale >= 2 * scale;
  }

  /** The loop reads back a number `v` written at position `i`, whatever follows it. */
  lemma {:induction false} UvarintReads(buf: Bytes, i: nat, x: nat, scale: nat, v: nat, rest: Bytes)
    requires i <= |buf| && buf[i..] == PutUvarint(v) + rest
    requires scale == Pow128(i) && i < MAX_VARINT_LEN64
    requires x + v * scale < TWO64
    ensures UvarintFrom(buf, i, x, scale) == Value(x + v * scale, i + |PutUvarint(v)|)
    decreases v
  {
    assert buf[i] == buf[i..][0];
    if i == 9 { TenthByte(x, scale, v); }
    if v >= 0x80 {
      var x' := x + (v % 0x80) * scale;
      assert buf[i + 1..] == buf[i..][1..] == PutUvarint(v / 0x80) + rest;
      assert x' + v / 0x80 * (scale * 0x80) == x + v * scale by {
        assert v == v / 0x80 * 0x80 + v % 0x80;
        Distribute(v / 0x80, v % 0x80, scale);
      }
      UvarintReads(buf, i + 1, x', scale * 0x80, v / 0x80, rest);
    }
  }

  lemma Distribute(q: nat, r: nat, scale: nat)
    ensures (q * 0x80 + r) * scale == q * (scale * 0x80) + r * scale
  {
  }

  /** Every int64 is read back from its varint, whatever bytes follow; the varint has at
      most ten bytes, and exactly those are consumed. */
  lemma VarintRoundTrip(x: int64, rest: Bytes)
    ensures Varint(PutVarint(x) + rest) == Value(x, |PutVarint(x)|)
    ensures 1 <= |PutVarint(x)| <= MAX_VARINT_LEN64
  {
    ZigZagRoundTrip(x);
    var buf := PutVarint(x) + rest;
    assert buf[0..] == buf;
    UvarintReads(buf, 0, 0, 1, ZigZag(x), rest);
    Pow128Table();
    UvarintLength(ZigZag(x), MAX_VARINT_LEN64);
  }

  /** One byte below 2^7, two below 2^14, the low seven bits first: 300 is AC 02. */
  lemma ShortUvarints(x: nat)
    ensures x < 0x80 ==> PutUvarint(x) == [x]
    ensures 0x80 <= x < 0x4000 ==> PutUvarint(x) == [0x80 + x % 0x80, x / 0x80]
    ensures x == 300 ==> PutUvarint(x) == [0xAC, 0x02]
  {
    if 0x80 <= x < 0x4000 {
      var y := x / 0x80;
      assert PutUvarint(y) == [y];
    }
  }

  /** One byte from -64 to 63, with the signs interleaved. */
  lemma ShortVarints(x: int64)
    ensures -64 <= x < 64 ==> PutVarint(x) == [if x < 0 then -2 * x - 1 else 2 * x]
  {
    ZigZagRoundTrip(x);
    ShortUvarints(ZigZag(x));
  }
}
