/** Fixed-width integers and the little-endian words the kernel reads out of byte buffers. */
module Bytes {

  type byte = x: int | 0 <= x < 0x100
  type u16 = x: int | 0 <= x < 0x1_0000
  type u32 = x: int | 0 <= x < 0x1_0000_0000

  const U32_MOD := 0x1_0000_0000

  /** Wrap-around of unsigned 32-bit arithmetic. */
  function Wrap32(x: int): u32 {
    x % U32_MOD
  }

  lemma NoWrap(x: nat)
    requires x < U32_MOD
    ensures Wrap32(x) == x
  {
  }

  /** A 32-bit word read as a C int. */
  function AsInt(x: u32): int {
    if x < 0x8000_0000 then x else x - U32_MOD
  }

  function Min(a: int, b: int): int {
    if a < b then a else b
  }

  function Max(a: int, b: int): int {
    if a < b then b else a
  }

  const DOT: byte := 0x2E
  const SPACE: byte := 0x20

  /** How many blocks of d bytes x bytes take: rounding-up division. */
  function CeilDiv(x: nat, d: nat): nat
    requires d > 0
  {
    if x == 0 then 0 else if x <= d then 1 else 1 + CeilDiv(x - d, d)
  }

  lemma MulCancel(a: int, b: int, d: nat)
    requires a * d < b * d
    ensures a < b
  {
    assert (b - a) * d > 0;
  }

  lemma MulLe(a: int, b: int, d: nat)
    requires a <= b
    ensures a * d <= b * d
  {
  }

  lemma MulSucc(a: int, d: nat)
    ensures (a + 1) * d == a * d + d
  {
  }

  lemma MulSwap(a: int, b: int, c: int)
    ensures a * (b * c) == c * (a * b)
  {
  }

  lemma DivShift(a: nat, d: nat)
    requires d > 0
    ensures (a + d) / d == a / d + 1
  {
    var q, r := a / d, a % d;
    assert a == q * d + r;
    MulSucc(q, d);
    DivUnique(a + d, d, q + 1, r);
  }

  lemma DivUnique(x: nat, d: nat, q: nat, r: nat)
    requires d > 0 && r < d && x == q * d + r
    ensures x / d == q && x % d == r
  {
    var q', r' := x / d, x % d;
    assert x == q' * d + r';
    MulSucc(q, d);
    MulSucc(q', d);
    MulCancel(q, q' + 1, d);
    MulCancel(q', q + 1, d);
  }

  lemma DivSmall(a: nat, d: nat)
    requires a < d
    ensures a / d == 0
  {
  }

  /** The expression the kernel computes it with. */
  lemma {:induction false} CeilDivIs(x: nat, d: nat)
    requires d > 0
    ensures CeilDiv(x, d) == (x + d - 1) / d
  {
    if x == 0 {
      DivSmall(d - 1, d);
    } else if x <= d {
      DivSmall(x - 1, d);
      DivShift(x - 1, d);
    } else {
      CeilDivIs(x - d, d);
      DivShift(x - 1, d);
    }
  }

  /** The rounding-up division as the kernel writes it. */
  method RoundUp(x: nat, d: nat) returns (r: nat)
    requires d > 0
    ensures r == CeilDiv(x, d)
  {
    r := (x + d - 1) / d;
    CeilDivIs(x, d);
  }

  lemma {:induction false} CeilDivBounds(x: nat, d: nat)
    requires d > 0
    ensures (CeilDiv(x, d) - 1) * d < x <= CeilDiv(x, d) * d
  {
    if x > d {
      CeilDivBounds(x - d, d);
      MulSucc(CeilDiv(x - d, d), d);
      MulSucc(CeilDiv(x - d, d) - 1, d);
    }
  }

  lemma CeilDivZero(x: nat, d: nat)
    requires d > 0
    ensures CeilDiv(x, d) == 0 <==> x == 0
  {
  }

  /** The bounds of CeilDiv determine it. */
  lemma CeilDivUnique(x: nat, d: nat, r: int)
    requires d > 0
    requires (r - 1) * d < x <= r * d
    ensures r == CeilDiv(x, d)
  {
    var c: int := CeilDiv(x, d);
    CeilDivBounds(x, d);
    MulCancel(r - 1, c, d);
    MulCancel(c - 1, r, d);
  }

  lemma CeilDivMonotone(x: nat, y: nat, d: nat)
    requires d > 0 && x <= y
    ensures CeilDiv(x, d) <= CeilDiv(y, d)
  {
    CeilDivBounds(x, d);
    CeilDivBounds(y, d);
    MulCancel(CeilDiv(x, d) - 1, CeilDiv(y, d), d);
  }

  function U16At(s: seq<byte>, o: nat): u16
    requires o + 2 <= |s|
  {
    s[o] as int + 0x100 * s[o + 1] as int
  }

  function PutU16(s: seq<byte>, o: nat, v: u16): (r: seq<byte>)
    requires o + 2 <= |s|
    ensures |r| == |s|
    ensures U16At(r, o) == v
    ensures forall i :: 0 <= i < |s| && i != o && i != o + 1 ==> r[i] == s[i]
  {
    s[o := v % 0x100][o + 1 := v / 0x100]
  }

  function U32At(s: seq<byte>, o: nat): u32
    requires o + 4 <= |s|
  {
    s[o] as int + 0x100 * s[o + 1] as int + 0x1_0000 * s[o + 2] as int + 0x100_0000 * s[o + 3] as int
  }

  /** The four bytes of a word, lowest first. */
  function U32Bytes(v: u32): (r: seq<byte>)
    ensures |r| == 4
    ensures U32At(r, 0) == v
  {
    [v % 0x100, v / 0x100 % 0x100, v / 0x1_0000 % 0x100, v / 0x100_0000]
  }

  function U16Bytes(v: u16): (r: seq<byte>)
    ensures |r| == 2
  {
    [v % 0x100, v / 0x100]
  }

  /** The lowest byte of a word comes first. */
  lemma LittleEndian(s: seq<byte>, o: nat)
    requires o + 4 <= |s|
    ensures
      var v := U32At(s, o);
      s[o] == v % 0x100 && s[o + 1] == v / 0x100 % 0x100 && s[o + 2] == v / 0x1_0000 % 0x100 && s[o + 3] == v / 0x100_0000
    ensures U16At(s, o) == U32At(s, o) % 0x1_0000
  {
    var a: int, b: int, c: int, d: int := s[o], s[o + 1], s[o + 2], s[o + 3];
    var v := U32At(s, o);
    assert v == 0x100 * (b + 0x100 * (c + 0x100 * d)) + a;
    assert v / 0x100 == b + 0x100 * (c + 0x100 * d);
    assert v / 0x1_0000 == c + 0x100 * d;
    assert v / 0x100_0000 == d;
  }

  /** `memory_copy(d, s + o, |d|)`. */
  function Patch<T>(s: seq<T>, o: nat, d: seq<T>): (r: seq<T>)
    requires o + |d| <= |s|
    ensures |r| == |s|
    ensures forall i :: 0 <= i < |s| ==> r[i] == if o <= i < o + |d| then d[i - o] else s[i]
  {
    s[..o] + d + s[o + |d|..]
  }

  lemma PatchTwice<T>(s: seq<T>, o: nat, d: seq<T>, e: seq<T>)
    requires o + |d| + |e| <= |s|
    ensures Patch(Patch(s, o, d), o + |d|, e) == Patch(s, o, d + e)
  {
  }

  /** Bit `b` (a power of two) of a flag word. */
  predicate HasBit(flags: nat, b: nat)
    requires b > 0
  {
    flags / b % 2 == 1
  }

  lemma Halves(x: bv8)
    ensures x as int / 2 == (x >> 1) as int && (x as int % 2 == 1 <==> x & 1 == 1)
  {
  }

  /** A 32-bit sum that wrapped is smaller than its first term. */
  method CheckedSum(base: u32, offset: u32) returns (ok: bool, sum: u32)
    ensures ok <==> base + offset < U32_MOD
    ensures ok ==> sum == base + offset
  {
    sum := Wrap32(base + offset);
    ok := sum >= base;
  }
}
