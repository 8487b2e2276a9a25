/** Byte buffers and the positioned writes of an in-memory cursor. */
module Bytes {
  import opened Arithmetic

  type Byte = b: int | 0 <= b < 256

  const U64_RANGE := 0x1_0000_0000_0000_0000

  function Zeros(n: nat): (r: seq<Byte>) {
    seq(n, _ => 0)
  }

  /** Writes `data` at `pos`, growing the buffer with zeros when it ends before. */
  function WriteAt(buf: seq<Byte>, pos: nat, data: seq<Byte>): (r: seq<Byte>)
    ensures |r| == if data == [] || pos + |data| <= |buf| then |buf| else pos + |data|
    ensures forall i :: 0 <= i < |data| ==> r[pos + i] == data[i]
    ensures forall i :: 0 <= i < |buf| && !(pos <= i < pos + |data|) ==> r[i] == buf[i]
  {
    if data == [] then buf
    else
      var padded := if |buf| < pos then buf + Zeros(pos - |buf|) else buf;
      padded[..pos] + data + (if pos + |data| <= |padded| then padded[pos + |data|..] else [])
  }

  function PrefixSum(sizes: seq<nat>, n: nat): nat
    requires n <= |sizes|
  {
    if n == 0 then 0 else PrefixSum(sizes, n - 1) + sizes[n - 1]
  }

  /** Consecutive ranges starting at the prefix sums do not overlap. */
  lemma {:induction false} PrefixRangesDisjoint(sizes: seq<nat>, m: nat, n: nat)
    requires m < n <= |sizes|
    ensures PrefixSum(sizes, m) + sizes[m] <= PrefixSum(sizes, n)
    decreases n
  {
    if m < n - 1 {
      PrefixRangesDisjoint(sizes, m, n - 1);
    }
  }

  // -------------------------------------------------- little-endian integers

  function Pow256(n: nat): (r: nat)
    ensures r >= 1
  {
    if n == 0 then 1 else 256 * Pow256(n - 1)
  }

  function EncodeLE(v: nat, n: nat): (r: seq<Byte>)
    ensures |r| == n
  {
    if n == 0 then [] else [v % 256] + EncodeLE(v / 256, n - 1)
  }

  /** Byte `k` of a little-endian number is its digit of weight 256 ^ `k`. */
  lemma {:induction false} LittleEndianByte(v: nat, n: nat, k: nat)
    requires k < n
    ensures EncodeLE(v, n)[k] == v / Pow256(k) % 256
  {
    if k > 0 {
      LittleEndianByte(v / 256, n - 1, k - 1);
      DivideTwice(v, 256, Pow256(k - 1));
    }
  }

  function DecodeLE(s: seq<Byte>): nat {
    if s == [] then 0 else s[0] + 256 * DecodeLE(s[1..])
  }

  lemma {:induction false} LittleEndianRoundTrip(v: nat, n: nat)
    requires v < Pow256(n)
    ensures DecodeLE(EncodeLE(v, n)) == v
  {
    if n > 0 {
      LittleEndianRoundTrip(v / 256, n - 1);
      assert EncodeLE(v, n)[1..] == EncodeLE(v / 256, n - 1);
    }
  }

  /** Two's complement in 32 bits. */
  function EncodeI32(v: int): (r: seq<Byte>)
    requires -0x8000_0000 <= v < 0x8000_0000
    ensures |r| == 4
  {
    EncodeLE(if v < 0 then v + 0x1_0000_0000 else v, 4)
  }

  function DecodeI32(s: seq<Byte>): int
    requires |s| == 4
  {
    var u := DecodeLE(s);
    if u < 0x8000_0000 then u else u - 0x1_0000_0000
  }

  lemma {:induction false} PowersOf256(k: nat)
    requires k < 4
    ensures Pow256(k) * Pow256(3 - k) == 0x100_0000
  {
    assert Pow256(1) == 256 && Pow256(2) == 256 * Pow256(1) && Pow256(3) == 256 * Pow256(2);
  }

  lemma {:induction false} SameDigit(v: int, m: nat, n: nat)
    requires m > 0 && v >= -(m * n * 256)
    ensures (v + m * n * 256) / m % 256 == v / m % 256
  {
    var q, r := v / m, v % m;
    var p := q + n * 256;
    assert v == m * q + r;
    assert m * p == m * q + m * n * 256;
    ProductBounds(m, p, 0);
    ModUnique(v + m * n * 256, m, p, r);
  }

  /** Byte `k` is the digit of weight 256 ^ `k`, of negative numbers rounded downwards. */
  lemma {:induction false} I32Byte(v: int, k: nat)
    requires -0x8000_0000 <= v < 0x8000_0000 && k < 4
    ensures EncodeI32(v)[k] == v / Pow256(k) % 256
  {
    LittleEndianByte(if v < 0 then v + 0x1_0000_0000 else v, 4, k);
    PowersOf256(k);
    SameDigit(v, Pow256(k), Pow256(3 - k));
  }

  lemma {:induction false} I32RoundTrip(v: int)
    requires -0x8000_0000 <= v < 0x8000_0000
    ensures DecodeI32(EncodeI32(v)) == v
  {
    assert Pow256(4) == 256 * Pow256(3) == 65536 * Pow256(2) == 0x1_0000_0000;
    LittleEndianRoundTrip(if v < 0 then v + 0x1_0000_0000 else v, 4);
  }
}
