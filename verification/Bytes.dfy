/** Machine bytes, little-endian 32-bit words and single-bit updates, as the block
    layer and the filesystem use them. */
module Bytes {

  type Byte = x: int | 0 <= x < 256
  type U32 = x: int | 0 <= x < 0x1_0000_0000

  const U32_LIMIT := 0x1_0000_0000

  /** The `n` zero bytes that memset(p, 0, n) leaves. */
  function Zeros(n: nat): (z: seq<Byte>)
    ensures |z| == n
    ensures forall i :: 0 <= i < n ==> z[i] == 0
  {
    seq(n, _ => 0)
  }

  /** `b` with `chunk` copied over the bytes from `at` on: memcpy into a buffer. */
  function Splice(b: seq<Byte>, at: nat, chunk: seq<Byte>): (r: seq<Byte>)
    requires at + |chunk| <= |b|
    ensures |r| == |b|
    ensures forall i :: 0 <= i < |b| ==> r[i] == if at <= i < at + |chunk| then chunk[i - at] else b[i]
  {
    b[..at] + chunk + b[at + |chunk|..]
  }

  /** Bit `k` of `b`, counted from the least significant: b & (1 << k). */
  predicate Bit(b: Byte, k: nat)
  {
    if k == 0 then b % 2 == 1 else Bit(b / 2, k - 1)
  }

  /** b | (1 << k) */
  function OrBit(b: Byte, k: nat): (r: Byte)
    requires k < 8
    ensures forall j: nat :: j < 8 ==> Bit(r, j) == (j == k || Bit(b, j))
  {
    var r := SetBitTo(b, k, 8, 1);
    assert forall j: nat :: j < 8 ==> Bit(r, j) == (j == k || Bit(b, j)) by {
      forall j: nat | j < 8 { SetBitToCorrect(b, k, 8, 1, j); }
    }
    r
  }

  /** b & ~(1 << k) */
  function AndNotBit(b: Byte, k: nat): (r: Byte)
    requires k < 8
    ensures forall j: nat :: j < 8 ==> Bit(r, j) == (j != k && Bit(b, j))
  {
    var r := SetBitTo(b, k, 8, 0);
    assert forall j: nat :: j < 8 ==> Bit(r, j) == (j != k && Bit(b, j)) by {
      forall j: nat | j < 8 { SetBitToCorrect(b, k, 8, 0, j); }
    }
    r
  }

  /** How many numbers `width` bits can hold. */
  function Pow2(width: nat): nat
    requires width <= 8
  {
    [1, 2, 4, 8, 16, 32, 64, 128, 256][width]
  }

  /** `b` with bit `k` made `v`. */
  function SetBitTo(b: Byte, k: nat, width: nat, v: nat): (r: Byte)
    requires k < width <= 8 && b < Pow2(width) && v < 2
    ensures r < Pow2(width)
  {
    if k == 0 then
      b - b % 2 + v
    else
      2 * SetBitTo(b / 2, k - 1, width - 1, v) + b % 2
  }

  lemma {:induction false} SetBitToCorrect(b: Byte, k: nat, width: nat, v: nat, j: nat)
    requires k < width <= 8 && b < Pow2(width) && v < 2 && j < width
    ensures Bit(SetBitTo(b, k, width, v), j) == if j == k then v == 1 else Bit(b, j)
  {
    if k > 0 && j > 0 {
      SetBitToCorrect(b / 2, k - 1, width - 1, v, j - 1);
    }
  }

  /** The unsigned 32-bit word stored at offset `at`, least significant byte first. */
  function WordAt(b: seq<Byte>, at: nat): (n: U32)
    requires at + 4 <= |b|
  {
    var b0: int, b1: int, b2: int, b3: int := b[at], b[at + 1], b[at + 2], b[at + 3];
    b0 + 0x100 * b1 + 0x1_0000 * b2 + 0x100_0000 * b3
  }

  /** The four bytes of a word in memory order. */
  function WordBytes(n: U32): (b: seq<Byte>)
    ensures |b| == 4
    ensures WordAt(b, 0) == n
  {
    [n % 0x100, n / 0x100 % 0x100, n / 0x1_0000 % 0x100, n / 0x100_0000 % 0x100]
  }
}
