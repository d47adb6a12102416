/** The free-block bitmap of fs.c: one bit per block, least significant bit first. */
module Bitmap {
  import opened Blocks

  /** x & (1 << k) is not zero. */
  predicate BitOf(x: nat, k: nat) {
    if k == 0 then x % 2 == 1 else BitOf(x / 2, k - 1)
  }

  /** x | (1 << k), or x & ~(1 << k). */
  function WithBit(x: nat, k: nat, on: bool): (y: nat) {
    if k == 0 then x / 2 * 2 + (if on then 1 else 0) else WithBit(x / 2, k - 1, on) * 2 + x % 2
  }

  function Pow2(n: nat): (p: nat)
    ensures p >= 1
  {
    if n == 0 then 1 else 2 * Pow2(n - 1)
  }

  lemma {:induction false} WithBitRange(x: nat, k: nat, on: bool, n: nat)
    requires k < n && x < Pow2(n)
    ensures WithBit(x, k, on) < Pow2(n)
  {
    var p := Pow2(n - 1);
    assert Pow2(n) == 2 * p && x / 2 < p;
    hide Pow2;
    if k > 0 { WithBitRange(x / 2, k - 1, on, n - 1); }
  }

  lemma {:induction false} BitWith(x: nat, k: nat, on: bool, j: nat)
    ensures BitOf(WithBit(x, k, on), j) == if j == k then on else BitOf(x, j)
  {
    if k > 0 && j > 0 { BitWith(x / 2, k - 1, on, j - 1); }
  }

  const BPB := 4096

  /** Bit i of a bitmap block: bp->data[i / 8] & (1 << i % 8). */
  predicate BlockBit(b: Block, i: nat)
    requires i < BPB
  {
    BitOf(b[i / 8], i % 8)
  }

  function SetBlockBit(b: Block, i: nat, on: bool): (r: Block)
    requires i < BPB
  {
    assert Pow2(8) == 256;
    WithBitRange(b[i / 8], i % 8, on, 8);
    b[i / 8 := WithBit(b[i / 8], i % 8, on)]
  }

  lemma BlockBitSet(b: Block, i: nat, on: bool, j: nat)
    requires i < BPB && j < BPB
    ensures BlockBit(SetBlockBit(b, i, on), j) == if j == i then on else BlockBit(b, j)
  {
    BitWith(b[i / 8], i % 8, on, j % 8);
  }

  lemma {:induction false} ClearBit(k: nat)
    ensures !BitOf(0, k)
  {
    if k > 0 { ClearBit(k - 1); }
  }
}
