/** Disk blocks and the constants of param.h and fs.h.

    A block is BSIZE bytes.  The kernel views some blocks as arrays of 32-bit
    words (the log header, indirect blocks): `Word` and `SetWord` are the
    little-endian view the x86 gives it. */
module Blocks {

  const BSIZE := 512
  const NWORDS := 128
  const MAXOPBLOCKS := 10
  const LOGSIZE := 30
  const NBUF := 30
  const ROOTDEV := 1
  const UINT := 0x1_0000_0000

  type Byte = x: int | 0 <= x < 256
  type Block = b: seq<Byte> | |b| == BSIZE witness seq(BSIZE, _ => 0)
  type Uint = x: int | 0 <= x < UINT

  /** A disk address: device number and block number. */
  type Addr = (int, int)
  type Disk = map<Addr, Block>

  function Word(b: Block, i: nat): (w: Uint)
    requires i < NWORDS
  {
    var b0: int, b1: int, b2: int, b3: int := b[4 * i], b[4 * i + 1], b[4 * i + 2], b[4 * i + 3];
    b0 + 256 * b1 + 0x1_0000 * b2 + 0x100_0000 * b3
  }

  function SetWord(b: Block, i: nat, v: Uint): (r: Block)
    requires i < NWORDS
  {
    b[4 * i := v % 256][4 * i + 1 := (v / 256) % 256][4 * i + 2 := (v / 0x1_0000) % 256][4 * i + 3 := v / 0x100_0000]
  }

  /** Storing a word and loading it back, at the same or at another index. */
  lemma WordSetWord(b: Block, i: nat, v: Uint, j: nat)
    requires i < NWORDS && j < NWORDS
    ensures Word(SetWord(b, i, v), j) == if j == i then v else Word(b, j)
  {
    if j == i {
      assert v == v % 256 + 256 * (v / 256);
      assert v / 256 == (v / 256) % 256 + 256 * (v / 0x1_0000);
      assert v / 0x1_0000 == (v / 0x1_0000) % 256 + 256 * (v / 0x100_0000);
    }
  }

  function Zeros(n: nat): (s: seq<Byte>)
    ensures |s| == n && forall i :: 0 <= i < n ==> s[i] == 0
  {
    if n == 0 then [] else Zeros(n - 1) + [0]
  }

  /** A block as memset leaves it. */
  function ZeroBlock(): (b: Block)
    ensures forall i :: 0 <= i < BSIZE ==> b[i] == 0
  {
    Zeros(BSIZE)
  }

  lemma ZeroWord(i: nat)
    requires i < NWORDS
    ensures Word(ZeroBlock(), i) == 0
  {}
}
