/** What fs.c keeps true of inodes, blocks and the free map.

    An inode has NSLOTS places that hold a block number: its NDIRECT direct
    addresses, the address of its indirect block, and the entries of that block. */
module FsSpec {
  import opened Blocks
  import opened Bitmap

  const NDIRECT := 12
  const NINDIRECT := 128
  const MAXFILE := 140
  const NSLOTS := 141
  const IPB := 8

  /** The superblock; datastart is the first block after the metadata. */
  datatype Sb = Sb(size: nat, inodestart: nat, bmapstart: nat, datastart: nat)

  datatype Inode = Inode(typ: int, nlink: int, size: int, addrs: seq<int>)

  const T_DEV := 3

  /** Block contents, as seen through the buffer cache. */
  type Store = map<int, Block>
  type Inodes = map<int, Inode>

  /** BBLOCK */
  function MapBlock(g: Sb, b: nat): nat {
    g.bmapstart + b / BPB
  }

  /** IBLOCK */
  function InodeBlock(g: Sb, i: int): int {
    i / IPB + g.inodestart
  }

  ghost predicate Layout(g: Sb, d: Store) {
    && 0 < g.datastart <= g.size < UINT
    && (forall b :: 0 <= b < g.size ==> 0 <= MapBlock(g, b) < g.datastart)
    && (forall b :: 0 <= b < g.size ==> b in d)
  }

  /** The bitmap marks block b in use. */
  predicate Used(g: Sb, d: Store, b: nat)
    requires MapBlock(g, b) in d
  {
    BlockBit(d[MapBlock(g, b)], b % BPB)
  }

  predicate Shape(ino: Inode) {
    |ino.addrs| == NDIRECT + 1 && 0 <= ino.size <= MAXFILE * BSIZE
  }

  /** The block number in place s of an inode; 0 for none. */
  function Slot(d: Store, ino: Inode, s: nat): int
    requires |ino.addrs| == NDIRECT + 1 && s < NSLOTS
  {
    if s <= NDIRECT then ino.addrs[s]
    else if ino.addrs[NDIRECT] == 0 || ino.addrs[NDIRECT] !in d then 0
    else Word(d[ino.addrs[NDIRECT]], s - NDIRECT - 1)
  }

  ghost predicate Shapes(inodes: Inodes) {
    forall i :: i in inodes ==> Shape(inodes[i])
  }

  ghost predicate Owns(d: Store, inodes: Inodes, b: int)
    requires Shapes(inodes)
  {
    exists i, s :: i in inodes && 0 <= s < NSLOTS && Slot(d, inodes[i], s) == b
  }

  ghost predicate Ranges(g: Sb, d: Store, inodes: Inodes, float: set<int>)
    requires Shapes(inodes)
  {
    && (forall i, s :: i in inodes && 0 <= s < NSLOTS ==>
          var b := Slot(d, inodes[i], s); b == 0 || (g.datastart <= b < g.size && b !in float))
    && (forall b :: b in float ==> g.datastart <= b < g.size)
  }

  /** No block is in two places. */
  ghost predicate Unshared(d: Store, inodes: Inodes)
    requires Shapes(inodes)
  {
    forall i, s, j, t ::
      (i in inodes && j in inodes && 0 <= s < NSLOTS && 0 <= t < NSLOTS && Slot(d, inodes[i], s) == Slot(d, inodes[j], t) != 0) ==>
      i == j && s == t
  }

  /** The bitmap marks the metadata, the owned blocks, and the floating ones (allocated, not yet placed). */
  ghost predicate Marks(g: Sb, d: Store, inodes: Inodes, float: set<int>)
    requires Layout(g, d) && Shapes(inodes)
  {
    forall b :: 0 <= b < g.size ==> (Used(g, d, b) <==> b < g.datastart || b in float || Owns(d, inodes, b))
  }

  ghost predicate Base(g: Sb, d: Store, inodes: Inodes, float: set<int>) {
    Layout(g, d) && Shapes(inodes) && Ranges(g, d, inodes, float) && Unshared(d, inodes) && Marks(g, d, inodes, float)
  }

  // ----- how a change of one place changes the whole -----

  ghost predicate SameShape(d: Store, inodes: Inodes, d': Store, inodes': Inodes) {
    d'.Keys == d.Keys && inodes'.Keys == inodes.Keys && Shapes(inodes) && Shapes(inodes')
  }

  /** Place s0 of inode i0 now holds b; every other place is as before. */
  ghost predicate Placed(d: Store, inodes: Inodes, d': Store, inodes': Inodes, i0: int, s0: nat, b: int)
    requires SameShape(d, inodes, d', inodes')
  {
    && i0 in inodes && s0 < NSLOTS
    && forall i, s :: i in inodes && 0 <= s < NSLOTS ==>
         Slot(d', inodes'[i], s) == if i == i0 && s == s0 then b else Slot(d, inodes[i], s)
  }

  ghost predicate SameSlots(d: Store, inodes: Inodes, d': Store, inodes': Inodes)
    requires SameShape(d, inodes, d', inodes')
  {
    forall i, s :: i in inodes && 0 <= s < NSLOTS ==> Slot(d', inodes'[i], s) == Slot(d, inodes[i], s)
  }

  ghost predicate SameBits(g: Sb, d: Store, d': Store)
    requires Layout(g, d) && d'.Keys == d.Keys
  {
    forall b :: 0 <= b < g.size ==> Used(g, d', b) == Used(g, d, b)
  }

  /** A floating block put in an empty place. */
  lemma PutBlock(g: Sb, d: Store, inodes: Inodes, float: set<int>, d': Store, inodes': Inodes, i0: int, s0: nat, b: int)
    requires Base(g, d, inodes, float) && SameShape(d, inodes, d', inodes') && SameBits(g, d, d')
    requires Placed(d, inodes, d', inodes', i0, s0, b) && Slot(d, inodes[i0], s0) == 0 && b in float
    ensures Base(g, d', inodes', float - {b})
  {
    hide Slot, Used;
    assert b != 0;
    forall x | 0 <= x < g.size ensures Used(g, d', x) <==> x < g.datastart || x in float - {b} || Owns(d', inodes', x) {
      if x == b {
        assert Slot(d', inodes'[i0], s0) == b;
      } else if Owns(d, inodes, x) {
        var i, s :| i in inodes && 0 <= s < NSLOTS && Slot(d, inodes[i], s) == x;
        if i == i0 && s == s0 {
          assert x == 0;
        } else {
          assert Slot(d', inodes'[i], s) == x;
        }
      }
    }
  }

  /** A place emptied: its block floats. */
  lemma DropBlock(g: Sb, d: Store, inodes: Inodes, float: set<int>, d': Store, inodes': Inodes, i0: int, s0: nat)
    requires Base(g, d, inodes, float) && SameShape(d, inodes, d', inodes') && SameBits(g, d, d')
    requires Placed(d, inodes, d', inodes', i0, s0, 0) && Slot(d, inodes[i0], s0) != 0
    ensures Base(g, d', inodes', float + {Slot(d, inodes[i0], s0)})
  {
    hide Slot, Used;
    var b := Slot(d, inodes[i0], s0);
    assert g.datastart <= b < g.size;
    forall x | 0 <= x < g.size ensures Used(g, d', x) <==> x < g.datastart || x in float + {b} || Owns(d', inodes', x) {
      if x == b {
        assert Owns(d, inodes, b);
      } else if Owns(d, inodes, x) {
        var i, s :| i in inodes && 0 <= s < NSLOTS && Slot(d, inodes[i], s) == x;
        assert Slot(d', inodes'[i], s) == x;
      }
    }
  }

  /** A change that moves no block and no bit. */
  lemma KeepBlocks(g: Sb, d: Store, inodes: Inodes, float: set<int>, d': Store, inodes': Inodes)
    requires Base(g, d, inodes, float) && SameShape(d, inodes, d', inodes') && SameBits(g, d, d') && SameSlots(d, inodes, d', inodes')
    ensures Base(g, d', inodes', float)
  {
    hide Slot, Used;
    forall x ensures Owns(d', inodes', x) <==> Owns(d, inodes, x) {
      if Owns(d, inodes, x) {
        var i, s :| i in inodes && 0 <= s < NSLOTS && Slot(d, inodes[i], s) == x;
        assert Slot(d', inodes'[i], s) == x;
      }
      if Owns(d', inodes', x) {
        var i, s :| i in inodes' && 0 <= s < NSLOTS && Slot(d', inodes'[i], s) == x;
        assert Slot(d, inodes[i], s) == x;
      }
    }
  }

  // ----- the bitmap -----

  lemma SlotFrame(d: Store, d': Store, ino: Inode, s: nat)
    requires |ino.addrs| == NDIRECT + 1 && s < NSLOTS && d'.Keys == d.Keys
    requires ino.addrs[NDIRECT] != 0 && ino.addrs[NDIRECT] in d ==> d'[ino.addrs[NDIRECT]] == d[ino.addrs[NDIRECT]]
    ensures Slot(d', ino, s) == Slot(d, ino, s)
  {}

  /** A write above the metadata that spares the indirect blocks moves nothing. */
  lemma WriteKeeps(g: Sb, d: Store, inodes: Inodes, float: set<int>, x: int, blk: Block)
    requires Base(g, d, inodes, float) && g.datastart <= x < g.size
    requires forall i :: i in inodes ==> inodes[i].addrs[NDIRECT] != x
    ensures SameBits(g, d, d[x := blk]) && SameSlots(d, inodes, d[x := blk], inodes) && Base(g, d[x := blk], inodes, float)
  {
    var d' := d[x := blk];
    forall b | 0 <= b < g.size ensures Used(g, d', b) == Used(g, d, b) {
      assert MapBlock(g, b) != x;
    }
    forall i, s | i in inodes && 0 <= s < NSLOTS ensures Slot(d', inodes[i], s) == Slot(d, inodes[i], s) {
      SlotFrame(d, d', inodes[i], s);
    }
    KeepBlocks(g, d, inodes, float, d', inodes);
  }

  function SetUsed(g: Sb, d: Store, b: nat, on: bool): (d': Store)
    requires MapBlock(g, b) in d
  {
    d[MapBlock(g, b) := SetBlockBit(d[MapBlock(g, b)], b % BPB, on)]
  }

  lemma UsedAfter(g: Sb, d: Store, b: nat, on: bool, x: nat)
    requires MapBlock(g, b) in d && MapBlock(g, x) in d
    ensures Used(g, SetUsed(g, d, b, on), x) == if x == b then on else Used(g, d, x)
  {
    BlockBitSet(d[MapBlock(g, b)], b % BPB, on, x % BPB);
  }

  lemma SetUsedSlots(g: Sb, d: Store, inodes: Inodes, float: set<int>, b: nat, on: bool)
    requires Base(g, d, inodes, float) && b < g.size
    ensures SameSlots(d, inodes, SetUsed(g, d, b, on), inodes)
  {
    var d' := SetUsed(g, d, b, on);
    forall i, s | i in inodes && 0 <= s < NSLOTS ensures Slot(d', inodes[i], s) == Slot(d, inodes[i], s) {
      assert Slot(d, inodes[i], NDIRECT) == inodes[i].addrs[NDIRECT];
      SlotFrame(d, d', inodes[i], s);
    }
  }

  lemma OwnsSame(d: Store, d': Store, inodes: Inodes)
    requires Shapes(inodes) && d'.Keys == d.Keys && SameSlots(d, inodes, d', inodes)
    ensures forall x :: Owns(d', inodes, x) <==> Owns(d, inodes, x)
  {
    hide Slot;
    forall x ensures Owns(d', inodes, x) <==> Owns(d, inodes, x) {
      if Owns(d, inodes, x) {
        var i, s :| i in inodes && 0 <= s < NSLOTS && Slot(d, inodes[i], s) == x;
        assert Slot(d', inodes[i], s) == x;
      }
      if Owns(d', inodes, x) {
        var i, s :| i in inodes && 0 <= s < NSLOTS && Slot(d', inodes[i], s) == x;
        assert Slot(d, inodes[i], s) == x;
      }
    }
  }

  /** Marking a free block: it floats, and nobody had it. */
  lemma MarkBlock(g: Sb, d: Store, inodes: Inodes, float: set<int>, b: nat)
    requires Base(g, d, inodes, float) && b < g.size && !Used(g, d, b)
    ensures Base(g, SetUsed(g, d, b, true), inodes, float + {b})
    ensures b >= g.datastart && b !in float && !Owns(d, inodes, b)
  {
    var d' := SetUsed(g, d, b, true);
    forall x | 0 <= x < g.size ensures Used(g, d', x) == (x == b || Used(g, d, x)) { UsedAfter(g, d, b, true, x); }
    SetUsedSlots(g, d, inodes, float, b, true);
    OwnsSame(d, d', inodes);
    hide Slot, Used, SetUsed;
  }

  /** Unmarking a floating block. */
  lemma UnmarkBlock(g: Sb, d: Store, inodes: Inodes, float: set<int>, b: nat)
    requires Base(g, d, inodes, float) && b in float
    ensures Used(g, d, b) && Base(g, SetUsed(g, d, b, false), inodes, float - {b})
  {
    var d' := SetUsed(g, d, b, false);
    forall x | 0 <= x < g.size ensures Used(g, d', x) == (x != b && Used(g, d, x)) { UsedAfter(g, d, b, false, x); }
    SetUsedSlots(g, d, inodes, float, b, false);
    OwnsSame(d, d', inodes);
    hide Slot, Used, SetUsed;
  }
}
