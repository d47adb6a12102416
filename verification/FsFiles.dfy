/** Files of fs.c as byte sequences over the direct/indirect block map. */
module FsFiles {
  import opened Blocks
  import opened FsSpec

  const MAXBYTES := MAXFILE * BSIZE

  /** The place of an inode that holds the nth block of its file. */
  function FSlot(n: nat): nat {
    if n < NDIRECT then n else n + 1
  }

  /** The first h bytes of the file, and no further block, are mapped; ind: the indirect block exists. */
  ghost predicate MapIs(d: Store, ino: Inode, h: int, ind: bool)
    requires |ino.addrs| == NDIRECT + 1
  {
    && (forall n :: 0 <= n < MAXFILE ==> (Slot(d, ino, FSlot(n)) != 0 <==> n * BSIZE < h))
    && (ino.addrs[NDIRECT] != 0 <==> ind)
  }

  /** No holes and nothing beyond: exactly the blocks a file of h bytes needs. */
  ghost predicate MapOk(d: Store, ino: Inode, h: int)
    requires |ino.addrs| == NDIRECT + 1
  {
    MapIs(d, ino, h, h > NDIRECT * BSIZE)
  }

  function ByteAt(d: Store, ino: Inode, k: nat): Byte
    requires |ino.addrs| == NDIRECT + 1 && k < MAXBYTES
  {
    var b := Slot(d, ino, FSlot(k / BSIZE));
    if b in d then d[b][k % BSIZE] else 0
  }

  /** The first h bytes of the file. */
  ghost function Raw(d: Store, ino: Inode, h: nat): (s: seq<Byte>)
    requires |ino.addrs| == NDIRECT + 1 && h <= MAXBYTES
    ensures |s| == h && forall k :: 0 <= k < h ==> s[k] == ByteAt(d, ino, k)
  {
    if h == 0 then [] else Raw(d, ino, h - 1) + [ByteAt(d, ino, h - 1)]
  }

  /** The file an inode stands for. */
  ghost function File(d: Store, ino: Inode): seq<Byte> {
    if Shape(ino) then Raw(d, ino, ino.size) else []
  }

  /** Every file block other than block n0 of inode i0 is where it was and holds what it held. */
  ghost predicate Kept(d: Store, inodes: Inodes, d': Store, inodes': Inodes, i0: int, n0: nat)
    requires SameShape(d, inodes, d', inodes')
  {
    forall j, m :: j in inodes && 0 <= m < MAXFILE && !(j == i0 && m == n0) ==>
      var b := Slot(d, inodes[j], FSlot(m));
      Slot(d', inodes'[j], FSlot(m)) == b && (b != 0 ==> b in d && d'[b] == d[b])
  }

  lemma KeptTrans(d: Store, inodes: Inodes, d1: Store, inodes1: Inodes, d2: Store, inodes2: Inodes, i0: int, n0: nat)
    requires SameShape(d, inodes, d1, inodes1) && SameShape(d1, inodes1, d2, inodes2)
    requires Kept(d, inodes, d1, inodes1, i0, n0) && Kept(d1, inodes1, d2, inodes2, i0, n0)
    ensures Kept(d, inodes, d2, inodes2, i0, n0)
  {
    hide Slot;
  }

  /** The bytes of other files, and those of i0 before block n0, are unchanged. */
  lemma KeptRaw(d: Store, inodes: Inodes, d': Store, inodes': Inodes, i0: int, n0: nat, j: int, h: nat)
    requires SameShape(d, inodes, d', inodes') && Kept(d, inodes, d', inodes', i0, n0)
    requires j in inodes && h <= MAXBYTES && (j == i0 ==> h <= n0 * BSIZE)
    requires forall n :: 0 <= n < MAXFILE && n * BSIZE < h ==> Slot(d, inodes[j], FSlot(n)) != 0
    ensures Raw(d', inodes'[j], h) == Raw(d, inodes[j], h)
  {
    hide Slot;
    forall k | 0 <= k < h ensures ByteAt(d', inodes'[j], k) == ByteAt(d, inodes[j], k) {
      assert k / BSIZE * BSIZE <= k;
      assert Slot(d, inodes[j], FSlot(k / BSIZE)) != 0;
    }
  }

  /** Writing a file block changes that block and nothing else. */
  lemma WriteFileBlock(g: Sb, d: Store, inodes: Inodes, i0: int, n0: nat, blk: Block)
    requires Base(g, d, inodes, {}) && i0 in inodes && n0 < MAXFILE && Slot(d, inodes[i0], FSlot(n0)) != 0
    ensures var x := Slot(d, inodes[i0], FSlot(n0)); var d' := d[x := blk];
            && x in d && Base(g, d', inodes, {}) && SameSlots(d, inodes, d', inodes) && Kept(d, inodes, d', inodes, i0, n0)
  {
    var x := Slot(d, inodes[i0], FSlot(n0));
    forall i | i in inodes ensures inodes[i].addrs[NDIRECT] != x {
      assert Slot(d, inodes[i], NDIRECT) == inodes[i].addrs[NDIRECT];
    }
    WriteKeeps(g, d, inodes, {}, x, blk);
    hide Slot;
  }

  /** Placing a floating block b at a direct place or as the (empty) indirect block. */
  lemma PlaceDirect(g: Sb, d: Store, inodes: Inodes, i: int, s: nat, b: int)
    requires Base(g, d, inodes, {b}) && i in inodes && s <= NDIRECT && inodes[i].addrs[s] == 0
    requires s == NDIRECT ==> b in d && d[b] == ZeroBlock()
    ensures var inodes' := inodes[i := inodes[i].(addrs := inodes[i].addrs[s := b])];
            && SameShape(d, inodes, d, inodes') && Placed(d, inodes, d, inodes', i, s, b) && Base(g, d, inodes', {})
  {
    var inodes' := inodes[i := inodes[i].(addrs := inodes[i].addrs[s := b])];
    forall t | 0 <= t < NSLOTS ensures Slot(d, inodes'[i], t) == if t == s then b else Slot(d, inodes[i], t) {
      if s == NDIRECT && t > NDIRECT { ZeroWord(t - NDIRECT - 1); }
    }
    assert {b} - {b} == {};
    PutBlock(g, d, inodes, {b}, d, inodes', i, s, b);
  }

  /** Placing a floating block b in the indirect block. */
  lemma PlaceIndirect(g: Sb, d: Store, inodes: Inodes, i: int, e: nat, b: Uint)
    requires Base(g, d, inodes, {b}) && i in inodes && e < NINDIRECT
    requires inodes[i].addrs[NDIRECT] != 0 && Slot(d, inodes[i], NDIRECT + 1 + e) == 0
    ensures var x := inodes[i].addrs[NDIRECT];
            x in d && var d' := d[x := SetWord(d[x], e, b)];
            && SameShape(d, inodes, d', inodes) && Placed(d, inodes, d', inodes, i, NDIRECT + 1 + e, b) && Base(g, d', inodes, {})
  {
    var x := inodes[i].addrs[NDIRECT];
    assert Slot(d, inodes[i], NDIRECT) == x;
    var d' := d[x := SetWord(d[x], e, b)];
    assert {b} - {b} == {};
    forall k | 0 <= k < g.size ensures Used(g, d', k) == Used(g, d, k) { assert MapBlock(g, k) != x; }
    forall j, t | j in inodes && 0 <= t < NSLOTS
      ensures Slot(d', inodes[j], t) == if j == i && t == NDIRECT + 1 + e then b else Slot(d, inodes[j], t)
    {
      if j == i {
        if t > NDIRECT { WordSetWord(d[x], e, b, t - NDIRECT - 1); }
      } else {
        assert Slot(d, inodes[j], NDIRECT) == inodes[j].addrs[NDIRECT];
        SlotFrame(d, d', inodes[j], t);
      }
    }
    PutBlock(g, d, inodes, {b}, d', inodes, i, NDIRECT + 1 + e, b);
  }

  // ----- writing part of a block -----

  /** data written over s from position off on. */
  function Splice(s: seq<Byte>, off: nat, data: seq<Byte>): (r: seq<Byte>)
    requires off <= |s|
    ensures |r| == if off + |data| > |s| then off + |data| else |s|
    ensures forall k :: 0 <= k < |r| ==> r[k] == if off <= k < off + |data| then data[k - off] else s[k]
  {
    s[..off] + data + (if off + |data| < |s| then s[off + |data|..] else [])
  }

  /** Splicing two adjacent pieces is splicing them at once. */
  lemma SpliceTwice(s: seq<Byte>, off: nat, a: seq<Byte>, b: seq<Byte>)
    requires off <= |s|
    ensures Splice(Splice(s, off, a), off + |a|, b) == Splice(s, off, a + b)
  {}

  /** The new extent of a file whose first h bytes are mapped, after m bytes written at off. */
  function Extent(h: int, off: int, m: int): int {
    if off + m > h then off + m else h
  }

  /** Blocks needed for the new extent are the old ones and block off / BSIZE. */
  lemma ExtentMap(d: Store, ino: Inode, h: int, off: int, m: int)
    requires |ino.addrs| == NDIRECT + 1 && 0 <= off <= h && 0 < m <= BSIZE - off % BSIZE
    requires var bn := off / BSIZE; MapOk(d, ino, if bn * BSIZE < h then h else bn * BSIZE + 1)
    ensures MapOk(d, ino, Extent(h, off, m))
  {
    hide Slot;
    var bn := off / BSIZE;
    var h1 := if bn * BSIZE < h then h else bn * BSIZE + 1;
    forall n | 0 <= n < MAXFILE ensures n * BSIZE < h1 <==> n * BSIZE < Extent(h, off, m) {}
  }

  /** One iteration of writei: block bn = off / BSIZE mapped (d1), then part of it overwritten (d2). */
  lemma ChunkWritten(d: Store, inodes: Inodes, d1: Store, inodes1: Inodes, d2: Store, i: int, h: nat, off: nat, data: seq<Byte>)
    requires SameShape(d, inodes, d1, inodes1) && i in inodes && d2.Keys == d1.Keys
    requires off <= h <= MAXBYTES && 0 < |data| <= BSIZE - off % BSIZE && off + |data| <= MAXBYTES
    requires MapOk(d, inodes[i], h) && (off / BSIZE * BSIZE < h ==> d1 == d && inodes1 == inodes)
    requires Kept(d, inodes, d2, inodes1, i, off / BSIZE)
    requires var x := Slot(d1, inodes1[i], FSlot(off / BSIZE)); var o := off % BSIZE;
             x != 0 && x in d1 && Slot(d2, inodes1[i], FSlot(off / BSIZE)) == x &&
             d2[x] == d1[x][..o] + data + d1[x][o + |data|..]
    ensures Raw(d2, inodes1[i], Extent(h, off, |data|)) == Splice(Raw(d, inodes[i], h), off, data)
  {
    hide Slot;
    var bn := off / BSIZE;
    var x := Slot(d1, inodes1[i], FSlot(bn));
    var h2 := Extent(h, off, |data|);
    forall k | 0 <= k < h2
      ensures ByteAt(d2, inodes1[i], k) == if off <= k < off + |data| then data[k - off] else ByteAt(d, inodes[i], k)
    {
      Within(k, off, |data|, h);
      hide Splice, Raw;
      if k / BSIZE != bn { assert Slot(d, inodes[i], FSlot(k / BSIZE)) != 0; }
    }
  }

  /** Byte k of the new extent, against the block that bytes off to off + m - 1 are in. */
  lemma Within(k: nat, off: nat, m: nat, h: nat)
    requires off <= h && 0 < m <= BSIZE - off % BSIZE && k < Extent(h, off, m)
    ensures k / BSIZE == off / BSIZE ==> k % BSIZE - off % BSIZE == k - off && (!(off <= k < off + m) ==> k < h && off / BSIZE * BSIZE < h)
    ensures k / BSIZE != off / BSIZE ==> k < h && k / BSIZE * BSIZE < h && !(off <= k < off + m)
  {}

  /** Files other than i0 keep their map. */
  lemma KeptMap(d: Store, inodes: Inodes, d': Store, inodes': Inodes, i0: int, n0: nat, j: int, h: int)
    requires SameShape(d, inodes, d', inodes') && Kept(d, inodes, d', inodes', i0, n0)
    requires j in inodes && j != i0 && inodes'[j] == inodes[j] && MapOk(d, inodes[j], h)
    ensures MapOk(d', inodes'[j], h)
  {
    hide Slot;
  }
}
