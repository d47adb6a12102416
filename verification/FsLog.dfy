/** Which blocks a file-system operation logs, and how many. */
module FsLog {
  import opened Blocks
  import opened Bitmap
  import opened FsSpec
  import opened FsFiles

  // ----- the blocks balloc takes -----

  ghost function FreeSet(g: Sb, d: Store): set<nat>
    requires Layout(g, d)
  {
    set x: nat | x < g.size && !Used(g, d, x)
  }

  /** b is the least free block. */
  ghost predicate Least(free: set<nat>, b: nat) {
    b in free && forall x :: x in free ==> b <= x
  }

  lemma {:induction false} LeastExists(free: set<nat>)
    requires free != {}
    ensures exists b :: Least(free, b)
  {
    assert (forall x :: x !in free) ==> free == {};
    var c :| c in free;
    if free == {c} {
      assert Least(free, c);
    } else {
      LeastExists(free - {c});
      var b :| Least(free - {c}, b);
      var m := if b < c then b else c;
      forall x | x in free ensures m <= x { assert x == c || x in free - {c}; }
      assert Least(free, m);
    }
  }

  /** The k least free blocks, or all if there are fewer. */
  ghost function Lowest(free: set<nat>, k: nat): (r: set<nat>)
    ensures r <= free
    decreases k
  {
    if k == 0 || free == {} then {}
    else
      LeastExists(free);
      var b :| Least(free, b);
      {b} + Lowest(free - {b}, k - 1)
  }

  lemma LeastUnique(free: set<nat>, b: nat, c: nat)
    requires Least(free, b) && Least(free, c)
    ensures b == c
  {}

  lemma LowestFirst(free: set<nat>, k: nat, b: nat)
    requires k > 0 && Least(free, b)
    ensures Lowest(free, k) == {b} + Lowest(free - {b}, k - 1)
  {
    var c: nat :| Least(free, c) && Lowest(free, k) == {c} + Lowest(free - {c}, k - 1);
    LeastUnique(free, b, c);
  }

  lemma LowestOne(free: set<nat>, b: nat)
    requires Least(free, b)
    ensures Lowest(free, 1) == {b}
  {
    LowestFirst(free, 1, b);
  }

  lemma {:induction false} LowestAdd(free: set<nat>, j: nat, k: nat)
    ensures Lowest(free, j + k) == Lowest(free, j) + Lowest(free - Lowest(free, j), k)
    decreases j
  {
    if j == 0 {
      assert free - Lowest(free, 0) == free;
    } else if free == {} {
      assert free - Lowest(free, j) == {};
    } else {
      LeastExists(free);
      var c :| Least(free, c);
      LowestFirst(free, j + k, c);
      LowestFirst(free, j, c);
      LowestAdd(free - {c}, j - 1, k);
      assert free - Lowest(free, j) == free - {c} - Lowest(free - {c}, j - 1);
    }
  }

  /** Taking a block off the bitmap, giving one back, and writing elsewhere. */
  lemma TakenFree(g: Sb, d: Store, b: nat)
    requires Layout(g, d) && b < g.size
    ensures Layout(g, SetUsed(g, d, b, true)) && FreeSet(g, SetUsed(g, d, b, true)) == FreeSet(g, d) - {b}
  {
    var d' := SetUsed(g, d, b, true);
    forall x: nat | x < g.size ensures Used(g, d', x) <==> Used(g, d, x) || x == b { UsedAfter(g, d, b, true, x); }
    hide Used, SetUsed;
    assert forall x :: x in FreeSet(g, d') <==> x in FreeSet(g, d) - {b};
  }

  lemma WrittenFree(g: Sb, d: Store, x: int, blk: Block)
    requires Layout(g, d) && g.datastart <= x < g.size
    ensures Layout(g, d[x := blk]) && FreeSet(g, d[x := blk]) == FreeSet(g, d)
  {
    forall b: nat | b < g.size ensures Used(g, d[x := blk], b) == Used(g, d, b) { assert MapBlock(g, b) != x; }
  }

  /** The bitmap blocks for a set of blocks. */
  ghost function Maps(g: Sb, bs: set<nat>): set<int> {
    set b | b in bs :: MapBlock(g, b)
  }

  lemma MapsAdd(g: Sb, a: set<nat>, b: set<nat>)
    ensures Maps(g, a + b) == Maps(g, a) + Maps(g, b) && Maps(g, {}) == {}
  {}

  lemma MapsOne(g: Sb, b: nat)
    ensures Maps(g, {b}) == {MapBlock(g, b)}
  {}

  /** The blocks k allocations take from disk d. */
  ghost function New(g: Sb, d: Store, k: nat): set<nat> {
    if Layout(g, d) then Lowest(FreeSet(g, d), k) else {}
  }

  /** Exactly these have become used. */
  ghost predicate Takes(g: Sb, d: Store, d': Store, k: nat) {
    Layout(g, d) && Layout(g, d') && FreeSet(g, d') == FreeSet(g, d) - New(g, d, k)
  }

  lemma TakesNone(g: Sb, d: Store)
    requires Layout(g, d)
    ensures Takes(g, d, d, 0) && New(g, d, 0) == {}
  {}

  lemma TakesOne(g: Sb, d: Store, d': Store, b: nat)
    requires Layout(g, d) && Layout(g, d') && Least(FreeSet(g, d), b) && FreeSet(g, d') == FreeSet(g, d) - {b}
    ensures Takes(g, d, d', 1) && New(g, d, 1) == {b}
  {
    LowestOne(FreeSet(g, d), b);
  }

  lemma TakesAdd(g: Sb, d: Store, d1: Store, d2: Store, j: nat, k: nat)
    requires Takes(g, d, d1, j) && Takes(g, d1, d2, k)
    ensures Takes(g, d, d2, j + k) && New(g, d, j + k) == New(g, d, j) + New(g, d1, k)
  {
    hide Used;
    LowestAdd(FreeSet(g, d), j, k);
  }

  lemma TakesWrite(g: Sb, d: Store, d1: Store, k: nat, x: int, blk: Block)
    requires Takes(g, d, d1, k) && g.datastart <= x < g.size
    ensures Takes(g, d, d1[x := blk], k)
  {
    WrittenFree(g, d1, x, blk);
  }

  // ----- the blocks writei logs -----

  /** How many blocks bmap allocates for file block bn when h bytes are mapped. */
  function Adds(h: int, bn: int): nat {
    if bn * BSIZE < h then 0 else if bn >= NDIRECT && h <= NDIRECT * BSIZE then 2 else 1
  }

  /** What bmap logs: the new blocks zeroed, their bits, and the indirect block's entry. */
  ghost function MapLog(g: Sb, d: Store, d': Store, ino: Inode, bn: nat, k: nat): set<int>
    requires |ino.addrs| == NDIRECT + 1 && bn < MAXFILE
  {
    if k == 0 then {}
    else {Slot(d', ino, FSlot(bn))} + Maps(g, New(g, d, k)) + if bn >= NDIRECT then {ino.addrs[NDIRECT]} else {}
  }

  /** The blocks of file blocks a to b - 1. */
  ghost function DataBlocks(d: Store, ino: Inode, a: nat, b: nat): (r: set<int>)
    requires |ino.addrs| == NDIRECT + 1 && b <= MAXFILE
    decreases b
  {
    if a >= b then {} else DataBlocks(d, ino, a, b - 1) + {Slot(d, ino, FSlot(b - 1))}
  }

  /** The file blocks of the first size bytes. */
  function NBlocks(size: int): int {
    (size + BSIZE - 1) / BSIZE
  }

  /** The same with the indirect block, if there is one. */
  function Footprint(size: int): (n: nat)
    requires size >= 0
  {
    NBlocks(size) + if size > NDIRECT * BSIZE then 1 else 0
  }

  /** The blocks allocated by a write of n bytes at off in a file of size bytes. */
  function Grows(size: nat, off: nat, n: nat): nat {
    Footprint(Extent(size, off, n)) - Footprint(size)
  }

  /** Whether an entry of the indirect block is made. */
  predicate Indirect(size: nat, off: nat, n: nat) {
    NBlocks(Extent(size, off, n)) > NBlocks(size) && NBlocks(Extent(size, off, n)) > NDIRECT
  }

  /** The file block after the last one touched. */
  function End(off: nat, n: nat): nat {
    if n == 0 then off / BSIZE else (off + n - 1) / BSIZE + 1
  }

  /** What writei's loop logs for the first n bytes at off: the file blocks touched, the bits of
      the blocks allocated, and the indirect block if it gets an entry.  d is the disk before. */
  ghost function LoopLog(g: Sb, d: Store, d': Store, ino: Inode, size: nat, off: nat, n: nat): set<int>
    requires |ino.addrs| == NDIRECT + 1 && off + n <= MAXBYTES
  {
    DataBlocks(d', ino, off / BSIZE, End(off, n)) + Maps(g, New(g, d, Grows(size, off, n)))
    + if Indirect(size, off, n) then {ino.addrs[NDIRECT]} else {}
  }

  /** What writei logs: the same, and the inode's block if the file grows. */
  ghost function WriteLog(g: Sb, d: Store, d': Store, ino: Inode, i: int, size: nat, off: nat, n: nat): set<int>
    requires |ino.addrs| == NDIRECT + 1 && off + n <= MAXBYTES
  {
    LoopLog(g, d, d', ino, size, off, n) + if n > 0 && off + n > size then {InodeBlock(g, i)} else {}
  }

  lemma {:induction false} DataKept(d: Store, ino: Inode, d': Store, ino': Inode, a: nat, b: nat)
    requires |ino.addrs| == |ino'.addrs| == NDIRECT + 1 && b <= MAXFILE
    requires forall m :: 0 <= m < b ==> Slot(d', ino', FSlot(m)) == Slot(d, ino, FSlot(m))
    ensures DataBlocks(d', ino', a, b) == DataBlocks(d, ino, a, b)
    decreases b
  {
    hide Slot;
    if a < b { DataKept(d, ino, d', ino', a, b - 1); }
  }

  lemma NoLoopLog(g: Sb, d: Store, ino: Inode, size: nat, off: nat)
    requires |ino.addrs| == NDIRECT + 1 && off <= size <= MAXBYTES && off <= MAXBYTES && Layout(g, d)
    ensures LoopLog(g, d, d, ino, size, off, 0) == {} && Takes(g, d, d, Grows(size, off, 0))
  {
    TakesNone(g, d);
    MapsAdd(g, {}, {});
  }

  /** The arithmetic of one more iteration, on m bytes at o = off + n within one block. */
  lemma NextChunk(size: nat, off: nat, n: nat, m: nat)
    requires off <= size && 0 < m <= BSIZE - (off + n) % BSIZE && (n == 0 || (off + n) % BSIZE == 0)
    ensures var h, bn := Extent(size, off, n), (off + n) / BSIZE;
            && End(off, n) == bn && End(off, n + m) == bn + 1 && Extent(h, off + n, m) == Extent(size, off, n + m)
            && Grows(size, off, n + m) == Grows(size, off, n) + Adds(h, bn)
            && (Indirect(size, off, n + m) <==> Indirect(size, off, n) || (Adds(h, bn) > 0 && bn >= NDIRECT))
  {}

  lemma LoopLogMore(g: Sb, d0: Store, d1: Store, ino1: Inode, d2: Store, ino2: Inode, size: nat, off: nat, n: nat, m: nat)
    requires |ino1.addrs| == |ino2.addrs| == NDIRECT + 1 && off + n + m <= MAXBYTES && off <= size <= MAXBYTES
    requires 0 < m <= BSIZE - (off + n) % BSIZE && (n == 0 || (off + n) % BSIZE == 0)
    requires MapOk(d1, ino1, Extent(size, off, n)) && (ino1.addrs[NDIRECT] != 0 ==> ino2.addrs[NDIRECT] == ino1.addrs[NDIRECT])
    requires var bn := (off + n) / BSIZE; forall k :: 0 <= k < MAXFILE && k != bn ==> Slot(d2, ino2, FSlot(k)) == Slot(d1, ino1, FSlot(k))
    requires Takes(g, d0, d1, Grows(size, off, n)) && Takes(g, d1, d2, Adds(Extent(size, off, n), (off + n) / BSIZE))
    ensures (off + n) / BSIZE < MAXFILE && Takes(g, d0, d2, Grows(size, off, n + m))
    ensures var bn := (off + n) / BSIZE;
            LoopLog(g, d0, d2, ino2, size, off, n + m) ==
            LoopLog(g, d0, d1, ino1, size, off, n) + {Slot(d2, ino2, FSlot(bn))} + MapLog(g, d1, d2, ino2, bn, Adds(Extent(size, off, n), bn))
  {
    hide Slot, Takes, New, Maps, MapIs, Grows, Adds, Indirect;
    var h, bn := Extent(size, off, n), (off + n) / BSIZE;
    NextChunk(size, off, n, m);
    DataKept(d1, ino1, d2, ino2, off / BSIZE, bn);
    TakesAdd(g, d0, d1, d2, Grows(size, off, n), Adds(h, bn));
    MapsAdd(g, New(g, d0, Grows(size, off, n)), New(g, d1, Adds(h, bn)));
    if Adds(h, bn) == 0 { NewNone(g, d1); }
    if Indirect(size, off, n) { IndirectThere(d1, ino1, size, off, n); }
  }

  lemma NewNone(g: Sb, d: Store)
    ensures New(g, d, 0) == {}
  {}

  lemma IndirectThere(d: Store, ino: Inode, size: nat, off: nat, n: nat)
    requires |ino.addrs| == NDIRECT + 1 && MapOk(d, ino, Extent(size, off, n)) && Indirect(size, off, n)
    ensures ino.addrs[NDIRECT] != 0
  {}

  /** The size field does not matter. */
  lemma LoopLogSize(g: Sb, d0: Store, d: Store, ino: Inode, ino': Inode, size: nat, off: nat, n: nat)
    requires |ino.addrs| == NDIRECT + 1 && ino' == ino.(size := ino'.size) && off + n <= MAXBYTES
    ensures LoopLog(g, d0, d, ino', size, off, n) == LoopLog(g, d0, d, ino, size, off, n)
  {
    hide New, Maps, Grows, Indirect;
    forall m | 0 <= m < End(off, n) ensures Slot(d, ino', FSlot(m)) == Slot(d, ino, FSlot(m)) {}
    hide Slot;
    DataKept(d, ino, d, ino', off / BSIZE, End(off, n));
  }

  // ----- how many they are -----

  /** How many blocks a write of n bytes at off logs in a file of size bytes: one for each file
      block touched, the bitmap blocks of the blocks allocated, and one each for the indirect
      block and the inode if they change. */
  ghost function WriteCost(g: Sb, d: Store, size: nat, off: nat, n: nat): nat {
    End(off, n) - off / BSIZE + |Maps(g, New(g, d, Grows(size, off, n)))|
    + (if Indirect(size, off, n) then 1 else 0) + if n > 0 && off + n > size then 1 else 0
  }

  lemma {:induction false} DataCount(d: Store, ino: Inode, a: nat, b: nat, lo: int)
    requires |ino.addrs| == NDIRECT + 1 && a <= b <= MAXFILE
    requires forall m, n :: a <= m < n < b ==> Slot(d, ino, FSlot(m)) != Slot(d, ino, FSlot(n))
    requires forall m :: a <= m < b ==> Slot(d, ino, FSlot(m)) >= lo && Slot(d, ino, FSlot(m)) != ino.addrs[NDIRECT]
    ensures |DataBlocks(d, ino, a, b)| == b - a && ino.addrs[NDIRECT] !in DataBlocks(d, ino, a, b)
    ensures forall x :: x in DataBlocks(d, ino, a, b) ==> x >= lo && exists m :: a <= m < b && Slot(d, ino, FSlot(m)) == x
    decreases b
  {
    hide Slot;
    if a < b {
      DataCount(d, ino, a, b - 1, lo);
      assert Slot(d, ino, FSlot(b - 1)) !in DataBlocks(d, ino, a, b - 1);
    }
  }

  lemma Distinct(g: Sb, d: Store, inodes: Inodes, i: int, h: nat, m: nat, n: nat)
    requires Base(g, d, inodes, {}) && i in inodes && MapOk(d, inodes[i], h) && m < n < MAXFILE && n * BSIZE < h
    ensures Slot(d, inodes[i], FSlot(m)) != Slot(d, inodes[i], FSlot(n))
  {
    hide Slot, Marks, Ranges, Layout;
    assert Slot(d, inodes[i], FSlot(n)) != 0;
  }

  lemma DataAt(g: Sb, d: Store, inodes: Inodes, i: int, h: nat, m: nat)
    requires Base(g, d, inodes, {}) && i in inodes && MapOk(d, inodes[i], h) && m < MAXFILE && m * BSIZE < h
    ensures var x := Slot(d, inodes[i], FSlot(m)); g.datastart <= x && x != inodes[i].addrs[NDIRECT]
  {
    assert Slot(d, inodes[i], NDIRECT) == inodes[i].addrs[NDIRECT];
    hide Slot, Marks, Layout;
    assert Slot(d, inodes[i], FSlot(m)) != 0;
  }

  lemma MapsBelow(g: Sb, d: Store, k: nat)
    requires Layout(g, d)
    ensures forall x :: x in Maps(g, New(g, d, k)) ==> g.bmapstart <= x < g.datastart
  {}

  lemma IndirectAt(g: Sb, d: Store, inodes: Inodes, i: int)
    requires Base(g, d, inodes, {}) && i in inodes
    ensures inodes[i].addrs[NDIRECT] == 0 || g.datastart <= inodes[i].addrs[NDIRECT]
  {
    assert Slot(d, inodes[i], NDIRECT) == inodes[i].addrs[NDIRECT];
  }

  /** The file blocks a to b - 1 are on as many blocks, all of them data blocks. */
  lemma DataFacts(g: Sb, d: Store, inodes: Inodes, i: int, h: nat, a: nat, b: nat)
    requires Base(g, d, inodes, {}) && i in inodes && |inodes[i].addrs| == NDIRECT + 1 && MapOk(d, inodes[i], h)
    requires a <= b <= MAXFILE && (b > 0 ==> (b - 1) * BSIZE < h)
    ensures var data := DataBlocks(d, inodes[i], a, b);
            |data| == b - a && inodes[i].addrs[NDIRECT] !in data && forall x :: x in data ==> x >= g.datastart
  {
    hide Slot, Base, MapOk, DataBlocks;
    var ino := inodes[i];
    forall m, k | a <= m < k < b ensures Slot(d, ino, FSlot(m)) != Slot(d, ino, FSlot(k)) { Distinct(g, d, inodes, i, h, m, k); }
    forall m | a <= m < b ensures Slot(d, ino, FSlot(m)) >= g.datastart && Slot(d, ino, FSlot(m)) != ino.addrs[NDIRECT] { DataAt(g, d, inodes, i, h, m); }
    DataCount(d, ino, a, b, g.datastart);
  }

  lemma EndIs(size: nat, off: nat, n: nat)
    requires off <= size && off + n <= MAXBYTES
    ensures off / BSIZE <= End(off, n) <= MAXFILE && (n > 0 ==> (End(off, n) - 1) * BSIZE < Extent(size, off, n))
  {}

  /** The parts of WriteLog do not overlap. */
  lemma CountLog(g: Sb, d0: Store, d: Store, inodes: Inodes, i: int, size: nat, off: nat, n: nat)
    requires Base(g, d, inodes, {}) && Layout(g, d0) && i in inodes && InodeBlock(g, i) < g.bmapstart && |inodes[i].addrs| == NDIRECT + 1
    requires off <= size <= MAXBYTES && off + n <= MAXBYTES && MapOk(d, inodes[i], Extent(size, off, n))
    ensures |WriteLog(g, d0, d, inodes[i], i, size, off, n)| == WriteCost(g, d0, size, off, n)
  {
    hide Slot, FSlot, Base, MapOk, New, Maps, Grows, Indirect, DataBlocks, End, Layout;
    var h, a, b, ino := Extent(size, off, n), off / BSIZE, End(off, n), inodes[i];
    EndIs(size, off, n);
    var data, maps := DataBlocks(d, ino, a, b), Maps(g, New(g, d0, Grows(size, off, n)));
    var ind, tab := if Indirect(size, off, n) then {ino.addrs[NDIRECT]} else {}, if n > 0 && off + n > size then {InodeBlock(g, i)} else {};
    if n > 0 { DataFacts(g, d, inodes, i, h, a, b); } else { NoData(d, ino, off); }
    MapsBelow(g, d0, Grows(size, off, n));
    IndirectAt(g, d, inodes, i);
    MapsFirst(g, d0);
    if Indirect(size, off, n) { IndirectThere(d, ino, size, off, n); }
    forall x | x in data ensures x !in maps && x !in ind && x >= g.datastart {}
    assert data + maps + ind !! tab;
    Sizes(data, maps, ind, tab);
  }

  lemma NoData(d: Store, ino: Inode, off: nat)
    requires |ino.addrs| == NDIRECT + 1 && off <= MAXBYTES
    ensures End(off, 0) == off / BSIZE && DataBlocks(d, ino, off / BSIZE, End(off, 0)) == {}
  {}

  lemma MapsFirst(g: Sb, d: Store)
    requires Layout(g, d)
    ensures g.bmapstart < g.datastart
  {
    assert MapBlock(g, 0) < g.datastart;
  }

  lemma Sizes(a: set<int>, b: set<int>, c: set<int>, e: set<int>)
    requires a !! b && a + b !! c && a + b + c !! e
    ensures |a + b + c + e| == |a| + |b| + |c| + |e|
  {}

  // ----- which writes stay within the budget of an operation -----

  /** A write inside the file logs the file blocks it touches and nothing else. */
  lemma InsideIff(g: Sb, d: Store, size: nat, off: nat, n: nat)
    requires 0 < n && off + n <= size
    ensures WriteCost(g, d, size, off, n) == (off % BSIZE + n - 1) / BSIZE + 1
    ensures WriteCost(g, d, size, off, n) <= MAXOPBLOCKS <==> off % BSIZE + n <= MAXOPBLOCKS * BSIZE
  {
    NewNone(g, d);
    MapsAdd(g, {}, {});
    hide New, Maps;
  }

  /** In a file system with one bitmap block all bits are in it. */
  lemma OneMap(g: Sb, d: Store, k: nat)
    requires Layout(g, d) && g.size <= BPB && FreeSet(g, d) != {} && k > 0
    ensures |Maps(g, New(g, d, k))| == 1
  {
    hide Used;
    LeastExists(FreeSet(g, d));
    var b :| Least(FreeSet(g, d), b);
    LowestFirst(FreeSet(g, d), k, b);
    forall x | x in Maps(g, New(g, d, k)) ensures x == g.bmapstart {}
    assert MapBlock(g, b) in Maps(g, New(g, d, k));
    assert Maps(g, New(g, d, k)) == {g.bmapstart};
  }

  /** A write that grows the file also logs the inode's block, the bitmap block if it allocates,
      and the indirect block if it then reaches beyond the direct ones. */
  lemma GrowIff(g: Sb, d: Store, size: nat, off: nat, n: nat)
    requires Layout(g, d) && g.size <= BPB && off <= size < off + n && (Grows(size, off, n) > 0 ==> FreeSet(g, d) != {})
    ensures WriteCost(g, d, size, off, n) <= MAXOPBLOCKS <==>
            off % BSIZE + n <= (MAXOPBLOCKS - 1 - Overhead(size, off + n)) * BSIZE
  {
    var k := Grows(size, off, n);
    GrowArith(size, off, n);
    if k > 0 { OneMap(g, d, k); } else { NewNone(g, d); MapsAdd(g, {}, {}); }
    hide New, Maps, Grows, FreeSet, Indirect, NBlocks;
    Touched(off, n);
  }

  /** What growing from size to end bytes logs besides file blocks and inode. */
  function Overhead(size: nat, end: nat): nat {
    if NBlocks(end) == NBlocks(size) then 0 else if end <= NDIRECT * BSIZE then 1 else 2
  }

  lemma GrowArith(size: nat, off: nat, n: nat)
    requires off <= size < off + n
    ensures (Grows(size, off, n) > 0 <==> NBlocks(off + n) != NBlocks(size))
    ensures Indirect(size, off, n) <==> NBlocks(off + n) != NBlocks(size) && off + n > NDIRECT * BSIZE
  {}

  lemma Touched(off: nat, n: nat)
    requires n > 0
    ensures End(off, n) - off / BSIZE == (off % BSIZE + n - 1) / BSIZE + 1
    ensures forall m :: End(off, n) - off / BSIZE <= m <==> off % BSIZE + n <= m * BSIZE
  {}

  /** Thirteen blocks' worth of bytes are too many, wherever they go. */
  lemma TooMany(g: Sb, d: Store, size: nat, off: nat, n: nat)
    requires n >= 13 * BSIZE
    ensures WriteCost(g, d, size, off, n) >= 13 > MAXOPBLOCKS
  {
    hide New, Maps, Grows, Indirect;
    Touched(off, n);
  }
}
