/** fs.c as written: the block allocator, bmap, readi, writei and itrunc, in place on
    the blocks, the in-memory inodes and the on-disk inodes. */
module Fs {
  import opened Options
  import opened Blocks
  import opened Bitmap
  import opened FsSpec
  import opened FsFiles
  import opened FsLog

  class FileSystem {
    const g: Sb
    var disk: Store
    var inodes: Inodes
    var dinodes: Inodes
    // The blocks passed to log_write.
    ghost var logged: set<int>

    /** An empty image with n free inodes. */
    constructor (g: Sb, n: nat)
      requires 0 < g.datastart <= g.size < UINT && g.bmapstart + (g.size - 1) / BPB < g.datastart && InodeBlock(g, n) < g.bmapstart
      ensures Valid() && this.g == g && logged == {} && (forall i :: i in inodes <==> 1 <= i <= n) && forall i :: i in inodes ==> Contents(i) == []
    {
      BlankImage(g, BlankTable(n));
      this.g := g;
      disk := Marked(g, g.datastart);
      inodes, dinodes := BlankTable(n), BlankTable(n);
      logged := {};
    }

    /** balloc; 0 stands for the panic "out of blocks". */
    method Balloc(ghost float: set<int>) returns (b: nat)
      requires Base(g, disk, inodes, float)
      modifies this`disk, this`logged
      ensures b == 0 ==> disk == old(disk) && Full(g, disk) && logged == old(logged)
      ensures b != 0 ==>
                && g.datastart <= b < g.size && b !in float && !Owns(old(disk), inodes, b)
                && !Used(g, old(disk), b) && (forall x: nat :: x < b ==> Used(g, old(disk), x))
                && Base(g, disk, inodes, float + {b}) && disk[b] == ZeroBlock()
                && disk.Keys == old(disk).Keys && (forall x :: x in disk && x >= g.datastart && x != b ==> disk[x] == old(disk)[x])
      ensures b != 0 ==> logged == old(logged) + {b, MapBlock(g, b)} && Takes(g, old(disk), disk, 1) && New(g, old(disk), 1) == {b}
    {
      hide Slot, Used, Ranges, Unshared, Marks, Takes, New;
      var b0: nat := 0;
      while b0 < g.size
        invariant disk == old(disk) && logged == old(logged) && b0 % BPB == 0 && forall x: nat :: x < b0 && x < g.size ==> Used(g, disk, x)
        decreases g.size - b0
      {
        var bp := disk[MapBlock(g, b0)];
        var bi: nat := 0;
        while bi < BPB && b0 + bi < g.size
          invariant bi <= BPB && disk == old(disk) && logged == old(logged) && forall x: nat :: x < b0 + bi && x < g.size ==> Used(g, disk, x)
          decreases BPB - bi
        {
          SameMapBlock(g, disk, b0, bi);
          if !BlockBit(bp, bi) {
            b := b0 + bi;
            MarkBlock(g, disk, inodes, float, b);
            BallocTakes(g, disk, b);
            disk := disk[MapBlock(g, b0) := SetBlockBit(bp, bi, true)];
            logged := logged + {MapBlock(g, b0)};
            Unclaimed(g, disk, inodes, float, b);
            WriteKeeps(g, disk, inodes, float + {b}, b, ZeroBlock());
            disk := disk[b := ZeroBlock()];
            logged := logged + {b};
            return;
          }
          bi := bi + 1;
        }
        b0 := b0 + BPB;
      }
      b := 0;
    }

    /** bfree; true stands for the panic "freeing free block".  `ino` is the table without b. */
    method Bfree(b: nat, ghost ino: Inodes, ghost float: set<int>) returns (panic: bool)
      requires Base(g, disk, ino, float) && b in float
      modifies this`disk, this`logged
      ensures !panic && Base(g, disk, ino, float - {b}) && DataSame(g, old(disk), disk) && logged == old(logged) + {MapBlock(g, b)}
    {
      UnmarkBlock(g, disk, ino, float, b);
      var bp := disk[MapBlock(g, b)];
      var bi := b % BPB;
      if !BlockBit(bp, bi) {
        return true;
      }
      disk := disk[MapBlock(g, b) := SetBlockBit(bp, bi, false)];
      logged := logged + {MapBlock(g, b)};
      return false;
    }

    /** Allocate a block for an empty direct place, or for the missing indirect block. */
    method FillDirect(i: int, s: nat) returns (addr: int)
      requires Base(g, disk, inodes, {}) && i in inodes && s <= NDIRECT && inodes[i].addrs[s] == 0
      modifies this`disk, this`inodes, this`logged
      ensures addr == 0 ==> inodes == old(inodes) && Full(g, disk)
      ensures addr != 0 ==> logged == old(logged) + {addr} + Maps(g, New(g, old(disk), 1)) && Takes(g, old(disk), disk, 1)
      ensures addr != 0 ==>
                && inodes == old(inodes)[i := old(inodes)[i].(addrs := old(inodes)[i].addrs[s := addr])]
                && disk.Keys == old(disk).Keys && Shapes(old(inodes)) && Shapes(inodes)
                && Placed(old(disk), old(inodes), disk, inodes, i, s, addr)
                && Base(g, disk, inodes, {}) && BlocksKept(old(disk), old(inodes), disk)
                && !Owns(old(disk), old(inodes), addr)
    {
      hide Base, Placed, Owns, Used, BlocksKept, Takes, New, Maps;
      AllocPre(g, disk, inodes);
      addr := Balloc({});
      if addr == 0 {
        return;
      }
      MapsOne(g, addr);
      AllocSlots(g, old(disk), disk, inodes, addr);
      assert {} + {addr} == {addr};
      PlaceDirect(g, disk, inodes, i, s, addr);
      inodes := inodes[i := inodes[i].(addrs := inodes[i].addrs[s := addr])];
      PlacedAfter(old(disk), old(inodes), disk, inodes, i, s, addr);
    }

    /** Allocate a block for an empty entry of the indirect block. */
    method FillIndirect(i: int, e: nat) returns (addr: int)
      requires Base(g, disk, inodes, {}) && i in inodes && e < NINDIRECT && inodes[i].addrs[NDIRECT] != 0
      requires Slot(disk, inodes[i], NDIRECT + 1 + e) == 0
      modifies this`disk, this`logged
      ensures addr == 0 ==> Full(g, disk)
      ensures addr != 0 ==> logged == old(logged) + {addr} + Maps(g, New(g, old(disk), 1)) + {inodes[i].addrs[NDIRECT]} && Takes(g, old(disk), disk, 1)
      ensures addr != 0 ==>
                && disk.Keys == old(disk).Keys && Shapes(inodes)
                && Placed(old(disk), inodes, disk, inodes, i, NDIRECT + 1 + e, addr)
                && Base(g, disk, inodes, {}) && FileBlocksKept(old(disk), inodes, disk)
                && !Owns(old(disk), inodes, addr)
    {
      hide Base, Placed, Owns, Used, BlocksKept, FileBlocksKept, Slot, Takes, New, Maps;
      AllocPre(g, disk, inodes);
      IndirectIn(g, disk, inodes, i);
      addr := Balloc({});
      if addr == 0 {
        return;
      }
      MapsOne(g, addr);
      AllocSlots(g, old(disk), disk, inodes, addr);
      assert {} + {addr} == {addr};
      SlotsAgree(old(disk), disk, inodes, i, NDIRECT + 1 + e);
      PlaceIndirect(g, disk, inodes, i, e, addr);
      var x := inodes[i].addrs[NDIRECT];
      ghost var d := disk;
      TakesWrite(g, old(disk), disk, 1, x, SetWord(disk[x], e, addr));
      disk := disk[x := SetWord(disk[x], e, addr)];
      logged := logged + {x};
      EntryKept(g, old(disk), d, disk, inodes, i, e, addr);
    }

    /** bmap; 0 stands for its panic.  h bytes of the file are mapped. */
    method Bmap(i: int, bn: nat, ghost h: int) returns (addr: int)
      requires Base(g, disk, inodes, {}) && i in inodes && MapOk(disk, inodes[i], h) && (bn == 0 || (bn - 1) * BSIZE < h)
      modifies this`disk, this`inodes, this`logged
      ensures addr == 0 ==> bn >= MAXFILE || Full(g, disk)
      ensures bn < MAXFILE && bn * BSIZE < h ==> addr != 0 && disk == old(disk) && inodes == old(inodes) && logged == old(logged)
      ensures addr != 0 ==>
                && bn < MAXFILE && Mapped(old(disk), old(inodes), disk, inodes, i, bn)
                && Base(g, disk, inodes, {}) && MapOk(disk, inodes[i], if bn * BSIZE < h then h else bn * BSIZE + 1)
                && addr == Slot(disk, inodes[i], FSlot(bn))
      ensures addr != 0 ==>
                && Takes(g, old(disk), disk, Adds(h, bn)) && logged == old(logged) + MapLog(g, old(disk), disk, inodes[i], bn, Adds(h, bn))
                && (old(inodes)[i].addrs[NDIRECT] != 0 ==> inodes[i].addrs[NDIRECT] == old(inodes)[i].addrs[NDIRECT])
    {
      hide Base, Slot, Placed, Owns, BlocksKept, FileBlocksKept, Full, Mapped, MapIs, Takes, New, Maps;
      AllocPre(g, disk, inodes);
      TakesNone(g, disk);
      if bn < NDIRECT {
        MapAt(disk, inodes[i], h, bn);
        addr := inodes[i].addrs[bn];
        if addr == 0 {
          addr := FillDirect(i, bn);
          if addr != 0 { DirectMapped(old(disk), old(inodes), disk, inodes, i, bn, addr, h); }
        } else {
          NothingMapped(g, disk, inodes, i, bn);
        }
        return;
      }
      var e := bn - NDIRECT;
      if e < NINDIRECT {
        MapAt(disk, inodes[i], h, bn);
        if inodes[i].addrs[NDIRECT] == 0 {
          var x := FillDirect(i, NDIRECT);
          if x == 0 {
            return 0;
          }
          NoEntries(old(disk), old(inodes), disk, inodes, i, e, x);
        }
        ghost var d1, inodes1 := disk, inodes;
        TakesNone(g, d1);
        EntryAt(g, disk, inodes, i, e);
        addr := Word(disk[inodes[i].addrs[NDIRECT]], e);
        if addr == 0 {
          addr := FillIndirect(i, e);
          if addr != 0 {
            if inodes1 == old(inodes) { IndirectMapped(g, old(disk), inodes, disk, i, bn, addr, h); }
            else {
              BothMapped(g, old(disk), old(inodes), d1, inodes1, disk, i, bn, addr, h);
              TakesAdd(g, old(disk), d1, disk, 1, 1);
              MapsAdd(g, New(g, old(disk), 1), New(g, d1, 1));
            }
          }
        } else {
          NothingMapped(g, disk, inodes, i, bn);
        }
        return;
      }
      return 0;
    }

    /** Every block has one owner, the bitmap agrees, no file has a hole, and every inode
        is on disk as it is in memory. */
    ghost predicate Valid()
      reads this
    {
      && Base(g, disk, inodes, {}) && dinodes == inodes && TableOk(g, inodes)
      && (forall j :: j in inodes ==> MapOk(disk, inodes[j], inodes[j].size))
    }

    /** A file as the bytes it holds. */
    ghost function Contents(i: int): seq<Byte>
      requires i in inodes
      reads this`disk, this`inodes
    {
      File(disk, inodes[i])
    }

    /** One iteration of readi, within one block. */
    method ReadChunk(i: int, o: nat, m: nat) returns (data: seq<Byte>)
      requires Valid() && i in inodes && 0 < m <= BSIZE - o % BSIZE && o + m <= inodes[i].size
      modifies this`disk, this`inodes, this`logged
      ensures disk == old(disk) && inodes == old(inodes) && logged == old(logged) && data == Contents(i)[o..o + m]
    {
      hide Slot, Base, MapIs, Full, Mapped;
      AllocPre(g, disk, inodes);
      BlockBound(o, inodes[i].size);
      FileBlock(g, disk, inodes, i, o, m);
      var addr := Bmap(i, o / BSIZE, inodes[i].size);
      data := disk[addr][o % BSIZE..o % BSIZE + m];
    }

    /** device: what the read function of the inode's device answers, if it has one. */
    method Readi(i: int, off: nat, n: nat, device: Option<(int, seq<Byte>)>) returns (r: int, dst: seq<Byte>)
      requires Valid() && i in inodes && off < UINT && n < UINT
      modifies this`disk, this`inodes, this`logged
      ensures disk == old(disk) && inodes == old(inodes) && logged == old(logged)
      ensures inodes[i].typ == T_DEV ==> (r, dst) == if device.None? then (-1, []) else device.value
      ensures inodes[i].typ != T_DEV ==> (r == -1 <==> off > inodes[i].size || off + n >= UINT)
      ensures inodes[i].typ != T_DEV && r == -1 ==> dst == []
      ensures inodes[i].typ != T_DEV && r != -1 ==>
                && r == |dst|
                && dst == Contents(i)[off..if off + n > inodes[i].size then inodes[i].size else off + n]
    {
      hide Slot, Base, MapOk, Raw, Shapes, Min;
      AllocPre(g, disk, inodes);
      ShapesAt(inodes, i);
      var ip := inodes[i];
      dst := [];
      if ip.typ == T_DEV {
        if device.None? {
          return -1, [];
        }
        return device.value.0, device.value.1;
      }
      if off > ip.size || (off + n) % UINT < off {
        return -1, [];
      }
      var left := if (off + n) % UINT > ip.size then ip.size - off else n;
      ghost var file := Contents(i);
      var tot := 0;
      var o := off;
      while tot < left
        invariant 0 <= tot <= left && o == off + tot && disk == old(disk) && inodes == old(inodes) && logged == old(logged)
        invariant dst == file[off..o]
      {
        var m := Min(left - tot, BSIZE - o % BSIZE);
        MinIs(left - tot, BSIZE - o % BSIZE);
        var data := ReadChunk(i, o, m);
        assert file[off..o] + file[o..o + m] == file[off..o + m];
        dst := dst + data;
        tot := tot + m;
        o := o + m;
      }
      r := left;
    }

    /** One iteration of writei, within one block; the first h bytes of the file are mapped. */
    method WriteChunk(i: int, data: seq<Byte>, o: nat, ghost h: nat) returns (panic: bool)
      requires Base(g, disk, inodes, {}) && i in inodes && Shapes(inodes) && MapOk(disk, inodes[i], h)
      requires o <= h <= MAXBYTES && 0 < |data| <= BSIZE - o % BSIZE && o + |data| <= MAXBYTES
      requires forall j :: j in inodes && j != i ==> MapOk(disk, inodes[j], inodes[j].size)
      modifies this`disk, this`inodes, this`logged
      ensures panic ==> Full(g, disk)
      ensures !panic ==>
                && Base(g, disk, inodes, {}) && Others(old(disk), old(inodes), disk, inodes, i) && i in inodes && Shape(inodes[i])
                && inodes[i] == old(inodes)[i].(addrs := inodes[i].addrs)
                && MapOk(disk, inodes[i], Extent(h, o, |data|))
                && Raw(disk, inodes[i], Extent(h, o, |data|)) == Splice(Raw(old(disk), old(inodes)[i], h), o, data)
                && (o / BSIZE * BSIZE < h ==> inodes == old(inodes))
      ensures !panic ==>
                && Takes(g, old(disk), disk, Adds(h, o / BSIZE)) && SlotsKept(old(disk), old(inodes)[i], disk, inodes[i], o / BSIZE)
                && logged == old(logged) + MapLog(g, old(disk), disk, inodes[i], o / BSIZE, Adds(h, o / BSIZE)) + {Slot(disk, inodes[i], FSlot(o / BSIZE))}
                && (old(inodes)[i].addrs[NDIRECT] != 0 ==> inodes[i].addrs[NDIRECT] == old(inodes)[i].addrs[NDIRECT])
    {
      hide Slot, Base, MapIs, Full, Raw, Splice, Kept, Takes, New, Maps, SlotsKept, Adds;
      ghost var bn := o / BSIZE;
      BlockBound(o, h);
      var addr := Bmap(i, o / BSIZE, h);
      if addr == 0 {
        return true;
      }
      ghost var d1 := disk;
      var x := o % BSIZE;
      BlockIn(g, disk, inodes, i, bn);
      var blk := disk[addr];
      blk := blk[..x] + data + blk[x + |data|..];
      WriteFileBlock(g, disk, inodes, i, bn, blk);
      BlockRange(g, disk, inodes, i, bn);
      TakesWrite(g, old(disk), disk, Adds(h, bn), addr, blk);
      disk := disk[addr := blk];
      logged := logged + {addr};
      SameNow(d1, disk, inodes, i, bn, if bn * BSIZE < h then h else bn * BSIZE + 1);
      KeptTrans(old(disk), old(inodes), d1, inodes, disk, inodes, i, bn);
      ExtentMap(disk, inodes[i], h, o, |data|);
      ChunkWritten(old(disk), old(inodes), d1, inodes, disk, i, h, o, data);
      OthersKept(old(disk), old(inodes), disk, inodes, i, bn);
      KeptSlots(old(disk), old(inodes), disk, inodes, i, bn);
      return false;
    }

    /** writei's loop, after its checks. */
    method WriteAll(i: int, src: seq<Byte>, off: nat) returns (panic: bool)
      requires Valid() && i in inodes && Shapes(inodes) && off <= inodes[i].size && off + |src| <= MAXBYTES
      modifies this`disk, this`inodes, this`logged
      ensures panic ==> Full(g, disk)
      ensures !panic ==>
                && Base(g, disk, inodes, {}) && Others(old(disk), old(inodes), disk, inodes, i) && i in inodes && Shape(inodes[i])
                && inodes[i] == old(inodes)[i].(addrs := inodes[i].addrs)
                && (off + |src| <= old(inodes)[i].size ==> inodes == old(inodes))
                && var h := Extent(old(inodes)[i].size, off, |src|);
                MapOk(disk, inodes[i], h) && Raw(disk, inodes[i], h) == Splice(old(Contents(i)), off, src)
      ensures !panic ==> logged == old(logged) + LoopLog(g, old(disk), disk, inodes[i], old(inodes)[i].size, off, |src|)
    {
      hide Slot, Base, MapIs, Full, Raw, Splice, Others, Looped, LoopLog, Takes, MapLog, SlotsKept, Adds, Min, Extent;
      ghost var d0, inodes0, file := disk, inodes, Contents(i);
      ghost var h: nat := inodes[i].size;
      var tot := 0;
      var o := off;
      OthersInit(disk, inodes, i);
      SpliceNone(file, off);
      AllocPre(g, disk, inodes);
      LoopedStart(g, disk, inodes[i], h, off, logged);
      ExtentNone(h, off, |src|);
      while tot < |src|
        invariant 0 <= tot <= |src| && o == off + tot && i in inodes && h == Extent(inodes0[i].size, off, tot) <= MAXBYTES
        invariant Base(g, disk, inodes, {}) && Shape(inodes[i]) && MapOk(disk, inodes[i], h) && Others(d0, inodes0, disk, inodes, i)
        invariant inodes[i] == inodes0[i].(addrs := inodes[i].addrs)
        invariant h == inodes0[i].size ==> inodes == inodes0
        invariant Raw(disk, inodes[i], h) == Splice(file, off, src[..tot])
        invariant tot == 0 || tot == |src| || o % BSIZE == 0
        invariant Looped(g, d0, disk, inodes[i], inodes0[i].size, off, tot, old(logged), logged)
      {
        var m := Min(|src| - tot, BSIZE - o % BSIZE);
        ghost var d1, inodes1, l1 := disk, inodes, logged;
        ChunkBounds(inodes0[i].size, off, tot, |src|);
        OthersMap(d0, inodes0, disk, inodes, i);
        panic := WriteChunk(i, src[tot..tot + m], o, h);
        if panic {
          return;
        }
        OthersTrans(d0, inodes0, d1, inodes1, disk, inodes, i);
        SpliceMore(file, off, src, tot, m);
        LoopedMore(g, d0, d1, inodes1[i], disk, inodes[i], inodes0[i].size, off, tot, m, old(logged), l1, logged);
        h := Extent(h, o, m);
        tot := tot + m;
        o := o + m;
      }
      assert src[..tot] == src;
      LoopedIs(g, d0, disk, inodes[i], inodes0[i].size, off, |src|, old(logged), logged);
      panic := false;
    }

    /** panic: the kernel stopped because the disk is full.  device: what the write function of
        the inode's device answers, if it has one. */
    method Writei(i: int, src: seq<Byte>, off: nat, device: Option<int>) returns (r: int, panic: bool)
      requires Valid() && i in inodes && off < UINT && |src| < UINT
      modifies this`disk, this`inodes, this`dinodes, this`logged
      ensures panic ==> Full(g, disk)
      ensures !panic ==> Valid() && inodes.Keys == old(inodes).Keys
      ensures old(inodes)[i].typ == T_DEV ==> !panic && r == (if device.None? then -1 else device.value) && disk == old(disk) && inodes == old(inodes) && logged == old(logged)
      ensures !panic && old(inodes)[i].typ != T_DEV ==> (r == -1 <==> off > old(inodes)[i].size || off + |src| >= UINT || off + |src| > MAXBYTES)
      ensures !panic && r == -1 ==> disk == old(disk) && inodes == old(inodes) && logged == old(logged)
      ensures !panic && old(inodes)[i].typ != T_DEV && r != -1 ==> r == |src| && Written(old(disk), old(inodes), disk, inodes, i, off, src)
      ensures !panic && old(inodes)[i].typ != T_DEV && r != -1 ==> Logs(g, old(disk), disk, old(inodes), inodes, i, off, |src|, old(logged), logged)
    {
      hide Slot, Base, MapOk, Full, Raw, File, Splice, Others, Shapes, Shape, Written, Grown, LoopLog, Logs, TableOk;
      AllocPre(g, disk, inodes);
      if inodes[i].typ == T_DEV {
        return if device.None? then -1 else device.value, false;
      }
      if BadRange(inodes[i].size, off, |src|) {
        return -1, false;
      }
      panic := WriteAll(i, src, off);
      if !panic {
        WriteDone(g, old(disk), old(inodes), disk, inodes, i, off, src);
        r := |src|;
        ghost var inodes1 := inodes;
        UpdateSize(i, off, |src|);
        ShapesAt(old(inodes), i);
        ShapeIs(inodes1[i]);
        LogsAll(g, old(disk), disk, old(inodes), inodes1, inodes, i, off, |src|, old(logged), logged);
        TableKept(g, old(inodes), inodes);
      } else {
        r := -1;
      }
    }

    /** The end of writei. */
    method UpdateSize(i: int, off: nat, n: nat)
      requires i in inodes
      modifies this`inodes, this`dinodes, this`logged
      ensures inodes == Grown(old(inodes), i, off, n)
      ensures logged == old(logged) + if n > 0 && off + n > old(inodes)[i].size then {InodeBlock(g, i)} else {}
      ensures dinodes == if n > 0 && off + n > old(inodes)[i].size then old(dinodes)[i := inodes[i]] else old(dinodes)
    {
      if n > 0 && off + n > inodes[i].size {
        inodes := inodes[i := inodes[i].(size := off + n)];
        dinodes := dinodes[i := inodes[i]];
        logged := logged + {InodeBlock(g, i)};
      }
    }

    /** itrunc's loop over the direct addresses. */
    method FreeDirect(i: int) returns (panic: bool)
      requires Base(g, disk, inodes, {}) && i in inodes
      modifies this`disk, this`inodes, this`logged
      ensures !panic && Base(g, disk, inodes, {}) && DataSame(g, old(disk), disk)
      ensures Shapes(old(inodes)) && i in inodes
      ensures inodes == old(inodes)[i := old(inodes)[i].(addrs := ZeroAddrs(old(inodes)[i].addrs, NDIRECT))]
      ensures logged == old(logged) + DirectBits(g, old(inodes)[i].addrs, NDIRECT)
    {
      hide Base, DataSame, ZeroAddrs;
      AllocPre(g, disk, inodes);
      ShapesAt(inodes, i);
      ghost var addrs := inodes[i].addrs;
      ZeroSteps(addrs);
      DataRefl(g, disk);
      var s := 0;
      while s < NDIRECT
        invariant 0 <= s <= NDIRECT && Base(g, disk, inodes, {}) && DataSame(g, old(disk), disk)
        invariant inodes == old(inodes)[i := old(inodes)[i].(addrs := ZeroAddrs(addrs, s))]
        invariant logged == old(logged) + DirectBits(g, addrs, s)
      {
        var b := inodes[i].addrs[s];
        ghost var d := disk;
        if b != 0 {
          EmptySlot(g, disk, inodes, i, s);
          ghost var ino := inodes[i := inodes[i].(addrs := inodes[i].addrs[s := 0])];
          panic := Bfree(b, ino, {b});
          assert {b} - {b} == {};
          if panic {
            return;
          }
          DataTrans(g, old(disk), d, disk);
          inodes := inodes[i := inodes[i].(addrs := inodes[i].addrs[s := 0])];
        } else {
          SetZero(inodes[i].addrs, s);
        }
        s := s + 1;
      }
      panic := false;
    }

    /** itrunc's treatment of the indirect block and its entries. */
    method FreeIndirect(i: int) returns (panic: bool)
      requires Base(g, disk, inodes, {}) && i in inodes && |inodes[i].addrs| == NDIRECT + 1 && inodes[i].addrs[NDIRECT] != 0
      modifies this`disk, this`inodes, this`logged
      ensures !panic && Base(g, disk, inodes, {}) && DataSame(g, old(disk), disk)
      ensures inodes == old(inodes)[i := old(inodes)[i].(addrs := old(inodes)[i].addrs[NDIRECT := 0])]
      ensures var x := old(inodes)[i].addrs[NDIRECT];
              x >= 0 && x in old(disk) && logged == old(logged) + EntryBits(g, old(disk)[x], NINDIRECT) + {MapBlock(g, x)}
    {
      hide Base, DataSame, Entries;
      var x := inodes[i].addrs[NDIRECT];
      ghost var ino := inodes[i := inodes[i].(addrs := inodes[i].addrs[NDIRECT := 0])];
      DropIndirect(g, disk, inodes, i);
      var a := disk[x];
      DataRefl(g, disk);
      EntriesEnd(a);
      var j := 0;
      while j < NINDIRECT
        invariant 0 <= j <= NINDIRECT && logged == old(logged) + EntryBits(g, a, j) && Base(g, disk, ino, Entries(a, j) + {x}) && DataSame(g, old(disk), disk) && inodes == old(inodes)
      {
        EntryDistinct(g, old(disk), inodes, i, x, j);
        ghost var d := disk;
        if Word(a, j) != 0 {
          panic := Bfree(Word(a, j), ino, Entries(a, j) + {x});
          if panic {
            return;
          }
          DataTrans(g, old(disk), d, disk);
        }
        j := j + 1;
      }
      ghost var d := disk;
      assert {} + {x} == {x} && {x} - {x} == {};
      panic := Bfree(x, ino, {x});
      if panic {
        return;
      }
      DataTrans(g, old(disk), d, disk);
      inodes := inodes[i := inodes[i].(addrs := inodes[i].addrs[NDIRECT := 0])];
    }

    /** itrunc: the file becomes empty, exactly its blocks become free, all else stays. */
    method Itrunc(i: int) returns (panic: bool)
      requires Valid() && i in inodes
      modifies this`disk, this`inodes, this`dinodes, this`logged
      ensures !panic && Valid() && inodes.Keys == old(inodes).Keys
      ensures Contents(i) == [] && inodes[i].typ == old(inodes)[i].typ && inodes[i].nlink == old(inodes)[i].nlink
      ensures forall j :: j in inodes && j != i ==> inodes[j] == old(inodes)[j] && Contents(j) == old(Contents(j))
      ensures Freed(g, old(disk), old(inodes)[i], disk)
      ensures logged == old(logged) + TruncLog(g, old(disk), old(inodes)[i], i)
    {
      hide Base, DataSame, MapOk, Freed, ZeroAddrs, File, Shapes;
      AllocPre(g, disk, inodes);
      ShapesAt(inodes, i);
      ghost var d0, inodes0 := disk, inodes;
      panic := FreeDirect(i);
      if panic {
        return;
      }
      ghost var d := disk;
      SameIndirect(g, d0, d, inodes0, i);
      if inodes[i].addrs[NDIRECT] != 0 {
        panic := FreeIndirect(i);
        if panic {
          return;
        }
        DataTrans(g, d0, d, disk);
      }
      EmptyInode(g, disk, inodes, i);
      inodes := inodes[i := inodes[i].(size := 0)];
      dinodes := dinodes[i := inodes[i]];
      logged := logged + {InodeBlock(g, i)};
      Truncated(g, d0, inodes0, disk, inodes, i);
    }
  }

  /** The bitmap blocks of the blocks that itrunc frees, and the inode's block. */
  ghost function DirectBits(g: Sb, addrs: seq<int>, k: nat): set<int>
    requires k <= |addrs|
  {
    if k == 0 then {} else DirectBits(g, addrs, k - 1) + if addrs[k - 1] > 0 then {MapBlock(g, addrs[k - 1])} else {}
  }

  ghost function EntryBits(g: Sb, a: Block, k: nat): set<int>
    requires k <= NINDIRECT
  {
    if k == 0 then {} else EntryBits(g, a, k - 1) + if Word(a, k - 1) > 0 then {MapBlock(g, Word(a, k - 1))} else {}
  }

  ghost function TruncLog(g: Sb, d: Store, ino: Inode, i: int): set<int> {
    (if |ino.addrs| > NDIRECT then DirectBits(g, ino.addrs, NDIRECT) else {}) + {InodeBlock(g, i)} +
    if |ino.addrs| > NDIRECT && ino.addrs[NDIRECT] > 0 && ino.addrs[NDIRECT] in d
    then EntryBits(g, d[ino.addrs[NDIRECT]], NINDIRECT) + {MapBlock(g, ino.addrs[NDIRECT])} else {}
  }

  lemma SameIndirect(g: Sb, d0: Store, d: Store, inodes: Inodes, i: int)
    requires Base(g, d0, inodes, {}) && DataSame(g, d0, d) && i in inodes && |inodes[i].addrs| == NDIRECT + 1
    ensures var x := inodes[i].addrs[NDIRECT]; x == 0 || (x > 0 && x in d0 && x in d && d[x] == d0[x])
  {
    assert Slot(d0, inodes[i], NDIRECT) == inodes[i].addrs[NDIRECT];
  }

  /** The inodes' blocks come before the bitmap. */
  ghost predicate TableOk(g: Sb, inodes: Inodes) {
    forall i :: i in inodes ==> InodeBlock(g, i) < g.bmapstart
  }

  /** What a completed write of n bytes at off has logged: the blocks of WriteLog, as many as
      WriteCost says. */
  ghost predicate Logs(g: Sb, d0: Store, d: Store, inodes0: Inodes, inodes: Inodes, i: int, off: nat, n: nat, logged0: set<int>, logged: set<int>) {
    && i in inodes0 && i in inodes && |inodes[i].addrs| == NDIRECT + 1 && off + n <= MAXBYTES && 0 <= inodes0[i].size
    && var w := WriteLog(g, d0, d, inodes[i], i, inodes0[i].size, off, n);
    logged == logged0 + w && |w| == WriteCost(g, d0, inodes0[i].size, off, n)
  }

  /** The file blocks of inode i other than bn are where they were. */
  ghost predicate SlotsKept(d: Store, ino: Inode, d': Store, ino': Inode, bn: nat) {
    |ino.addrs| == |ino'.addrs| == NDIRECT + 1 && forall m :: 0 <= m < MAXFILE && m != bn ==> Slot(d', ino', FSlot(m)) == Slot(d, ino, FSlot(m))
  }

  lemma KeptSlots(d: Store, inodes: Inodes, d': Store, inodes': Inodes, i: int, bn: nat)
    requires SameShape(d, inodes, d', inodes') && Kept(d, inodes, d', inodes', i, bn) && i in inodes
    ensures SlotsKept(d, inodes[i], d', inodes'[i], bn)
  {
    hide Slot;
  }

  lemma BallocTakes(g: Sb, d: Store, b: nat)
    requires Layout(g, d) && g.datastart <= b < g.size && !Used(g, d, b) && forall x: nat :: x < b ==> Used(g, d, x)
    ensures var d' := SetUsed(g, d, b, true)[b := ZeroBlock()]; Takes(g, d, d', 1) && New(g, d, 1) == {b}
  {
    TakenFree(g, d, b);
    hide SetUsed, Used;
    WrittenFree(g, SetUsed(g, d, b, true), b, ZeroBlock());
    TakesOne(g, d, SetUsed(g, d, b, true)[b := ZeroBlock()], b);
  }

  lemma IndirectIn(g: Sb, d: Store, inodes: Inodes, i: int)
    requires Base(g, d, inodes, {}) && i in inodes && inodes[i].addrs[NDIRECT] != 0
    ensures g.datastart <= inodes[i].addrs[NDIRECT] < g.size
  {
    assert Slot(d, inodes[i], NDIRECT) == inodes[i].addrs[NDIRECT];
  }

  lemma BlockRange(g: Sb, d: Store, inodes: Inodes, i: int, bn: nat)
    requires Base(g, d, inodes, {}) && i in inodes && bn < MAXFILE && Slot(d, inodes[i], FSlot(bn)) != 0
    ensures g.datastart <= Slot(d, inodes[i], FSlot(bn)) < g.size
  {
    hide Slot;
  }

  /** The arithmetic of one iteration of writei's loop. */
  lemma ChunkBounds(size: nat, off: nat, tot: nat, n: nat)
    requires off <= size <= MAXBYTES && tot < n && off + n <= MAXBYTES
    ensures var o, h := off + tot, Extent(size, off, tot); var m := Min(n - tot, BSIZE - o % BSIZE);
            && 0 < m <= BSIZE - o % BSIZE && tot + m <= n && (tot + m == n || (o + m) % BSIZE == 0) && o / BSIZE < MAXFILE
            && o <= h <= MAXBYTES && Extent(h, o, m) == Extent(size, off, tot + m) <= MAXBYTES
            && (Extent(h, o, m) == size ==> h == size && o / BSIZE * BSIZE < h)
  {}

  lemma ExtentNone(size: nat, off: nat, n: nat)
    requires off <= size
    ensures Extent(size, off, 0) == size && (off + n <= size ==> Extent(size, off, n) == size)
  {}

  /** writei's loop after n bytes: what it has allocated and logged. */
  ghost predicate Looped(g: Sb, d0: Store, d: Store, ino: Inode, size: int, off: nat, n: nat, logged0: set<int>, logged: set<int>) {
    && |ino.addrs| == NDIRECT + 1 && off + n <= MAXBYTES && 0 <= size && Takes(g, d0, d, Grows(size, off, n))
    && logged == logged0 + LoopLog(g, d0, d, ino, size, off, n)
  }

  lemma LoopedIs(g: Sb, d0: Store, d: Store, ino: Inode, size: nat, off: nat, n: nat, logged0: set<int>, logged: set<int>)
    requires Looped(g, d0, d, ino, size, off, n, logged0, logged)
    ensures |ino.addrs| == NDIRECT + 1 && off + n <= MAXBYTES && logged == logged0 + LoopLog(g, d0, d, ino, size, off, n)
  {}

  lemma LoopedStart(g: Sb, d: Store, ino: Inode, size: nat, off: nat, logged: set<int>)
    requires |ino.addrs| == NDIRECT + 1 && off <= size <= MAXBYTES && Layout(g, d)
    ensures Looped(g, d, d, ino, size, off, 0, logged, logged)
  {
    hide LoopLog, Takes;
    NoLoopLog(g, d, ino, size, off);
  }

  /** One more iteration. */
  lemma LoopedMore(g: Sb, d0: Store, d1: Store, ino1: Inode, d2: Store, ino2: Inode, size: nat, off: nat, n: nat, m: nat,
                   logged0: set<int>, logged1: set<int>, logged2: set<int>)
    requires Looped(g, d0, d1, ino1, size, off, n, logged0, logged1)
    requires off + n + m <= MAXBYTES && off <= size <= MAXBYTES
    requires 0 < m <= BSIZE - (off + n) % BSIZE && (n == 0 || (off + n) % BSIZE == 0) && (off + n) / BSIZE < MAXFILE
    requires MapOk(d1, ino1, Extent(size, off, n))
    requires SlotsKept(d1, ino1, d2, ino2, (off + n) / BSIZE) && (ino1.addrs[NDIRECT] != 0 ==> ino2.addrs[NDIRECT] == ino1.addrs[NDIRECT])
    requires Takes(g, d1, d2, Adds(Extent(size, off, n), (off + n) / BSIZE))
    requires var bn := (off + n) / BSIZE;
             logged2 == logged1 + MapLog(g, d1, d2, ino2, bn, Adds(Extent(size, off, n), bn)) + {Slot(d2, ino2, FSlot(bn))}
    ensures Looped(g, d0, d2, ino2, size, off, n + m, logged0, logged2) && Extent(Extent(size, off, n), off + n, m) == Extent(size, off, n + m)
  {
    hide Slot, Takes, LoopLog, MapLog, MapIs, Grows, Adds;
    LoopLogMore(g, d0, d1, ino1, d2, ino2, size, off, n, m);
  }

  lemma TableKept(g: Sb, inodes: Inodes, inodes': Inodes)
    requires TableOk(g, inodes) && inodes'.Keys == inodes.Keys
    ensures TableOk(g, inodes')
  {}

  /** writei's loop and its end: ino is the inode between them. */
  lemma LogsFrom(g: Sb, d0: Store, d: Store, inodes: Inodes, ino: Inode, i: int, size: nat, off: nat, n: nat, logged0: set<int>, logged: set<int>)
    requires Base(g, d, inodes, {}) && Layout(g, d0) && i in inodes && InodeBlock(g, i) < g.bmapstart
    requires off <= size <= MAXBYTES && off + n <= MAXBYTES && |ino.addrs| == NDIRECT + 1 && inodes[i] == ino.(size := inodes[i].size)
    requires MapOk(d, ino, Extent(size, off, n))
    requires logged == logged0 + LoopLog(g, d0, d, ino, size, off, n) + if n > 0 && off + n > size then {InodeBlock(g, i)} else {}
    ensures var w := WriteLog(g, d0, d, inodes[i], i, size, off, n); logged == logged0 + w && |w| == WriteCost(g, d0, size, off, n)
  {
    hide LoopLog, Base, MapOk, WriteCost, Layout;
    MapSize(d, ino, inodes[i], Extent(size, off, n));
    LoopLogSize(g, d0, d, ino, inodes[i], size, off, n);
    CountLog(g, d0, d, inodes, i, size, off, n);
  }

  lemma LogsAll(g: Sb, d0: Store, d: Store, inodes0: Inodes, inodes1: Inodes, inodes: Inodes, i: int, off: nat, n: nat,
                logged0: set<int>, logged: set<int>)
    requires Layout(g, d0) && Base(g, d, inodes, {}) && i in inodes0 && i in inodes1 && TableOk(g, inodes0) && Shape(inodes0[i])
    requires off <= inodes0[i].size && off + n <= MAXBYTES && inodes1[i] == inodes0[i].(addrs := inodes1[i].addrs) && inodes == Grown(inodes1, i, off, n)
    requires |inodes1[i].addrs| == NDIRECT + 1 && MapOk(d, inodes1[i], Extent(inodes0[i].size, off, n))
    requires logged == logged0 + LoopLog(g, d0, d, inodes1[i], inodes0[i].size, off, n) + if n > 0 && off + n > inodes1[i].size then {InodeBlock(g, i)} else {}
    ensures Logs(g, d0, d, inodes0, inodes, i, off, n, logged0, logged)
  {
    hide LoopLog, Base, MapOk, WriteCost, Layout, WriteLog;
    LogsFrom(g, d0, d, inodes, inodes1[i], i, inodes0[i].size, off, n, logged0, logged);
  }

  lemma MapSize(d: Store, ino: Inode, ino': Inode, h: int)
    requires |ino.addrs| == NDIRECT + 1 && ino' == ino.(size := ino'.size) && MapOk(d, ino, h)
    ensures MapOk(d, ino', h)
  {
    forall n | 0 <= n < MAXFILE ensures Slot(d, ino', FSlot(n)) == Slot(d, ino, FSlot(n)) {}
  }

  /** No block is free. */
  ghost predicate Full(g: Sb, d: Store) {
    Layout(g, d) && forall x: nat :: x < g.size ==> Used(g, d, x)
  }

  lemma SameMapBlock(g: Sb, d: Store, b0: nat, bi: nat)
    requires b0 % BPB == 0 && bi < BPB
    ensures MapBlock(g, b0 + bi) == MapBlock(g, b0) && (b0 + bi) % BPB == bi
    ensures MapBlock(g, b0) in d ==> (Used(g, d, b0 + bi) <==> BlockBit(d[MapBlock(g, b0)], bi))
  {}

  /** A floating block is nobody's indirect block. */
  lemma Unclaimed(g: Sb, d: Store, inodes: Inodes, float: set<int>, b: int)
    requires Base(g, d, inodes, float + {b})
    ensures g.datastart <= b < g.size && forall i :: i in inodes ==> inodes[i].addrs[NDIRECT] != b
  {
    forall i | i in inodes ensures inodes[i].addrs[NDIRECT] != b {
      assert Slot(d, inodes[i], NDIRECT) == inodes[i].addrs[NDIRECT];
    }
  }

  /** Every owned block holds what it held. */
  ghost predicate BlocksKept(d: Store, inodes: Inodes, d': Store) {
    Shapes(inodes) && d'.Keys == d.Keys && forall b :: b != 0 && Owns(d, inodes, b) ==> b in d && d'[b] == d[b]
  }

  /** Every block of file data holds what it held. */
  ghost predicate FileBlocksKept(d: Store, inodes: Inodes, d': Store) {
    && Shapes(inodes) && d'.Keys == d.Keys
    && forall j, m :: j in inodes && 0 <= m < MAXFILE ==>
         var b := Slot(d, inodes[j], FSlot(m)); b != 0 ==> b in d && d'[b] == d[b]
  }

  lemma AllocPre(g: Sb, d: Store, inodes: Inodes)
    requires Base(g, d, inodes, {})
    ensures Shapes(inodes) && Layout(g, d)
  {}

  /** An allocation moves no block and spares the owned ones. */
  lemma AllocSlots(g: Sb, d: Store, d': Store, inodes: Inodes, b: int)
    requires Base(g, d, inodes, {}) && d'.Keys == d.Keys && b in d' && !Owns(d, inodes, b)
    requires forall x :: x in d' && x >= g.datastart && x != b ==> d'[x] == d[x]
    ensures SameShape(d, inodes, d', inodes) && SameSlots(d, inodes, d', inodes) && BlocksKept(d, inodes, d')
  {
    forall i, s | i in inodes && 0 <= s < NSLOTS ensures Slot(d', inodes[i], s) == Slot(d, inodes[i], s) {
      assert Slot(d, inodes[i], NDIRECT) == inodes[i].addrs[NDIRECT];
      SlotFrame(d, d', inodes[i], s);
    }
    forall x | x != 0 && Owns(d, inodes, x) ensures x in d && d'[x] == d[x] {
      var i, s :| i in inodes && 0 <= s < NSLOTS && Slot(d, inodes[i], s) == x;
    }
  }

  lemma SlotsAgree(d: Store, d': Store, inodes: Inodes, i: int, s: nat)
    requires SameShape(d, inodes, d', inodes) && SameSlots(d, inodes, d', inodes) && i in inodes && s < NSLOTS
    ensures Slot(d', inodes[i], s) == Slot(d, inodes[i], s)
  {}

  lemma PlacedAfter(d: Store, inodes: Inodes, d': Store, inodes': Inodes, i: int, s: nat, b: int)
    requires SameShape(d, inodes, d', inodes) && SameSlots(d, inodes, d', inodes)
    requires SameShape(d', inodes, d', inodes') && Placed(d', inodes, d', inodes', i, s, b)
    ensures Placed(d, inodes, d', inodes', i, s, b)
  {
    hide Slot;
  }

  lemma EntryKept(g: Sb, d: Store, d1: Store, d2: Store, inodes: Inodes, i: int, e: nat, b: Uint)
    requires Base(g, d, inodes, {}) && SameShape(d, inodes, d1, inodes) && SameSlots(d, inodes, d1, inodes) && BlocksKept(d, inodes, d1)
    requires i in inodes && e < NINDIRECT
    requires var x := inodes[i].addrs[NDIRECT]; x != 0 && x in d1 && d2 == d1[x := SetWord(d1[x], e, b)]
    requires Placed(d1, inodes, d2, inodes, i, NDIRECT + 1 + e, b)
    ensures FileBlocksKept(d, inodes, d2) && Placed(d, inodes, d2, inodes, i, NDIRECT + 1 + e, b)
  {
    var x := inodes[i].addrs[NDIRECT];
    assert Slot(d, inodes[i], NDIRECT) == x;
    hide Slot;
    forall j, m | j in inodes && 0 <= m < MAXFILE
      ensures var y := Slot(d, inodes[j], FSlot(m)); y != 0 ==> y in d && d2[y] == d[y]
    {
      var y := Slot(d, inodes[j], FSlot(m));
      if y != 0 {
        assert Owns(d, inodes, y);
        assert y != x;
      }
    }
  }

  /** bmap's effect on everything else: only inode i's addresses may change, and every other
      file block stays. */
  ghost predicate Mapped(d: Store, inodes: Inodes, d': Store, inodes': Inodes, i: int, bn: nat) {
    && SameShape(d, inodes, d', inodes') && i in inodes
    && (forall j :: j in inodes && j != i ==> inodes'[j] == inodes[j])
    && inodes'[i] == inodes[i].(addrs := inodes'[i].addrs)
    && Kept(d, inodes, d', inodes', i, bn)
  }

  lemma MapAt(d: Store, ino: Inode, h: int, bn: nat)
    requires |ino.addrs| == NDIRECT + 1 && MapOk(d, ino, h) && bn < MAXFILE
    ensures Slot(d, ino, FSlot(bn)) != 0 <==> bn * BSIZE < h
    ensures bn < NDIRECT ==> Slot(d, ino, FSlot(bn)) == ino.addrs[bn]
    ensures ino.addrs[NDIRECT] != 0 <==> h > NDIRECT * BSIZE
  {}

  lemma NothingMapped(g: Sb, d: Store, inodes: Inodes, i: int, bn: nat)
    requires Base(g, d, inodes, {}) && i in inodes
    ensures Mapped(d, inodes, d, inodes, i, bn)
  {
    hide Slot;
  }

  lemma EntryAt(g: Sb, d: Store, inodes: Inodes, i: int, e: nat)
    requires Base(g, d, inodes, {}) && i in inodes && inodes[i].addrs[NDIRECT] != 0 && e < NINDIRECT
    ensures inodes[i].addrs[NDIRECT] in d
    ensures Word(d[inodes[i].addrs[NDIRECT]], e) == Slot(d, inodes[i], NDIRECT + 1 + e)
  {
    assert Slot(d, inodes[i], NDIRECT) == inodes[i].addrs[NDIRECT];
  }

  /** A fresh indirect block has no entries. */
  lemma NoEntries(d: Store, inodes: Inodes, d': Store, inodes': Inodes, i: int, e: nat, x: int)
    requires SameShape(d, inodes, d', inodes') && Placed(d, inodes, d', inodes', i, NDIRECT, x)
    requires inodes[i].addrs[NDIRECT] == 0 && e < NINDIRECT
    ensures Slot(d', inodes'[i], NDIRECT + 1 + e) == 0 && inodes'[i].addrs[NDIRECT] == x
  {
    assert Slot(d', inodes'[i], NDIRECT) == x;
    assert Slot(d, inodes[i], NDIRECT + 1 + e) == 0;
  }

  /** The next block of a file mapped: h bytes were mapped up to block bn. */
  lemma Extended(d: Store, ino: Inode, d': Store, ino': Inode, h: int, bn: nat)
    requires |ino.addrs| == |ino'.addrs| == NDIRECT + 1 && MapOk(d, ino, h) && bn < MAXFILE
    requires bn * BSIZE >= h && (bn == 0 || (bn - 1) * BSIZE < h)
    requires forall n :: 0 <= n < MAXFILE && n != bn ==> Slot(d', ino', FSlot(n)) == Slot(d, ino, FSlot(n))
    requires Slot(d', ino', FSlot(bn)) != 0 && (ino'.addrs[NDIRECT] != 0 <==> bn >= NDIRECT)
    ensures MapOk(d', ino', bn * BSIZE + 1)
  {
    hide Slot;
    forall n | 0 <= n < MAXFILE ensures Slot(d', ino', FSlot(n)) != 0 <==> n * BSIZE < bn * BSIZE + 1 {
      if n != bn { assert Slot(d, ino, FSlot(n)) != 0 <==> n * BSIZE < h; }
    }
  }

  lemma DirectMapped(d: Store, inodes: Inodes, d': Store, inodes': Inodes, i: int, bn: nat, b: int, h: int)
    requires SameShape(d, inodes, d', inodes') && Placed(d, inodes, d', inodes', i, bn, b) && BlocksKept(d, inodes, d')
    requires bn < NDIRECT && b != 0 && inodes' == inodes[i := inodes[i].(addrs := inodes[i].addrs[bn := b])]
    requires MapOk(d, inodes[i], h) && bn * BSIZE >= h && (bn == 0 || (bn - 1) * BSIZE < h)
    ensures Mapped(d, inodes, d', inodes', i, bn) && MapOk(d', inodes'[i], bn * BSIZE + 1) && Slot(d', inodes'[i], FSlot(bn)) == b
  {
    hide Slot, MapIs;
    MapAt(d, inodes[i], h, bn);
    forall j, m | j in inodes && 0 <= m < MAXFILE && Slot(d, inodes[j], FSlot(m)) != 0
      ensures var y := Slot(d, inodes[j], FSlot(m)); y in d && d'[y] == d[y]
    {
      assert Owns(d, inodes, Slot(d, inodes[j], FSlot(m)));
    }
    Extended(d, inodes[i], d', inodes'[i], h, bn);
  }

  lemma IndirectMapped(g: Sb, d: Store, inodes: Inodes, d': Store, i: int, bn: nat, b: int, h: int)
    requires SameShape(d, inodes, d', inodes) && NDIRECT <= bn < MAXFILE && Placed(d, inodes, d', inodes, i, bn + 1, b) && FileBlocksKept(d, inodes, d')
    requires b != 0 && inodes[i].addrs[NDIRECT] != 0
    requires MapOk(d, inodes[i], h) && bn * BSIZE >= h && (bn - 1) * BSIZE < h
    ensures Mapped(d, inodes, d', inodes, i, bn) && MapOk(d', inodes[i], bn * BSIZE + 1) && Slot(d', inodes[i], FSlot(bn)) == b
  {
    hide Slot, MapIs;
    Extended(d, inodes[i], d', inodes[i], h, bn);
  }

  lemma BothMapped(g: Sb, d: Store, inodes: Inodes, d1: Store, inodes1: Inodes, d2: Store, i: int, bn: nat, b: int, h: int)
    requires SameShape(d, inodes, d1, inodes1) && i in inodes && BlocksKept(d, inodes, d1)
    requires Placed(d, inodes, d1, inodes1, i, NDIRECT, inodes1[i].addrs[NDIRECT])
    requires inodes1 == inodes[i := inodes[i].(addrs := inodes[i].addrs[NDIRECT := inodes1[i].addrs[NDIRECT]])] && inodes1[i].addrs[NDIRECT] != 0
    requires SameShape(d1, inodes1, d2, inodes1) && NDIRECT <= bn < MAXFILE
    requires Placed(d1, inodes1, d2, inodes1, i, bn + 1, b) && FileBlocksKept(d1, inodes1, d2) && b != 0
    requires MapOk(d, inodes[i], h) && bn * BSIZE >= h && (bn - 1) * BSIZE < h
    ensures Mapped(d, inodes, d2, inodes1, i, bn) && MapOk(d2, inodes1[i], bn * BSIZE + 1) && Slot(d2, inodes1[i], FSlot(bn)) == b
  {
    hide Slot, MapIs;
    forall j, m | j in inodes && 0 <= m < MAXFILE && !(j == i && m == bn)
      ensures var y := Slot(d, inodes[j], FSlot(m)); Slot(d2, inodes1[j], FSlot(m)) == y && (y != 0 ==> y in d && d2[y] == d[y])
    {
      var y := Slot(d, inodes[j], FSlot(m));
      assert (FSlot(m) != NDIRECT && FSlot(m) != bn + 1) || j != i;
      assert Slot(d1, inodes1[j], FSlot(m)) == y;
      assert Slot(d2, inodes1[j], FSlot(m)) == y;
      if y != 0 { assert Owns(d, inodes, y); }
    }
    Extended(d, inodes[i], d2, inodes1[i], h, bn);
  }

  /** What a completed write of src at off does: a splice of file i, and nothing to any other. */
  ghost predicate Written(d0: Store, inodes0: Inodes, d: Store, inodes: Inodes, i: int, off: nat, src: seq<Byte>) {
    && inodes.Keys == inodes0.Keys && i in inodes && off <= |File(d0, inodes0[i])|
    && File(d, inodes[i]) == Splice(File(d0, inodes0[i]), off, src)
    && inodes[i].typ == inodes0[i].typ && inodes[i].nlink == inodes0[i].nlink
    && forall j :: j in inodes && j != i ==> inodes[j] == inodes0[j] && File(d, inodes[j]) == File(d0, inodes0[j])
  }

  /** writei's three range checks, in 32-bit arithmetic. */
  predicate BadRange(size: int, off: nat, n: nat)
    requires off < UINT && n < UINT
    ensures BadRange(size, off, n) <==> off > size || off + n >= UINT || off + n > MAXBYTES
  {
    off > size || (off + n) % UINT < off || (off + n) % UINT > MAXBYTES
  }

  /** inodes with inode i's size raised to the end of a write. */
  function Grown(inodes: Inodes, i: int, off: nat, n: nat): Inodes
    requires i in inodes
  {
    if n > 0 && off + n > inodes[i].size then inodes[i := inodes[i].(size := off + n)] else inodes
  }

  lemma WriteDoneGrew(g: Sb, d0: Store, inodes0: Inodes, d: Store, inodes: Inodes, i: int, off: nat, src: seq<Byte>)
    requires Base(g, d, inodes, {}) && Others(d0, inodes0, d, inodes, i) && i in inodes
    requires inodes[i] == inodes0[i].(addrs := inodes[i].addrs) && off <= inodes0[i].size < off + |src| <= MAXBYTES
    requires MapOk(d, inodes[i], off + |src|) && Raw(d, inodes[i], off + |src|) == Splice(File(d0, inodes0[i]), off, src)
    ensures var inodes' := inodes[i := inodes[i].(size := off + |src|)];
            && Base(g, d, inodes', {}) && inodes' == inodes0[i := inodes'[i]]
            && (forall j :: j in inodes' ==> MapOk(d, inodes'[j], inodes'[j].size))
            && Written(d0, inodes0, d, inodes', i, off, src)
  {
    hide Slot, Base, MapOk, Raw, Splice, Others;
    OthersShow(d0, inodes0, d, inodes, i);
    SizeSet(g, d, inodes, i, off + |src|);
  }

  lemma WriteDoneSame(g: Sb, d0: Store, inodes0: Inodes, d: Store, i: int, off: nat, src: seq<Byte>)
    requires Others(d0, inodes0, d, inodes0, i) && i in inodes0
    requires off + |src| <= inodes0[i].size
    requires MapOk(d, inodes0[i], inodes0[i].size) && Raw(d, inodes0[i], inodes0[i].size) == Splice(File(d0, inodes0[i]), off, src)
    ensures forall j :: j in inodes0 ==> MapOk(d, inodes0[j], inodes0[j].size)
    ensures Written(d0, inodes0, d, inodes0, i, off, src)
  {
    hide Slot, MapOk, Raw, Splice, Others;
    OthersShow(d0, inodes0, d, inodes0, i);
  }

  /** With the size updated if the file grew, all is as it should be. */
  lemma WriteDone(g: Sb, d0: Store, inodes0: Inodes, d: Store, inodes: Inodes, i: int, off: nat, src: seq<Byte>)
    requires Base(g, d, inodes, {}) && Others(d0, inodes0, d, inodes, i) && i in inodes
    requires inodes[i] == inodes0[i].(addrs := inodes[i].addrs) && off <= inodes0[i].size && off + |src| <= MAXBYTES
    requires off + |src| <= inodes0[i].size ==> inodes == inodes0
    requires var h := Extent(inodes0[i].size, off, |src|);
             MapOk(d, inodes[i], h) && Raw(d, inodes[i], h) == Splice(File(d0, inodes0[i]), off, src)
    ensures var inodes' := Grown(inodes, i, off, |src|);
            && Base(g, d, inodes', {})
            && inodes' == (if |src| > 0 && off + |src| > inodes[i].size then inodes0[i := inodes'[i]] else inodes0)
            && (forall j :: j in inodes' ==> MapOk(d, inodes'[j], inodes'[j].size))
            && Written(d0, inodes0, d, inodes', i, off, src)
  {
    hide Slot, Base, MapOk, Raw, Splice, Others, Written, File;
    OthersShow(d0, inodes0, d, inodes, i);
    if off + |src| > inodes0[i].size {
      WriteDoneGrew(g, d0, inodes0, d, inodes, i, off, src);
    } else {
      WriteDoneSame(g, d0, inodes0, d, i, off, src);
    }
  }

  lemma ShapeIs(ino: Inode)
    requires Shape(ino)
    ensures |ino.addrs| == NDIRECT + 1 && 0 <= ino.size
  {}

  lemma ShapesAt(inodes: Inodes, i: int)
    requires Shapes(inodes) && i in inodes
    ensures Shape(inodes[i])
  {}

  function Min(a: int, b: int): int {
    if a < b then a else b
  }

  lemma MinIs(a: int, b: int)
    ensures Min(a, b) <= a && Min(a, b) <= b && (a > 0 && b > 0 ==> Min(a, b) > 0)
  {}

  lemma BlockBound(o: nat, h: int)
    requires o <= h
    ensures o / BSIZE * BSIZE <= o && (o / BSIZE == 0 || (o / BSIZE - 1) * BSIZE < h)
    ensures h <= MAXBYTES && o < MAXBYTES ==> o / BSIZE < MAXFILE
    ensures o < h ==> o / BSIZE * BSIZE < h
  {}

  lemma BlockIn(g: Sb, d: Store, inodes: Inodes, i: int, bn: nat)
    requires Base(g, d, inodes, {}) && i in inodes && bn < MAXFILE && Slot(d, inodes[i], FSlot(bn)) != 0
    ensures Slot(d, inodes[i], FSlot(bn)) in d
  {}

  /** Part of one block of a file. */
  lemma FileBlock(g: Sb, d: Store, inodes: Inodes, i: int, o: nat, m: nat)
    requires Base(g, d, inodes, {}) && i in inodes && MapOk(d, inodes[i], inodes[i].size)
    requires 0 < m <= BSIZE - o % BSIZE && o + m <= inodes[i].size
    ensures var x := Slot(d, inodes[i], FSlot(o / BSIZE));
            x in d && d[x][o % BSIZE..o % BSIZE + m] == Raw(d, inodes[i], inodes[i].size)[o..o + m]
  {
    assert o / BSIZE * BSIZE < inodes[i].size;
    var x := Slot(d, inodes[i], FSlot(o / BSIZE));
    BlockIn(g, d, inodes, i, o / BSIZE);
    hide Slot;
    forall k | o <= k < o + m ensures ByteAt(d, inodes[i], k) == d[x][k - o + o % BSIZE] {
      assert k / BSIZE == o / BSIZE && k % BSIZE == o % BSIZE + (k - o);
    }
  }

  /** Only the size field of inode i changes: its map and bytes do not. */
  lemma SizeSet(g: Sb, d: Store, inodes: Inodes, i: int, sz: nat)
    requires Base(g, d, inodes, {}) && i in inodes && sz <= MAXBYTES
    ensures var ino := inodes[i].(size := sz);
            && Base(g, d, inodes[i := ino], {})
            && (MapOk(d, inodes[i], sz) ==> MapOk(d, ino, sz)) && Raw(d, ino, sz) == Raw(d, inodes[i], sz)
  {
    var ino := inodes[i].(size := sz);
    var inodes' := inodes[i := ino];
    forall s | 0 <= s < NSLOTS ensures Slot(d, ino, s) == Slot(d, inodes[i], s) {}
    hide Slot;
    KeepBlocks(g, d, inodes, {}, d, inodes');
  }

  lemma OthersShow(d0: Store, inodes0: Inodes, d: Store, inodes: Inodes, i: int)
    requires Others(d0, inodes0, d, inodes, i)
    ensures inodes.Keys == inodes0.Keys && Shapes(inodes0) && Shapes(inodes)
    ensures forall j :: j in inodes && j != i ==>
              inodes[j] == inodes0[j] && MapOk(d, inodes[j], inodes[j].size) && Raw(d, inodes[j], inodes[j].size) == Raw(d0, inodes0[j], inodes0[j].size)
  {}

  lemma SameNow(d: Store, d': Store, inodes: Inodes, i: int, bn: nat, h: int)
    requires SameShape(d, inodes, d', inodes) && SameSlots(d, inodes, d', inodes) && i in inodes && bn < MAXFILE && MapOk(d, inodes[i], h)
    ensures MapOk(d', inodes[i], h) && Slot(d', inodes[i], FSlot(bn)) == Slot(d, inodes[i], FSlot(bn))
  {
    hide Slot;
  }

  /** The files other than i are intact. */
  ghost predicate Others(d0: Store, inodes0: Inodes, d: Store, inodes: Inodes, i: int) {
    && inodes.Keys == inodes0.Keys && Shapes(inodes0) && Shapes(inodes)
    && forall j :: j in inodes && j != i ==>
         inodes[j] == inodes0[j] && MapOk(d, inodes[j], inodes[j].size) && Raw(d, inodes[j], inodes[j].size) == Raw(d0, inodes0[j], inodes0[j].size)
  }

  lemma OthersInit(d: Store, inodes: Inodes, i: int)
    requires Shapes(inodes) && forall j :: j in inodes && j != i ==> MapOk(d, inodes[j], inodes[j].size)
    ensures Others(d, inodes, d, inodes, i)
  {}

  lemma OthersMap(d0: Store, inodes0: Inodes, d: Store, inodes: Inodes, i: int)
    requires Others(d0, inodes0, d, inodes, i)
    ensures Shapes(inodes) && forall j :: j in inodes && j != i ==> MapOk(d, inodes[j], inodes[j].size)
  {}

  lemma OthersTrans(d0: Store, inodes0: Inodes, d1: Store, inodes1: Inodes, d2: Store, inodes2: Inodes, i: int)
    requires Others(d0, inodes0, d1, inodes1, i) && Others(d1, inodes1, d2, inodes2, i)
    ensures Others(d0, inodes0, d2, inodes2, i)
  {
    hide Raw, MapOk;
  }

  lemma OthersKept(d: Store, inodes: Inodes, d': Store, inodes': Inodes, i: int, bn: nat)
    requires SameShape(d, inodes, d', inodes') && Kept(d, inodes, d', inodes', i, bn)
    requires forall j :: j in inodes && j != i ==> inodes'[j] == inodes[j] && MapOk(d, inodes[j], inodes[j].size)
    ensures Others(d, inodes, d', inodes', i)
  {
    hide Kept, Raw, Slot;
    forall j | j in inodes && j != i
      ensures MapOk(d', inodes'[j], inodes[j].size) && Raw(d', inodes'[j], inodes[j].size) == Raw(d, inodes[j], inodes[j].size)
    {
      KeptMap(d, inodes, d', inodes', i, bn, j, inodes[j].size);
      KeptRaw(d, inodes, d', inodes', i, bn, j, inodes[j].size);
    }
  }

  lemma SpliceNone(s: seq<Byte>, off: nat)
    requires off <= |s|
    ensures Splice(s, off, []) == s
  {}

  lemma SpliceMore(s: seq<Byte>, off: nat, src: seq<Byte>, tot: nat, m: nat)
    requires off <= |s| && tot + m <= |src|
    ensures off + tot <= |Splice(s, off, src[..tot])|
    ensures Splice(Splice(s, off, src[..tot]), off + tot, src[tot..tot + m]) == Splice(s, off, src[..tot + m])
  {
    SpliceTwice(s, off, src[..tot], src[tot..tot + m]);
    assert src[..tot] + src[tot..tot + m] == src[..tot + m];
  }

  /** Blocks above the metadata are unchanged. */
  ghost predicate DataSame(g: Sb, d: Store, d': Store) {
    d'.Keys == d.Keys && forall x :: x in d && x >= g.datastart ==> d'[x] == d[x]
  }

  lemma DataRefl(g: Sb, d: Store)
    ensures DataSame(g, d, d)
  {}

  lemma DataTrans(g: Sb, d: Store, d1: Store, d2: Store)
    requires DataSame(g, d, d1) && DataSame(g, d1, d2)
    ensures DataSame(g, d, d2)
  {}

  /** addrs with its first k entries zeroed. */
  function ZeroAddrs(addrs: seq<int>, k: nat): (r: seq<int>)
    requires k <= |addrs|
    ensures |r| == |addrs| && forall s :: 0 <= s < |r| ==> r[s] == if s < k then 0 else addrs[s]
  {
    if k == 0 then addrs else ZeroAddrs(addrs, k - 1)[k - 1 := 0]
  }

  lemma ZeroSteps(addrs: seq<int>)
    requires |addrs| == NDIRECT + 1
    ensures ZeroAddrs(addrs, 0) == addrs
    ensures forall s :: 0 <= s < NDIRECT ==> ZeroAddrs(addrs, s + 1) == ZeroAddrs(addrs, s)[s := 0]
  {}

  /** Zeroing a zero changes nothing. */
  lemma SetZero(addrs: seq<int>, s: nat)
    requires s < |addrs|
    ensures addrs[s] == 0 ==> addrs[s := 0] == addrs
  {}

  lemma EmptySlot(g: Sb, d: Store, inodes: Inodes, i: int, s: nat)
    requires Base(g, d, inodes, {}) && i in inodes && s < NDIRECT && inodes[i].addrs[s] != 0
    ensures Base(g, d, inodes[i := inodes[i].(addrs := inodes[i].addrs[s := 0])], {inodes[i].addrs[s]}) && inodes[i].addrs[s] > 0
  {
    var inodes' := inodes[i := inodes[i].(addrs := inodes[i].addrs[s := 0])];
    forall t | 0 <= t < NSLOTS ensures Slot(d, inodes'[i], t) == if t == s then 0 else Slot(d, inodes[i], t) {}
    assert Slot(d, inodes[i], s) == inodes[i].addrs[s];
    hide Slot;
    DropBlock(g, d, inodes, {}, d, inodes', i, s);
    assert {} + {inodes[i].addrs[s]} == {inodes[i].addrs[s]};
  }

  /** The block numbers in entries j and up of an indirect block. */
  ghost function Entries(a: Block, j: nat): set<int>
    decreases NINDIRECT - j
  {
    if j >= NINDIRECT then {}
    else (if Word(a, j) != 0 then {Word(a, j)} else {}) + Entries(a, j + 1)
  }

  lemma EntriesEnd(a: Block)
    ensures Entries(a, NINDIRECT) == {}
  {}

  lemma {:induction false} InEntries(a: Block, j: nat, b: int)
    requires j <= NINDIRECT
    ensures b in Entries(a, j) <==> b != 0 && exists k :: j <= k < NINDIRECT && Word(a, k) == b
    decreases NINDIRECT - j
  {
    hide Word;
    if j < NINDIRECT { InEntries(a, j + 1, b); }
  }

  lemma EntrySlot(g: Sb, d: Store, inodes: Inodes, i: int, k: nat)
    requires Base(g, d, inodes, {}) && i in inodes && inodes[i].addrs[NDIRECT] != 0 && k < NINDIRECT
    ensures inodes[i].addrs[NDIRECT] in d && Word(d[inodes[i].addrs[NDIRECT]], k) == Slot(d, inodes[i], NDIRECT + 1 + k)
    ensures inodes[i].addrs[NDIRECT] == Slot(d, inodes[i], NDIRECT)
  {
    assert inodes[i].addrs[NDIRECT] == Slot(d, inodes[i], NDIRECT);
  }

  /** Freeing entry j leaves the later ones. */
  lemma EntryDistinct(g: Sb, d: Store, inodes: Inodes, i: int, x: int, j: nat)
    requires Base(g, d, inodes, {}) && i in inodes && j < NINDIRECT && inodes[i].addrs[NDIRECT] == x != 0 && x in d
    ensures var w := Word(d[x], j);
            if w == 0 then Entries(d[x], j) == Entries(d[x], j + 1)
            else w in Entries(d[x], j) && Entries(d[x], j) + {x} - {w} == Entries(d[x], j + 1) + {x}
  {
    hide Word, Slot, Marks, Ranges;
    var w := Word(d[x], j);
    if w != 0 {
      EntrySlot(g, d, inodes, i, j);
      assert w != x;
      assert w !in Entries(d[x], j + 1) by {
        InEntries(d[x], j + 1, w);
        if k :| j + 1 <= k < NINDIRECT && Word(d[x], k) == w { EntrySlot(g, d, inodes, i, k); }
      }
    }
  }

  /** The places of inode i from the indirect block on. */
  lemma DropIndirect(g: Sb, d: Store, inodes: Inodes, i: int)
    requires Base(g, d, inodes, {}) && i in inodes && inodes[i].addrs[NDIRECT] != 0
    ensures var x := inodes[i].addrs[NDIRECT];
            x in d && x > 0 && Base(g, d, inodes[i := inodes[i].(addrs := inodes[i].addrs[NDIRECT := 0])], Entries(d[x], 0) + {x})
  {
    var x := inodes[i].addrs[NDIRECT];
    var inodes' := inodes[i := inodes[i].(addrs := inodes[i].addrs[NDIRECT := 0])];
    EntrySlot(g, d, inodes, i, 0);
    forall t | 0 <= t < NSLOTS ensures Slot(d, inodes'[i], t) == if t >= NDIRECT then 0 else Slot(d, inodes[i], t) {}
    forall b ensures b in Entries(d[x], 0) + {x} <==> b != 0 && exists t :: NDIRECT <= t < NSLOTS && Slot(d, inodes[i], t) == b {
      DroppedSet(g, d, inodes, i, b);
    }
    hide Slot, Entries;
    DropMany(g, d, inodes, inodes', i, NDIRECT, Entries(d[x], 0) + {x});
  }

  lemma DroppedSet(g: Sb, d: Store, inodes: Inodes, i: int, b: int)
    requires Base(g, d, inodes, {}) && i in inodes && inodes[i].addrs[NDIRECT] != 0
    ensures inodes[i].addrs[NDIRECT] in d
    ensures b in Entries(d[inodes[i].addrs[NDIRECT]], 0) + {inodes[i].addrs[NDIRECT]} <==>
              b != 0 && exists t :: NDIRECT <= t < NSLOTS && Slot(d, inodes[i], t) == b
  {
    EntrySlot(g, d, inodes, i, 0);
    hide Base, Slot, Word, Entries;
    var x := inodes[i].addrs[NDIRECT];
    InEntries(d[x], 0, b);
    if k :| 0 <= k < NINDIRECT && Word(d[x], k) == b {
      EntrySlot(g, d, inodes, i, k);
    }
    if t :| NDIRECT <= t < NSLOTS && Slot(d, inodes[i], t) == b && t != NDIRECT {
      EntrySlot(g, d, inodes, i, t - NDIRECT - 1);
      assert Word(d[x], t - NDIRECT - 1) == b;
    }
  }

  /** Places s0 and up of inode i emptied: their blocks float. */
  lemma DropMany(g: Sb, d: Store, inodes: Inodes, inodes': Inodes, i: int, s0: nat, f: set<int>)
    requires Base(g, d, inodes, {}) && i in inodes && s0 < NSLOTS && Shapes(inodes') && inodes'.Keys == inodes.Keys
    requires forall j, t :: j in inodes && 0 <= t < NSLOTS ==>
               Slot(d, inodes'[j], t) == if j == i && t >= s0 then 0 else Slot(d, inodes[j], t)
    requires forall b :: b in f <==> b != 0 && exists t :: s0 <= t < NSLOTS && Slot(d, inodes[i], t) == b
    ensures Base(g, d, inodes', f)
  {
    hide Slot, Used;
    forall b | 0 <= b < g.size ensures Used(g, d, b) <==> b < g.datastart || b in f || Owns(d, inodes', b) {
      if Owns(d, inodes, b) && b >= g.datastart && b !in f {
        var j, t :| j in inodes && 0 <= t < NSLOTS && Slot(d, inodes[j], t) == b;
        assert Slot(d, inodes'[j], t) == b;
      }
      if Owns(d, inodes', b) && b >= g.datastart {
        var j, t :| j in inodes' && 0 <= t < NSLOTS && Slot(d, inodes'[j], t) == b;
        assert Slot(d, inodes[j], t) == b;
      }
      if b in f {
        var t :| s0 <= t < NSLOTS && Slot(d, inodes[i], t) == b;
        assert Owns(d, inodes, b);
      }
    }
  }

  /** An inode without addresses is an empty file. */
  lemma EmptyInode(g: Sb, d: Store, inodes: Inodes, i: int)
    requires Base(g, d, inodes, {}) && i in inodes && forall s :: 0 <= s <= NDIRECT ==> inodes[i].addrs[s] == 0
    ensures Base(g, d, inodes[i := inodes[i].(size := 0)], {}) && MapOk(d, inodes[i].(size := 0), 0)
    ensures File(d, inodes[i].(size := 0)) == []
  {
    SizeSet(g, d, inodes, i, 0);
  }

  /** Exactly the blocks of ino became free. */
  ghost predicate Freed(g: Sb, d: Store, ino: Inode, d': Store) {
    && Layout(g, d) && Layout(g, d') && |ino.addrs| == NDIRECT + 1
    && forall b: nat :: b < g.size ==>
         (Used(g, d', b) <==> Used(g, d, b) && (b < g.datastart || forall s :: 0 <= s < NSLOTS ==> Slot(d, ino, s) != b))
  }

  lemma Truncated(g: Sb, d: Store, inodes: Inodes, d': Store, inodes': Inodes, i: int)
    requires Base(g, d, inodes, {}) && Base(g, d', inodes', {}) && DataSame(g, d, d') && i in inodes
    requires inodes'.Keys == inodes.Keys && forall j :: j in inodes && j != i ==> inodes'[j] == inodes[j]
    requires forall s :: 0 <= s <= NDIRECT ==> inodes'[i].addrs[s] == 0
    requires forall j :: j in inodes && j != i ==> MapOk(d, inodes[j], inodes[j].size)
    ensures Freed(g, d, inodes[i], d')
    ensures forall j :: j in inodes && j != i ==> MapOk(d', inodes[j], inodes[j].size) && File(d', inodes[j]) == File(d, inodes[j])
  {
    forall j, s | j in inodes && 0 <= s < NSLOTS
      ensures Slot(d', inodes'[j], s) == if j == i then 0 else Slot(d, inodes[j], s)
    {
      if j != i {
        assert Slot(d, inodes[j], NDIRECT) == inodes[j].addrs[NDIRECT];
        SlotFrame(d, d', inodes[j], s);
      }
    }
    TruncFreed(g, d, inodes, d', inodes', i);
    TruncOthers(g, d, inodes, d', inodes', i);
  }

  lemma TruncFreed(g: Sb, d: Store, inodes: Inodes, d': Store, inodes': Inodes, i: int)
    requires Base(g, d, inodes, {}) && Base(g, d', inodes', {}) && i in inodes && inodes'.Keys == inodes.Keys
    requires forall j, s :: j in inodes && 0 <= s < NSLOTS ==> Slot(d', inodes'[j], s) == if j == i then 0 else Slot(d, inodes[j], s)
    ensures Freed(g, d, inodes[i], d')
  {
    hide Slot, Used;
    forall b: nat | b < g.size
      ensures Used(g, d', b) <==> Used(g, d, b) && (b < g.datastart || forall s :: 0 <= s < NSLOTS ==> Slot(d, inodes[i], s) != b)
    {
      if b >= g.datastart {
        if Owns(d', inodes', b) {
          var j, s :| j in inodes' && 0 <= s < NSLOTS && Slot(d', inodes'[j], s) == b;
          assert Slot(d, inodes[j], s) == b;
        }
        if Owns(d, inodes, b) && forall s :: 0 <= s < NSLOTS ==> Slot(d, inodes[i], s) != b {
          var j, s :| j in inodes && 0 <= s < NSLOTS && Slot(d, inodes[j], s) == b;
          assert Slot(d', inodes'[j], s) == b;
        }
      }
    }
  }

  lemma TruncOthers(g: Sb, d: Store, inodes: Inodes, d': Store, inodes': Inodes, i: int)
    requires Base(g, d, inodes, {}) && DataSame(g, d, d') && i in inodes && Shapes(inodes') && inodes'.Keys == inodes.Keys
    requires forall j :: j in inodes && j != i ==> inodes'[j] == inodes[j] && MapOk(d, inodes[j], inodes[j].size)
    requires forall j, s :: j in inodes && j != i && 0 <= s < NSLOTS ==> Slot(d', inodes'[j], s) == Slot(d, inodes[j], s)
    ensures forall j :: j in inodes && j != i ==> MapOk(d', inodes[j], inodes[j].size) && File(d', inodes[j]) == File(d, inodes[j])
  {
    hide Slot, Marks, Unshared;
    forall j | j in inodes && j != i ensures MapOk(d', inodes[j], inodes[j].size) && File(d', inodes[j]) == File(d, inodes[j]) {
      forall k | 0 <= k < inodes[j].size ensures ByteAt(d', inodes[j], k) == ByteAt(d, inodes[j], k) {}
    }
  }

  function BlankBlock(b: int): Block {
    ZeroBlock()
  }

  function BlankInode(i: int): Inode {
    Inode(0, 0, 0, seq(NDIRECT + 1, _ => 0))
  }

  function BlankTable(n: nat): (t: Inodes)
    ensures forall i :: i in t <==> 1 <= i <= n
    ensures forall i :: i in t ==> t[i] == BlankInode(i)
  {
    map i {:trigger BlankInode(i)} | 1 <= i <= n :: BlankInode(i)
  }

  /** Zeroed blocks with the first k marked in use. */
  function Marked(g: Sb, k: nat): (d: Store)
    requires k <= g.datastart <= g.size && 0 < g.size && g.bmapstart + (g.size - 1) / BPB < g.datastart
    ensures forall b :: b in d <==> 0 <= b < g.size
  {
    if k == 0 then map b {:trigger BlankBlock(b)} | 0 <= b < g.size :: BlankBlock(b)
    else
      BitmapFits(g, k - 1);
      SetUsed(g, Marked(g, k - 1), k - 1, true)
  }

  lemma BitmapFits(g: Sb, b: nat)
    requires b < g.size && g.bmapstart + (g.size - 1) / BPB < g.datastart <= g.size
    ensures 0 <= MapBlock(g, b) < g.datastart
  {
    assert b / BPB <= (g.size - 1) / BPB;
  }

  lemma {:induction false} MarkedUsed(g: Sb, k: nat, b: nat)
    requires k <= g.datastart <= g.size && b < g.size && g.bmapstart + (g.size - 1) / BPB < g.datastart
    ensures MapBlock(g, b) in Marked(g, k) && (Used(g, Marked(g, k), b) <==> b < k)
    decreases k
  {
    hide BlockBit, SetBlockBit;
    BitmapFits(g, b);
    if k > 0 {
      BitmapFits(g, k - 1);
      MarkedUsed(g, k - 1, b);
      hide Used, SetUsed;
      UsedAfter(g, Marked(g, k - 1), k - 1, true, b);
    } else {
      ClearBits(b % BPB);
    }
  }

  lemma ClearBits(i: nat)
    requires i < BPB
    ensures !BlockBit(ZeroBlock(), i)
  {
    ClearBit(i % 8);
  }

  /** Blank inodes own nothing. */
  lemma BlankImage(g: Sb, inodes: Inodes)
    requires 0 < g.datastart <= g.size < UINT && g.bmapstart + (g.size - 1) / BPB < g.datastart
    requires forall i :: i in inodes ==> inodes[i] == BlankInode(i)
    ensures var d := Marked(g, g.datastart); Base(g, d, inodes, {}) && forall i :: i in inodes ==> MapOk(d, inodes[i], 0) && File(d, inodes[i]) == []
  {
    var d := Marked(g, g.datastart);
    forall b | 0 <= b < g.size ensures 0 <= MapBlock(g, b) < g.datastart { BitmapFits(g, b); }
    forall i, s | i in inodes && 0 <= s < NSLOTS ensures Slot(d, inodes[i], s) == 0 {}
    hide Slot, Used;
    forall b | 0 <= b < g.size ensures Used(g, d, b) <==> b < g.datastart { MarkedUsed(g, g.datastart, b); }
    assert forall b :: b != 0 ==> !Owns(d, inodes, b);
  }
}
