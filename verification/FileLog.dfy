/** What filewrite's chunks do to the log: three of them at once stop the kernel. */
module FileLog {
  import opened Blocks
  import opened FsSpec
  import opened FsFiles
  import opened FsLog
  import opened File
  import opened LogSpec
  import opened LogPanic

  /** The file blocks in a chunk. */
  const CHUNK := 13

  /** The first CHUNK blocks that a write of a chunk at off touches, in order. */
  ghost function ChunkBlocks(d: Store, ino: Inode, off: nat): (bs: seq<int>)
    requires |ino.addrs| == NDIRECT + 1 && off / BSIZE + CHUNK <= MAXFILE
    ensures |bs| == CHUNK && forall j :: 0 <= j < CHUNK ==> bs[j] == Slot(d, ino, FSlot(off / BSIZE + j))
  {
    seq(CHUNK, j requires 0 <= j < CHUNK => Slot(d, ino, FSlot(off / BSIZE + j)))
  }

  /** A file with a whole chunk at off. */
  ghost predicate HasChunk(g: Sb, d: Store, inodes: Inodes, i: int, off: nat) {
    && Base(g, d, inodes, {}) && i in inodes && |inodes[i].addrs| == NDIRECT + 1
    && MapOk(d, inodes[i], inodes[i].size) && off + Chunk() <= inodes[i].size <= MAXBYTES
  }

  /** They are among the blocks the write logs. */
  lemma {:induction false} InData(d: Store, ino: Inode, a: nat, b: nat, m: nat)
    requires |ino.addrs| == NDIRECT + 1 && a <= m < b <= MAXFILE
    ensures Slot(d, ino, FSlot(m)) in DataBlocks(d, ino, a, b)
    decreases b
  {
    hide Slot;
    if m < b - 1 { InData(d, ino, a, b - 1, m); }
  }

  lemma ChunkLogged(g: Sb, d0: Store, d: Store, inodes: Inodes, i: int, off: nat, j: nat)
    requires HasChunk(g, d, inodes, i, off) && j < CHUNK
    ensures off / BSIZE + CHUNK <= MAXFILE && 0 <= inodes[i].size && off + Chunk() <= MAXBYTES
    ensures ChunkBlocks(d, inodes[i], off)[j] in WriteLog(g, d0, d, inodes[i], i, inodes[i].size, off, Chunk())
  {
    hide Slot, Base, MapOk, New, Maps, Grows, Indirect, ChunkBlocks, DataBlocks;
    InData(d, inodes[i], off / BSIZE, End(off, Chunk()), off / BSIZE + j);
  }

  lemma OneOwner(g: Sb, d: Store, inodes: Inodes, i: int, off: nat, j: nat, i': int, off': nat, j': nat)
    requires HasChunk(g, d, inodes, i, off) && HasChunk(g, d, inodes, i', off') && j < CHUNK && j' < CHUNK
    requires i != i' || (off == off' && j != j')
    ensures off / BSIZE + CHUNK <= MAXFILE && off' / BSIZE + CHUNK <= MAXFILE
    ensures ChunkBlocks(d, inodes[i], off)[j] != ChunkBlocks(d, inodes[i'], off')[j']
    ensures g.datastart <= ChunkBlocks(d, inodes[i], off)[j] < g.size
  {
    hide Slot, Marks, Layout, ChunkBlocks;
    var m, m' := off / BSIZE + j, off' / BSIZE + j';
    assert Slot(d, inodes[i], FSlot(m)) != 0 && Slot(d, inodes[i'], FSlot(m')) != 0;
  }

  /** All data blocks are home blocks of the log. */
  ghost predicate DataHome(geo: Geo, s: LogRuns.State, g: Sb) {
    forall b :: g.datastart <= b < g.size ==> IsHome(geo, s.disk, b)
  }

  /** Three processes, the p-th writing a chunk of inode files[p] at offs[p]. */
  ghost predicate Chunks(g: Sb, d: Store, inodes: Inodes, files: seq<int>, offs: seq<nat>) {
    && |files| == |offs| == 3 && files[0] != files[1] && files[0] != files[2] && files[1] != files[2]
    && forall p :: 0 <= p < 3 ==> HasChunk(g, d, inodes, files[p], offs[p])
  }

  lemma ChunkRange(g: Sb, d: Store, inodes: Inodes, i: int, off: nat)
    requires HasChunk(g, d, inodes, i, off)
    ensures i in inodes && |inodes[i].addrs| == NDIRECT + 1 && off / BSIZE + CHUNK <= MAXFILE
  {}

  lemma ChunksRange(g: Sb, d: Store, inodes: Inodes, files: seq<int>, offs: seq<nat>)
    requires Chunks(g, d, inodes, files, offs)
    ensures |files| == |offs| == 3
    ensures forall p :: 0 <= p < 3 ==> files[p] in inodes && |inodes[files[p]].addrs| == NDIRECT + 1 && offs[p] / BSIZE + CHUNK <= MAXFILE
  {
    hide HasChunk;
    forall p | 0 <= p < 3 ensures files[p] in inodes && |inodes[files[p]].addrs| == NDIRECT + 1 && offs[p] / BSIZE + CHUNK <= MAXFILE {
      ChunkRange(g, d, inodes, files[p], offs[p]);
    }
  }

  /** The blocks of the first, then of the second, then of the third. */
  ghost function Three(g: Sb, d: Store, inodes: Inodes, files: seq<int>, offs: seq<nat>): (hb: seq<int>)
    requires Chunks(g, d, inodes, files, offs)
  {
    ChunksRange(g, d, inodes, files, offs);
    ChunkBlocks(d, inodes[files[0]], offs[0]) + ChunkBlocks(d, inodes[files[1]], offs[1]) + ChunkBlocks(d, inodes[files[2]], offs[2])
  }

  /** Block j is one that operation Writer(j, CHUNK) logs. */
  lemma ThreeAt(g: Sb, d: Store, inodes: Inodes, files: seq<int>, offs: seq<nat>, j: nat)
    requires Chunks(g, d, inodes, files, offs) && j < 3 * CHUNK
    ensures |Three(g, d, inodes, files, offs)| == 3 * CHUNK && 0 <= Writer(j, CHUNK) < 3
    ensures var p := Writer(j, CHUNK);
            && files[p] in inodes && |inodes[files[p]].addrs| == NDIRECT + 1 && offs[p] / BSIZE + CHUNK <= MAXFILE && 0 <= j - CHUNK * p < CHUNK
            && Three(g, d, inodes, files, offs)[j] == ChunkBlocks(d, inodes[files[p]], offs[p])[j - CHUNK * p]
  {
    hide HasChunk, ChunkBlocks;
    ChunksRange(g, d, inodes, files, offs);
  }

  lemma ThreeSupply(geo: Geo, s: LogRuns.State, g: Sb, d: Store, inodes: Inodes, files: seq<int>, offs: seq<nat>)
    requires DataHome(geo, s, g) && Chunks(g, d, inodes, files, offs)
    ensures Supply(geo, s, Three(g, d, inodes, files, offs))
  {
    hide HasChunk, ChunkBlocks, IsHome, Three, Writer;
    var hb := Three(g, d, inodes, files, offs);
    ThreeAt(g, d, inodes, files, offs, 0);
    forall j | 0 <= j < |hb| ensures IsHome(geo, s.disk, hb[j]) {
      var p := Writer(j, CHUNK);
      ThreeAt(g, d, inodes, files, offs, j);
      ThreeApart(g, d, inodes, files, offs, j, if j == 0 then 1 else 0);
    }
    forall j, k | 0 <= j < k < |hb| ensures hb[j] != hb[k] { ThreeApart(g, d, inodes, files, offs, j, k); }
  }

  lemma ThreeApart(g: Sb, d: Store, inodes: Inodes, files: seq<int>, offs: seq<nat>, j: nat, k: nat)
    requires Chunks(g, d, inodes, files, offs) && j < 3 * CHUNK && k < 3 * CHUNK && j != k
    ensures var hb := Three(g, d, inodes, files, offs); |hb| == 3 * CHUNK && hb[j] != hb[k] && g.datastart <= hb[j] < g.size
  {
    hide HasChunk, ChunkBlocks, Three;
    ThreeAt(g, d, inodes, files, offs, j);
    ThreeAt(g, d, inodes, files, offs, k);
    var p, q := Writer(j, CHUNK), Writer(k, CHUNK);
    OneOwner(g, d, inodes, files[p], offs[p], j - CHUNK * p, files[q], offs[q], k - CHUNK * q);
  }

  /** Three processes overwrite a whole chunk each, in different files.  begin_op admits them
      all; each logs its own blocks in order, and the first block that does not fit stops the
      kernel, in a log region of any size. */
  lemma ChunksPanic(geo: Geo, s: LogRuns.State, g: Sb, d: Store, inodes: Inodes, files: seq<int>, offs: seq<nat>)
    requires Quiet(geo, s) && DataHome(geo, s, g) && Chunks(g, d, inodes, files, offs)
    ensures var hb := Three(g, d, inodes, files, offs); var k := if geo.size - 1 <= LOGSIZE then geo.size - 1 else LOGSIZE;
            && 0 <= k < |hb|
            && Panics(geo, s, Script(hb, k, CHUNK), LogRuns.LogWrite(Writer(k, CHUNK), hb[k], ZeroBlock()), CHUNK)
            && forall j :: 0 <= j < |hb| ==>
                 var p := Writer(j, CHUNK);
                 0 <= p < 3 && files[p] in inodes && |inodes[files[p]].addrs| == NDIRECT + 1 && 0 <= inodes[files[p]].size && offs[p] + Chunk() <= MAXBYTES &&
                 hb[j] in WriteLog(g, d, d, inodes[files[p]], files[p], inodes[files[p]].size, offs[p], Chunk())
  {
    hide HasChunk, ChunkBlocks, Three, Supply, Script, Panics, DataHome, WriteLog;
    var hb := Three(g, d, inodes, files, offs);
    var k := if geo.size - 1 <= LOGSIZE then geo.size - 1 else LOGSIZE;
    ThreeAt(g, d, inodes, files, offs, 0);
    ThreeSupply(geo, s, g, d, inodes, files, offs);
    SizeOk(geo, s);
    NextPanics(geo, s, hb, k, CHUNK);
    forall j | 0 <= j < |hb|
      ensures var p := Writer(j, CHUNK);
              0 <= p < 3 && files[p] in inodes && |inodes[files[p]].addrs| == NDIRECT + 1 && 0 <= inodes[files[p]].size && offs[p] + Chunk() <= MAXBYTES &&
              hb[j] in WriteLog(g, d, d, inodes[files[p]], files[p], inodes[files[p]].size, offs[p], Chunk())
    {
      ThreeAt(g, d, inodes, files, offs, j);
      var p := Writer(j, CHUNK);
      ChunkLogged(g, d, d, inodes, files[p], offs[p], j - CHUNK * p);
    }
  }
}
