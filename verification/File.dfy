/** filewrite for an inode: a large write cut into chunks, each a log operation of its own. */
module File {
  import opened Blocks
  import opened Options
  import opened FsSpec
  import opened FsFiles
  import opened FsLog
  import opened Fs

  /** The most bytes filewrite puts in one transaction. */
  function Chunk(): (c: int)
    ensures c == 6656
  {
    (LOGSIZE - 1 - 1 - 2) / 2 * 512
  }

  /** An open file of type FD_INODE. */
  class OpenFile {
    const writable: bool
    const ip: int
    var off: Uint

    constructor (writable: bool, ip: int)
      ensures this.writable == writable && this.ip == ip && off == 0
    {
      this.writable, this.ip, off := writable, ip, 0;
    }

    /** panic: writei stopped on a full disk; "short filewrite" cannot happen on a file.
        device: what the inode's device answers to each chunk, if it has a write function.
        ops: the blocks logged between each begin_op and end_op. */
    method Write(fs: FileSystem, addr: seq<Byte>, n: int, device: Option<int>) returns (r: int, panic: bool, ghost ops: seq<set<int>>)
      requires fs.Valid() && ip in fs.inodes && n <= |addr| && -0x8000_0000 <= n < 0x8000_0000
      modifies this`off, fs`disk, fs`inodes, fs`dinodes, fs`logged
      ensures old(fs.inodes)[ip].typ == T_DEV ==> fs.disk == old(fs.disk) && fs.inodes == old(fs.inodes)
      ensures old(fs.inodes)[ip].typ != T_DEV && panic ==> Full(fs.g, fs.disk)
      ensures old(fs.inodes)[ip].typ != T_DEV && !panic ==>
                var k := if writable then Accepted(old(fs.inodes)[ip].size, old(off), n) else 0;
                && fs.Valid() && off == old(off) + k
                && (r == if writable && k == n then n else -1)
                && (r != -1 <==> writable && (n == 0 || (n > 0 && old(off) <= old(fs.inodes)[ip].size && old(off) + n <= MAXBYTES)))
                && 0 <= k <= |addr| && Done(old(fs.disk), old(fs.inodes), fs.disk, fs.inodes, ip, old(off), addr[..k])
                && old(fs.inodes)[ip].size >= 0
                && (InBudget(ops) <==> k == 0 || WriteCost(fs.g, old(fs.disk), old(fs.inodes)[ip].size, old(off), k) <= MAXOPBLOCKS)
    {
      hide Base, MapOk, Full, Done, Shapes, Shape, Accepted, Written, Logs, WriteCost, InBudget, Made, Reached;
      ops := [];
      SizeKnown(fs.g, fs.disk, fs.inodes, ip);
      assert addr[..0] == [];
      MadeStart(fs.g, fs.disk, fs.inodes, ip, off, n);
      AcceptedAll(fs.inodes[ip].size, off, n);
      if !writable {
        return -1, false, ops;
      }
      ghost var d0, inodes0 := fs.disk, fs.inodes;
      ghost var off0: int := off;
      var i: nat := 0;
      ghost var done := ops;
      while i < n
        invariant 0 <= i <= |addr| && fs.Valid() && ip in fs.inodes && fs.inodes[ip].typ == inodes0[ip].typ
        invariant fs.inodes[ip].typ == T_DEV ==> fs.disk == d0 && fs.inodes == inodes0
        invariant fs.inodes[ip].typ != T_DEV ==> off == off0 + i && done == ops && Made(fs.g, d0, inodes0, fs.disk, fs.inodes, ip, off0, addr[..i], n, done)
      {
        var n1 := if n - i > Chunk() then Chunk() else n - i;
        ghost var d1, inodes1 := fs.disk, fs.inodes;
        var src := addr[i..i + n1];
        fs.logged := {};
        r, panic := fs.Writei(ip, src, off, device);
        if panic {
          return;
        }
        ops := ops + [fs.logged];
        if inodes1[ip].typ != T_DEV { MadeRange(fs.g, d0, inodes0, d1, inodes1, ip, off0, addr[..i], n, done); }
        if r > 0 {
          off := (off + r) % UINT;
        }
        if r < 0 {
          break;
        }
        if r != n1 {
          panic := true;
          return;
        }
        assert addr[..i] + src == addr[..i + n1];
        if inodes1[ip].typ != T_DEV {
          MadeMore(fs.g, d0, inodes0, d1, inodes1, fs.disk, fs.inodes, ip, off0, addr[..i], src, n, done, fs.logged);
          done := ops;
        }
        i := i + r;
      }
      if inodes0[ip].typ != T_DEV { MadeEnd(fs.g, d0, inodes0, fs.disk, fs.inodes, ip, off0, addr[..i], n, done, ops); }
      r := if i == n then n else -1;
      panic := false;
    }
  }

  /** The bytes of a request of n at off that get written: all, or the whole chunks below
      the largest file size. */
  function Accepted(size: int, off: int, n: int): int {
    if n <= 0 || off > size then 0
    else if off + n <= MAXBYTES then n
    else (MAXBYTES - off) / Chunk() * Chunk()
  }

  lemma AcceptedAll(size: int, off: nat, n: int)
    requires size <= MAXBYTES
    ensures Accepted(size, off, n) == n <==> n == 0 || (n > 0 && off <= size && off + n <= MAXBYTES)
  {
    if n > 0 && off <= size && off + n > MAXBYTES {
      var q := (MAXBYTES - off) / Chunk();
      assert q * Chunk() <= MAXBYTES - off;
    }
  }

  /** filewrite's loop at i; size is that of the file before the loop, now its present one. */
  ghost predicate Reached(size: int, now: int, off: int, i: int, n: int) {
    && size <= MAXBYTES && 0 <= i && (i > 0 ==> off <= size && i <= n && off + i <= MAXBYTES && off + i <= now)
    && (i < n ==> i % 6656 == 0) && (i == 0 ==> now == size)
  }

  lemma AcceptedMore(size: int, now: int, now': int, off: nat, i: nat, n: int)
    requires Reached(size, now, off, i, n) && i < n
    ensures var n1 := if n - i > Chunk() then Chunk() else n - i;
            if off + i > now || off + i + n1 > MAXBYTES then Accepted(size, off, n) == i
            else now' >= off + i + n1 ==> Reached(size, now', off, i + n1, n)
  {
    if i > 0 || off <= now {
      var q := i / 6656;
      assert i == q * 6656;
      if off + i + 6656 > MAXBYTES && off + n > MAXBYTES && off + i <= MAXBYTES { assert (MAXBYTES - off) / 6656 == q; }
    }
  }

  lemma AcceptedEnd(size: int, now: int, off: nat, i: nat, n: int)
    requires Reached(size, now, off, i, n) && (i < n ==> Accepted(size, off, n) == i)
    ensures Accepted(size, off, n) == i
  {}

  /** The operations of a filewrite that has written i of n bytes: the first cost as many log
      entries as `cost` says, and there is only one up to a whole chunk. */
  ghost predicate OpsOk(ops: seq<set<int>>, i: int, n: int, cost: int) {
    && (i == 0 ==> ops == []) && (i > 0 ==> i <= n && |ops| >= 1 && |ops[0]| == cost) && (0 < i <= Chunk() ==> |ops| == 1 && i == FirstChunk(n))
  }

  function FirstChunk(n: int): int {
    if n > Chunk() then Chunk() else n
  }

  /** Every operation adds at most MAXOPBLOCKS entries to the log. */
  ghost predicate InBudget(ops: seq<set<int>>) {
    forall t :: 0 <= t < |ops| ==> |ops[t]| <= MAXOPBLOCKS
  }

  lemma OpsMore(ops: seq<set<int>>, i: int, n: int, n1: int, w: set<int>, cost: int)
    requires OpsOk(ops, i, n, cost) && 0 <= i < n && n1 == (if n - i > Chunk() then Chunk() else n - i) && (i == 0 ==> |w| == cost)
    ensures OpsOk(ops + [w], i + n1, n, cost)
  {}

  /** A filewrite that writes k bytes keeps within the budget exactly when a single write of them
      would; so never with a whole chunk. */
  lemma InBudgetIff(g: Sb, d: Store, size: nat, off: nat, n: int, k: nat, ops: seq<set<int>>, all: seq<set<int>>)
    requires OpsOk(ops, k, n, if n > 0 then WriteCost(g, d, size, off, FirstChunk(n)) else 0) && (all == ops || all == ops + [{}])
    ensures InBudget(all) <==> k == 0 || WriteCost(g, d, size, off, k) <= MAXOPBLOCKS
  {
    hide WriteCost;
    if k > 0 {
      assert all[0] == ops[0];
      if k >= Chunk() {
        TooMany(g, d, size, off, k);
        TooMany(g, d, size, off, Chunk());
      }
    }
  }

  /** src has been written at off, if there was anything to write. */
  ghost predicate Done(d0: Store, inodes0: Inodes, d: Store, inodes: Inodes, ip: int, off: nat, src: seq<Byte>) {
    if src == [] then d == d0 && inodes == inodes0 else Written(d0, inodes0, d, inodes, ip, off, src)
  }

  lemma SizeKnown(g: Sb, d: Store, inodes: Inodes, ip: int)
    requires Base(g, d, inodes, {}) && ip in inodes
    ensures 0 <= inodes[ip].size <= MAXBYTES < UINT
  {}

  lemma LogsCost(g: Sb, d0: Store, d: Store, inodes0: Inodes, inodes: Inodes, ip: int, off: nat, n: nat, logged: set<int>)
    requires Logs(g, d0, d, inodes0, inodes, ip, off, n, {}, logged)
    ensures ip in inodes0 && inodes0[ip].size >= 0 && |logged| == WriteCost(g, d0, inodes0[ip].size, off, n)
  {
    hide WriteLog, WriteCost;
    assert logged == {} + WriteLog(g, d0, d, inodes[ip], ip, inodes0[ip].size, off, n);
    assert logged == WriteLog(g, d0, d, inodes[ip], ip, inodes0[ip].size, off, n);
  }

  /** filewrite's loop when src has been written: the file system, the bounds and the log. */
  ghost predicate Made(g: Sb, d0: Store, inodes0: Inodes, d: Store, inodes: Inodes, ip: int, off: nat, src: seq<Byte>, n: int, ops: seq<set<int>>) {
    && ip in inodes0 && ip in inodes && 0 <= inodes0[ip].size <= MAXBYTES && Done(d0, inodes0, d, inodes, ip, off, src)
    && Reached(inodes0[ip].size, inodes[ip].size, off, |src|, n)
    && OpsOk(ops, |src|, n, if n > 0 then WriteCost(g, d0, inodes0[ip].size, off, FirstChunk(n)) else 0)
  }

  lemma MadeStart(g: Sb, d: Store, inodes: Inodes, ip: int, off: nat, n: int)
    requires ip in inodes && 0 <= inodes[ip].size <= MAXBYTES
    ensures Made(g, d, inodes, d, inodes, ip, off, [], n, []) && Done(d, inodes, d, inodes, ip, off, []) && InBudget([])
  {
    hide WriteCost;
  }

  /** writei's range tests in terms of the bytes accepted. */
  lemma MadeRange(g: Sb, d0: Store, inodes0: Inodes, d: Store, inodes: Inodes, ip: int, off: nat, src: seq<Byte>, n: int, ops: seq<set<int>>)
    requires Made(g, d0, inodes0, d, inodes, ip, off, src, n, ops) && |src| < n
    ensures var i := |src|; var n1 := if n - i > Chunk() then Chunk() else n - i;
            off + i > inodes[ip].size || off + i + n1 > MAXBYTES ==> Accepted(inodes0[ip].size, off, n) == i
  {
    hide WriteCost, Done, OpsOk;
    AcceptedMore(inodes0[ip].size, inodes[ip].size, inodes[ip].size, off, |src|, n);
  }

  lemma MadeMore(g: Sb, d0: Store, inodes0: Inodes, d1: Store, inodes1: Inodes, d2: Store, inodes2: Inodes, ip: int, off: nat,
                 a: seq<Byte>, b: seq<Byte>, n: int, ops: seq<set<int>>, w: set<int>)
    requires Made(g, d0, inodes0, d1, inodes1, ip, off, a, n, ops) && |a| < n && |b| == (if n - |a| > Chunk() then Chunk() else n - |a|)
    requires Written(d1, inodes1, d2, inodes2, ip, off + |a|, b) && Base(g, d2, inodes2, {}) && Logs(g, d1, d2, inodes1, inodes2, ip, off + |a|, |b|, {}, w)
    requires off + |a| <= inodes1[ip].size && off + |a| + |b| <= MAXBYTES
    ensures Made(g, d0, inodes0, d2, inodes2, ip, off, a + b, n, ops + [w]) && inodes2[ip].typ == inodes1[ip].typ
  {
    hide WriteCost, Done, Base, Logs, Written;
    DoneMore(g, d0, inodes0, d1, inodes1, d2, inodes2, ip, off, a, b);
    AcceptedMore(inodes0[ip].size, inodes1[ip].size, inodes2[ip].size, off, |a|, n);
    LogsCost(g, d1, d2, inodes1, inodes2, ip, off + |a|, |b|, w);
    if |a| == 0 { DoneNone(d0, inodes0, d1, inodes1, ip, off, a); }
    OpsMore(ops, |a|, n, |b|, w, WriteCost(g, d0, inodes0[ip].size, off, FirstChunk(n)));
  }

  lemma MadeEnd(g: Sb, d0: Store, inodes0: Inodes, d: Store, inodes: Inodes, ip: int, off: nat, src: seq<Byte>, n: int, ops: seq<set<int>>, all: seq<set<int>>)
    requires Made(g, d0, inodes0, d, inodes, ip, off, src, n, ops) && (all == ops || all == ops + [{}])
    requires |src| < n ==> Accepted(inodes0[ip].size, off, n) == |src|
    ensures Accepted(inodes0[ip].size, off, n) == |src| && Done(d0, inodes0, d, inodes, ip, off, src)
    ensures InBudget(all) <==> |src| == 0 || WriteCost(g, d0, inodes0[ip].size, off, |src|) <= MAXOPBLOCKS
  {
    hide WriteCost, Done, InBudget;
    AcceptedEnd(inodes0[ip].size, inodes[ip].size, off, |src|, n);
    InBudgetIff(g, d0, inodes0[ip].size, off, n, |src|, ops, all);
  }

  lemma DoneNone(d0: Store, inodes0: Inodes, d: Store, inodes: Inodes, ip: int, off: nat, src: seq<Byte>)
    requires Done(d0, inodes0, d, inodes, ip, off, src) && |src| == 0
    ensures d == d0 && inodes == inodes0
  {}

  lemma SizeAfter(g: Sb, d: Store, inodes: Inodes, d': Store, inodes': Inodes, ip: int, off: nat, src: seq<Byte>)
    requires Written(d, inodes, d', inodes', ip, off, src) && Base(g, d', inodes', {})
    ensures ip in inodes && ip in inodes' && inodes'[ip].typ == inodes[ip].typ && inodes'[ip].size >= off + |src|
  {
    hide Base, Shapes, Raw;
    AllocPre(g, d', inodes');
    ShapesAt(inodes', ip);
  }

  lemma DoneMore(g: Sb, d0: Store, inodes0: Inodes, d1: Store, inodes1: Inodes, d2: Store, inodes2: Inodes, ip: int, off: nat,
                 a: seq<Byte>, b: seq<Byte>)
    requires Done(d0, inodes0, d1, inodes1, ip, off, a) && Written(d1, inodes1, d2, inodes2, ip, off + |a|, b) && b != []
    requires Base(g, d2, inodes2, {})
    ensures Done(d0, inodes0, d2, inodes2, ip, off, a + b) && ip in inodes2 && ip in inodes1 && inodes2[ip].typ == inodes1[ip].typ && inodes2[ip].size >= off + |a| + |b|
  {
    hide Base, Shapes, Splice, Raw, FsFiles.File;
    SizeAfter(g, d1, inodes1, d2, inodes2, ip, off + |a|, b);
    if a != [] {
      SpliceTwice(FsFiles.File(d0, inodes0[ip]), off, a, b);
    } else {
      assert a + b == b;
    }
  }
}
