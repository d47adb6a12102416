/** The inode cache of fs.c, in place.  Each method is one step of the state machine and
    reports the panics of the source; under the invariant none of them can happen. */
module Icache {
  import opened IcacheRuns

  class Icache {
    const inode: array<Slot>
    var disk: map<Ino, Dinode>
    // The handles that callers hold, and what they know of directories.
    ghost var handles: map<int, Handle>
    ghost var entries: map<Ino, nat>
    ghost var loose: map<Ino, nat>
    ghost var pending: map<int, Ino>

    ghost function View(): State
      reads this, inode
    {
      State(inode[..], disk, entries, loose, handles, pending)
    }

    /** iget: the index of the entry, or -1 for the panic "iget: no inodes". */
    method Iget(dev: int, inum: int) returns (ip: int)
      modifies inode
      ensures ip == -1 <==> Where(old(inode[..]), Ino(dev, inum)) == inode.Length
      ensures ip == -1 ==> inode[..] == old(inode[..])
      ensures ip != -1 ==> ip == Where(old(inode[..]), Ino(dev, inum)) && inode[..] == IcacheRuns.Iget(old(inode[..]), Ino(dev, inum))
      ensures ip != -1 ==> 0 <= ip < inode.Length && inode[ip].ino == Ino(dev, inum) && inode[ip].ref == old(inode[ip]).ref + 1
      ensures ip != -1 && (exists k :: 0 <= k < inode.Length && old(inode[k]).ref > 0 && old(inode[k]).ino == Ino(dev, inum)) ==>
                inode[ip] == old(inode[ip]).(ref := inode[ip].ref)
      ensures ip != -1 && (forall k :: 0 <= k < inode.Length && old(inode[k]).ref > 0 ==> old(inode[k]).ino != Ino(dev, inum)) ==>
                old(inode[ip]).ref == 0 && !inode[ip].busy && !inode[ip].valid
      ensures forall k :: 0 <= k < inode.Length && k != ip ==> inode[k] == old(inode[k])
    {
      var empty := -1;
      var k := 0;
      while k < inode.Length
        invariant 0 <= k <= inode.Length && inode[..] == old(inode[..])
        invariant forall c :: 0 <= c < k ==> !(inode[c].ref > 0 && inode[c].ino == Ino(dev, inum))
        invariant -1 <= empty < k && (empty >= 0 ==> inode[empty].ref == 0)
        invariant forall c :: 0 <= c < (if empty >= 0 then empty else k) ==> inode[c].ref != 0
      {
        if inode[k].ref > 0 && inode[k].ino.dev == dev && inode[k].ino.inum == inum {
          assert Find(old(inode[..]), Ino(dev, inum), 0) == k;
          inode[k] := inode[k].(ref := inode[k].ref + 1);
          return k;
        }
        if empty == -1 && inode[k].ref == 0 {
          empty := k;
        }
        k := k + 1;
      }
      assert Find(old(inode[..]), Ino(dev, inum), 0) == inode.Length;
      if empty == -1 {
        assert Empty(old(inode[..]), 0) == inode.Length;
        return -1;
      }
      assert Empty(old(inode[..]), 0) == empty;
      inode[empty] := inode[empty].(ino := Ino(dev, inum), ref := 1, busy := false, valid := false);
      return empty;
    }

    /** iget for an inode that some directory entry names; the caller gets handle id.  The
        invariant survives exactly the safe lookups. */
    method Lookup(ghost id: int, ino: Ino) returns (ip: int)
      requires Enabled(View(), IcacheRuns.Lookup(id, ino))
      modifies inode, this`handles
      ensures View() == Step(old(View()), IcacheRuns.Lookup(id, ino)) && ip == handles[id].slot
      ensures old(Inv(View())) ==> (Inv(View()) <==> Safe(old(View()), ino))
    {
      hide Inv, IcacheRuns.Iget, Safe;
      if Inv(View()) { LookupIff(View(), id, ino); }
      ip := Iget(ino.dev, ino.inum);
      handles := handles[id := Handle(ip, ino, disk[ino].gen, Held)];
    }

    /** ialloc up to its call of iget: the least free inode number is marked.  -1 stands for
        the panic "ialloc: no inodes". */
    method Ialloc(ghost id: int, dev: int, ninodes: nat, typ: int) returns (inum: int)
      requires Inv(View()) && typ != 0 && Fresh(View(), id) && forall n :: 1 <= n < ninodes ==> Ino(dev, n) in disk
      modifies this`disk, this`pending
      ensures Inv(View()) && (inum == -1 <==> forall n :: 1 <= n < ninodes ==> old(disk)[Ino(dev, n)].typ != 0)
      ensures if inum == -1 then View() == old(View())
              else
                && 1 <= inum < ninodes && Ino(dev, inum) in old(disk) && old(disk)[Ino(dev, inum)].typ == 0
                && (forall n :: 1 <= n < inum ==> old(disk)[Ino(dev, n)].typ != 0)
                && Enabled(old(View()), Mark(id, Ino(dev, inum), typ)) && View() == Step(old(View()), Mark(id, Ino(dev, inum), typ))
                && disk.Keys == old(disk).Keys && disk[Ino(dev, inum)].typ == typ && disk[Ino(dev, inum)].nlink == 0
                && forall ino :: ino in disk && ino != Ino(dev, inum) ==> disk[ino] == old(disk)[ino]
    {
      hide Inv;
      inum := 1;
      while inum < ninodes
        invariant 1 <= inum && View() == old(View()) && forall n :: 1 <= n < inum && n < ninodes ==> disk[Ino(dev, n)].typ != 0
        decreases ninodes - inum
      {
        var ino := Ino(dev, inum);
        if disk[ino].typ == 0 {
          MarkInv(View(), id, ino, typ);
          disk := disk[ino := Dinode(typ, 0, disk[ino].gen + 1)];
          pending := pending[id := ino];
          return;
        }
        inum := inum + 1;
      }
      inum := -1;
    }

    method Idup(ip: int, ghost h: int, ghost id: int)
      requires Inv(View()) && Enabled(View(), Dup(h, id)) && ip == handles[h].slot
      modifies inode, this`handles
      ensures Inv(View()) && View() == Step(old(View()), Dup(h, id))
      ensures inode[..] == old(inode[..])[ip := old(inode[ip]).(ref := old(inode[ip]).ref + 1)]
    {
      hide Inv;
      DupInv(View(), h, id);
      inode[ip] := inode[ip].(ref := inode[ip].ref + 1);
      handles := handles[id := handles[h].(doing := Held)];
    }

    /** ilock up to the busy flag; the caller has found it clear.  Panic "ilock". */
    method Lock(ip: int, ghost h: int) returns (panic: bool)
      requires Inv(View()) && Enabled(View(), IcacheRuns.Lock(h)) && ip == handles[h].slot
      modifies inode, this`handles
      ensures !panic && Inv(View()) && View() == Step(old(View()), IcacheRuns.Lock(h))
      ensures inode[..] == old(inode[..])[ip := old(inode[ip]).(busy := true)]
    {
      hide Inv, On;
      ShowHandle(View(), h);
      LockInv(View(), h);
      panic := inode[ip].ref < 1;
      if panic {
        return;
      }
      inode[ip] := inode[ip].(busy := true);
      handles := handles[h := handles[h].(doing := Locking)];
    }

    /** The rest of ilock.  Panic "ilock: no type": the inode had to be read and is free on
        disk, which the invariant excludes. */
    method Load(ip: int, ghost h: int) returns (panic: bool)
      requires Is(View(), h, Locking) && ip == handles[h].slot && inode[ip].ino == handles[h].ino && inode[ip].ino in disk
      modifies inode, this`handles
      ensures panic <==> !old(inode[ip].valid) && disk[old(inode[ip].ino)].typ == 0
      ensures View() == Step(old(View()), IcacheRuns.Load(h))
      ensures inode[..] == if old(inode[ip]).valid then old(inode[..]) else old(inode[..])[ip := old(inode[ip]).(mem := disk[old(inode[ip]).ino], valid := true)]
      ensures old(Inv(View())) ==> !panic && Inv(View()) && inode[ip].valid && inode[ip].mem.typ != 0 && inode[ip].mem.gen == handles[h].gen
    {
      hide Inv, On;
      if Inv(View()) {
        LoadInv(View(), h);
        Loaded(View(), h);
      }
      panic := false;
      if !inode[ip].valid {
        inode[ip] := inode[ip].(mem := disk[inode[ip].ino], valid := true);
        panic := inode[ip].mem.typ == 0;
      }
      handles := handles[h := handles[h].(doing := Locked)];
      assert inode[..] == Step(old(View()), IcacheRuns.Load(h)).slots;
    }

    /** iunlock.  Panic "iunlock".  The invariant survives exactly when the entry has been
        written back. */
    method Unlock(ip: int, ghost h: int) returns (panic: bool)
      requires Is(View(), h, Locked) && ip == handles[h].slot
      modifies inode, this`handles
      ensures panic <==> !old(inode[ip].busy) || old(inode[ip].ref) < 1
      ensures View() == if panic then old(View()) else Step(old(View()), IcacheRuns.Unlock(h))
      ensures !panic ==> inode[..] == old(inode[..])[ip := old(inode[ip]).(busy := false)]
      ensures old(Inv(View())) ==> !panic && (Inv(View()) <==> Proper(old(View()), IcacheRuns.Unlock(h)))
    {
      hide Inv, On;
      if Inv(View()) {
        ShowHandle(View(), h);
        UnlockInv(View(), h);
      }
      panic := !inode[ip].busy || inode[ip].ref < 1;
      if panic {
        return;
      }
      inode[ip] := inode[ip].(busy := false);
      handles := handles[h := handles[h].(doing := Held)];
    }

    /** iput up to releasing icache.lock for the first time.  Panic "iput busy". */
    method Put(ip: int, ghost h: int) returns (frees: bool, panic: bool)
      requires Inv(View()) && Enabled(View(), IcacheRuns.Put(h)) && ip == handles[h].slot
      modifies inode, this`handles
      ensures !panic && Inv(View()) && View() == Step(old(View()), IcacheRuns.Put(h))
      ensures frees <==> h in handles
      ensures frees <==> old(inode[ip]).ref == 1 && old(inode[ip]).valid && old(inode[ip]).mem.nlink == 0
      ensures inode[..] == old(inode[..])[ip := if frees then old(inode[ip]).(busy := true) else old(inode[ip]).(ref := old(inode[ip]).ref - 1)]
    {
      hide Inv, On;
      PutInv(View(), h);
      if inode[ip].ref == 1 && inode[ip].valid && inode[ip].mem.nlink == 0 {
        PutFreeInv(View(), h);
        panic := inode[ip].busy;
        frees := true;
        inode[ip] := inode[ip].(busy := true);
        handles := handles[h := handles[h].(doing := Freeing)];
        return;
      }
      inode[ip] := inode[ip].(ref := inode[ip].ref - 1);
      handles := handles - {h};
      return false, false;
    }

    /** iput's window: the inode, truncated, is marked free on disk. */
    method Free(ip: int, ghost h: int)
      requires Inv(View()) && Is(View(), h, Freeing) && ip == handles[h].slot
      modifies inode, this`handles, this`disk
      ensures Inv(View()) && Enabled(old(View()), IcacheRuns.Free(h)) && View() == Step(old(View()), IcacheRuns.Free(h))
      ensures var ino := old(inode[ip]).ino; ino in old(disk) && disk == old(disk)[ino := old(disk)[ino].(typ := 0)] && inode[ip].mem == disk[ino]
    {
      hide Inv, On;
      ShowHandle(View(), h);
      FreeInv(View(), h);
      FreeingMem(View(), h);
      inode[ip] := inode[ip].(mem := inode[ip].mem.(typ := 0));
      disk := disk[inode[ip].ino := inode[ip].mem];
      handles := handles[h := handles[h].(doing := Freed)];
    }

    /** The end of iput. */
    method Finish(ip: int, ghost h: int)
      requires Inv(View()) && Enabled(View(), IcacheRuns.Finish(h)) && ip == handles[h].slot
      modifies inode, this`handles
      ensures Inv(View()) && View() == Step(old(View()), IcacheRuns.Finish(h))
      ensures inode[..] == old(inode[..])[ip := old(inode[ip]).(busy := false, valid := false, ref := old(inode[ip]).ref - 1)]
    {
      hide Inv, On;
      FinishInv(View(), h);
      inode[ip] := inode[ip].(busy := false, valid := false);
      inode[ip] := inode[ip].(ref := inode[ip].ref - 1);
      handles := handles - {h};
      assert inode[..] == Step(old(View()), IcacheRuns.Finish(h)).slots;
    }
  }

  /** After loading, the entry is of the handle's generation. */
  lemma Loaded(s: State, h: int)
    requires Inv(s) && Is(s, h, Locking)
    ensures s.handles[h].ino in s.disk && SlotOf(s, h).ino == s.handles[h].ino && s.disk[s.handles[h].ino].typ != 0
    ensures s.disk[s.handles[h].ino].gen == s.handles[h].gen
    ensures SlotOf(s, h).valid ==> SlotOf(s, h).mem.typ != 0 && SlotOf(s, h).mem.gen == s.handles[h].gen
  {
    hide Inv, On;
    ShowHandle(s, h);
    NoneFreed(s, h);
  }

  /** In iput's window the entry is the inode on disk. */
  lemma FreeingMem(s: State, h: int)
    requires Inv(s) && Is(s, h, Freeing)
    ensures s.handles[h].ino in s.disk && SlotOf(s, h).ino == s.handles[h].ino && SlotOf(s, h).mem == s.disk[s.handles[h].ino]
  {
    hide Inv, On;
    ShowHandle(s, h);
    NoneFreed(s, h);
  }
}
