/** The inode cache as a state machine whose actors are the handles that system calls hold.
    A step is what one of them does under icache.lock, or one access to the disk inode. */
module IcacheRuns {
  datatype Ino = Ino(dev: int, inum: int)

  /** An inode's type, link count and contents; gen counts the allocations of its number and
      stands for the contents. */
  datatype Dinode = Dinode(typ: int, nlink: int, gen: int)

  /** A cache entry; mem is meaningful when valid. */
  datatype Slot = Slot(ino: Ino, ref: int, busy: bool, valid: bool, mem: Dinode)

  /** What the owner of a handle is doing: nothing, ilock before and after reading the disk,
      iput's window before and after the inode is marked free on disk. */
  datatype Doing = Held | Locking | Locked | Freeing | Freed

  datatype Handle = Handle(slot: int, ino: Ino, gen: int, doing: Doing)

  /** entries: directory entries that name an inode and that its link count covers.  loose:
      entries that no link count covers: "." in its own directory, and ".." in a directory that
      has been removed and that some process is still in.  pending: inodes ialloc has marked
      and not yet looked up. */
  datatype State = State(slots: seq<Slot>, disk: map<Ino, Dinode>, entries: map<Ino, nat>, loose: map<Ino, nat>,
                         handles: map<int, Handle>, pending: map<int, Ino>)

  datatype Event =
    | Lookup(id: int, ino: Ino) | Mark(id: int, ino: Ino, typ: int) | Get(id: int) | Dup(h: int, id: int)
    | Lock(h: int) | Load(h: int) | Unlock(h: int) | Modify(h: int, nlink: int) | Update(h: int)
    | AddEntry(ino: Ino) | RemoveEntry(ino: Ino) | AddDot(ino: Ino) | Orphan(ino: Ino) | Forget(ino: Ino)
    | Put(h: int) | Free(h: int) | Finish(h: int)

  /** The least slot from k on in use for ino, or |slots|. */
  function Find(slots: seq<Slot>, ino: Ino, k: nat): (z: nat)
    requires k <= |slots|
    ensures k <= z <= |slots| && (z < |slots| ==> slots[z].ref > 0 && slots[z].ino == ino)
    ensures forall c :: k <= c < z ==> !(slots[c].ref > 0 && slots[c].ino == ino)
    decreases |slots| - k
  {
    if k == |slots| || (slots[k].ref > 0 && slots[k].ino == ino) then k else Find(slots, ino, k + 1)
  }

  function Empty(slots: seq<Slot>, k: nat): (z: nat)
    requires k <= |slots|
    ensures k <= z <= |slots| && (z < |slots| ==> slots[z].ref == 0) && forall c :: k <= c < z ==> slots[c].ref != 0
    decreases |slots| - k
  {
    if k == |slots| || slots[k].ref == 0 then k else Empty(slots, k + 1)
  }

  /** iget: the slot, or |slots| for the panic "iget: no inodes". */
  function Where(slots: seq<Slot>, ino: Ino): (z: nat)
    ensures z <= |slots|
  {
    var z := Find(slots, ino, 0);
    if z < |slots| then z else Empty(slots, 0)
  }

  function Iget(slots: seq<Slot>, ino: Ino): seq<Slot>
    requires Where(slots, ino) < |slots|
  {
    var z := Where(slots, ino);
    if Find(slots, ino, 0) < |slots| then slots[z := slots[z].(ref := slots[z].ref + 1)]
    else slots[z := slots[z].(ino := ino, ref := 1, busy := false, valid := false)]
  }

  predicate Is(s: State, h: int, doing: Doing) {
    h in s.handles && 0 <= s.handles[h].slot < |s.slots| && s.handles[h].doing == doing
  }

  function SlotOf(s: State, h: int): Slot
    requires h in s.handles && 0 <= s.handles[h].slot < |s.slots|
  {
    s.slots[s.handles[h].slot]
  }

  predicate Unlinked(p: Slot) {
    p.ref == 1 && p.valid && p.mem.nlink == 0
  }

  predicate Fresh(s: State, id: int) {
    id !in s.handles && id !in s.pending
  }

  function At(m: map<Ino, nat>, ino: Ino): nat {
    if ino in m then m[ino] else 0
  }

  /** What the code makes possible: an inode is looked up through any entry that names it. */
  ghost predicate Enabled(s: State, e: Event) {
    match e
    case Lookup(id, ino) =>
      Fresh(s, id) && ino in s.disk && ino in s.entries && (At(s.entries, ino) > 0 || At(s.loose, ino) > 0) && Where(s.slots, ino) < |s.slots|
    case Mark(id, ino, typ) => Fresh(s, id) && ino in s.disk && s.disk[ino].typ == 0 && typ != 0
    case Get(id) => id in s.pending && id !in s.handles && Where(s.slots, s.pending[id]) < |s.slots|
    case Dup(h, id) => Fresh(s, id) && (Is(s, h, Held) || Is(s, h, Locked))
    case Lock(h) => Is(s, h, Held) && !SlotOf(s, h).busy
    case Load(h) => Is(s, h, Locking) && s.handles[h].ino in s.disk
    case Unlock(h) => Is(s, h, Locked)
    case Modify(h, nlink) => Is(s, h, Locked)
    case Update(h) => Is(s, h, Locked)
    case AddEntry(ino) => ino in s.entries
    case RemoveEntry(ino) => ino in s.entries && s.entries[ino] > 0
    case AddDot(ino) => true
    case Orphan(ino) => ino in s.entries && s.entries[ino] > 0
    case Forget(ino) => At(s.loose, ino) > 0
    case Put(h) => Is(s, h, Held)
    case Free(h) => Is(s, h, Freeing) && s.handles[h].ino in s.disk
    case Finish(h) => Is(s, h, Freed)
  }

  /** A lookup is safe: the inode is allocated, and nobody is freeing or allocating it. */
  ghost predicate Safe(s: State, ino: Ino) {
    && ino in s.disk && s.disk[ino].typ != 0
    && (forall h :: h in s.handles && s.handles[h].ino == ino ==> s.handles[h].doing != Freeing)
    && (forall id :: id in s.pending ==> s.pending[id] != ino)
  }

  /** n entries are covered wherever the count matters. */
  ghost predicate Covered(s: State, ino: Ino, n: int) {
    && (ino in s.disk ==> n <= s.disk[ino].nlink)
    && forall k :: 0 <= k < |s.slots| && s.slots[k].ref > 0 && s.slots[k].ino == ino && s.slots[k].valid ==>
         n <= s.slots[k].mem.nlink || exists h :: h in s.handles && s.handles[h].slot == k && s.handles[h].doing == Freed
  }

  /** What the invariant needs of the callers: lookups are safe, changes are written back before
      unlocking, and a link count is raised before and lowered after the entries it covers. */
  ghost predicate Proper(s: State, e: Event)
    requires Enabled(s, e)
  {
    match e
    case Lookup(id, ino) => Safe(s, ino)
    case Unlock(h) => s.handles[h].ino in s.disk && SlotOf(s, h).mem == s.disk[s.handles[h].ino]
    case Modify(h, nlink) => nlink >= At(s.entries, s.handles[h].ino)
    case AddEntry(ino) => Covered(s, ino, s.entries[ino] + 1)
    case _ => true
  }

  function WithHandle(s: State, id: int, ino: Ino, gen: int): State
    requires Where(s.slots, ino) < |s.slots|
  {
    s.(slots := Iget(s.slots, ino), handles := s.handles[id := Handle(Where(s.slots, ino), ino, gen, Held)])
  }

  function Now(s: State, h: int, doing: Doing, p: Slot): State
    requires h in s.handles && 0 <= s.handles[h].slot < |s.slots|
  {
    s.(slots := s.slots[s.handles[h].slot := p], handles := s.handles[h := s.handles[h].(doing := doing)])
  }

  function Dropped(s: State, h: int, p: Slot): State
    requires h in s.handles && 0 <= s.handles[h].slot < |s.slots|
  {
    s.(slots := s.slots[s.handles[h].slot := p], handles := s.handles - {h})
  }

  function Step(s: State, e: Event): State
    requires Enabled(s, e)
  {
    match e
    case Lookup(id, ino) => WithHandle(s, id, ino, s.disk[ino].gen)
    case Mark(id, ino, typ) => s.(disk := s.disk[ino := Dinode(typ, 0, s.disk[ino].gen + 1)], pending := s.pending[id := ino])
    case Get(id) =>
      var ino := s.pending[id];
      WithHandle(s, id, ino, if ino in s.disk then s.disk[ino].gen else 0).(pending := s.pending - {id})
    case Dup(h, id) =>
      var p := SlotOf(s, h);
      s.(slots := s.slots[s.handles[h].slot := p.(ref := p.ref + 1)], handles := s.handles[id := s.handles[h].(doing := Held)])
    case Lock(h) => Now(s, h, Locking, SlotOf(s, h).(busy := true))
    case Load(h) =>
      var p := SlotOf(s, h);
      Now(s, h, Locked, if p.valid then p else p.(mem := s.disk[s.handles[h].ino], valid := true))
    case Unlock(h) => Now(s, h, Held, SlotOf(s, h).(busy := false))
    case Modify(h, nlink) => var p := SlotOf(s, h); Now(s, h, Locked, p.(mem := p.mem.(nlink := nlink)))
    case Update(h) => s.(disk := s.disk[s.handles[h].ino := SlotOf(s, h).mem])
    case AddEntry(ino) => s.(entries := s.entries[ino := s.entries[ino] + 1])
    case RemoveEntry(ino) => s.(entries := s.entries[ino := s.entries[ino] - 1])
    case AddDot(ino) => s.(loose := s.loose[ino := At(s.loose, ino) + 1])
    case Orphan(ino) => s.(entries := s.entries[ino := s.entries[ino] - 1], loose := s.loose[ino := At(s.loose, ino) + 1])
    case Forget(ino) => s.(loose := s.loose[ino := At(s.loose, ino) - 1])
    case Put(h) =>
      var p := SlotOf(s, h);
      if Unlinked(p) then Now(s, h, Freeing, p.(busy := true)) else Dropped(s, h, p.(ref := p.ref - 1))
    case Free(h) =>
      var p := SlotOf(s, h);
      Now(s, h, Freed, p.(mem := p.mem.(typ := 0))).(disk := s.disk[s.handles[h].ino := s.disk[s.handles[h].ino].(typ := 0)])
    case Finish(h) =>
      var p := SlotOf(s, h);
      Dropped(s, h, p.(busy := false, valid := false, ref := p.ref - 1))
  }

  predicate Exclusive(d: Doing) {
    d != Held
  }

  ghost function On(handles: map<int, Handle>, k: int): set<int> {
    set h | h in handles && handles[h].slot == k
  }

  /** A handle's slot is its inode's; it is for the inode now on disk, unless its owner has
      just freed that one; in iput's window it is the only one. */
  ghost predicate HandleOk(s: State, h: int)
    requires h in s.handles
  {
    var x := s.handles[h];
    && 0 <= x.slot < |s.slots| && s.slots[x.slot].ino == x.ino && x.ino in s.disk && x.ino in s.entries
    && x.gen <= s.disk[x.ino].gen
    && (if x.doing == Freed then s.disk[x.ino].typ == 0 || x.gen < s.disk[x.ino].gen
        else s.disk[x.ino].typ != 0 && x.gen == s.disk[x.ino].gen)
    && (Exclusive(x.doing) ==> s.slots[x.slot].busy)
    && (x.doing == Locked || x.doing == Freeing || x.doing == Freed ==> s.slots[x.slot].valid)
    && (x.doing == Freeing ==> s.slots[x.slot].ref == 1 && s.disk[x.ino].nlink == 0)
  }

  ghost predicate SlotOk(s: State, k: int)
    requires 0 <= k < |s.slots|
  {
    var p := s.slots[k];
    && p.ref == |On(s.handles, k)|
    && (p.ref > 0 && p.busy ==> exists h :: h in s.handles && s.handles[h].slot == k && Exclusive(s.handles[h].doing))
    && (p.ref > 0 && p.valid ==> MemOk(s, p, k))
  }

  /** A valid entry equals the disk inode, but for the link count while it is locked, and not
      at all once it is being discarded. */
  ghost predicate MemOk(s: State, p: Slot, k: int) {
    || (exists h :: h in s.handles && s.handles[h].slot == k && s.handles[h].doing == Freed)
    || (p.ino in s.disk && p.ino in s.entries && p.mem == s.disk[p.ino].(nlink := p.mem.nlink) && s.entries[p.ino] <= p.mem.nlink &&
        (p.mem.nlink == s.disk[p.ino].nlink || exists h :: h in s.handles && s.handles[h].slot == k && s.handles[h].doing == Locked))
  }

  ghost predicate DiskOk(s: State, ino: Ino)
    requires ino in s.disk
  {
    && ino in s.entries && s.entries[ino] <= s.disk[ino].nlink
    && (s.disk[ino].typ == 0 ==> s.disk[ino].nlink == 0)
  }

  /** An inode marked by ialloc and not yet looked up is unlinked and nobody else's. */
  ghost predicate PendingOk(s: State, id: int)
    requires id in s.pending
  {
    var ino := s.pending[id];
    && ino in s.disk && s.disk[ino].typ != 0 && s.disk[ino].nlink == 0
    && (forall h :: h in s.handles && s.handles[h].ino == ino ==> s.handles[h].doing == Freed)
    && (forall id2 :: id2 in s.pending && id2 != id ==> s.pending[id2] != ino)
  }

  /** No inode is in two slots. */
  ghost predicate Apart(s: State, j: int, k: int)
    requires 0 <= j < |s.slots| && 0 <= k < |s.slots|
  {
    s.slots[j].ref > 0 && s.slots[k].ref > 0 ==> s.slots[j].ino != s.slots[k].ino
  }

  /** No two owners have an inode locked. */
  ghost predicate OneLock(s: State, g: int, h: int)
    requires g in s.handles && h in s.handles
  {
    s.handles[g].slot == s.handles[h].slot ==> s.handles[g].doing == Held || s.handles[h].doing == Held
  }

  ghost predicate Inv(s: State) {
    && (forall h :: h in s.handles ==> HandleOk(s, h))
    && (forall k :: 0 <= k < |s.slots| ==> SlotOk(s, k))
    && (forall j, k :: 0 <= j < |s.slots| && 0 <= k < |s.slots| && j != k ==> Apart(s, j, k))
    && (forall g, h :: g in s.handles && h in s.handles && g != h ==> OneLock(s, g, h))
    && (forall ino :: ino in s.disk ==> DiskOk(s, ino))
    && (forall id :: id in s.pending ==> PendingOk(s, id) && id !in s.handles)
  }

  lemma ShowHandle(s: State, h: int)
    requires Inv(s) && h in s.handles
    ensures HandleOk(s, h) && SlotOk(s, s.handles[h].slot) && SlotOf(s, h).ref > 0
  {
    assert HandleOk(s, h) && SlotOk(s, s.handles[h].slot);
    assert h in On(s.handles, s.handles[h].slot);
  }

  lemma ShowSlot(s: State, k: int)
    requires Inv(s) && 0 <= k < |s.slots|
    ensures SlotOk(s, k)
  {}

  lemma ShowApart(s: State, j: int, k: int)
    requires Inv(s) && 0 <= j < |s.slots| && 0 <= k < |s.slots| && j != k
    ensures Apart(s, j, k)
  {}

  lemma ShowLock(s: State, g: int, h: int)
    requires Inv(s) && g in s.handles && h in s.handles && g != h
    ensures OneLock(s, g, h)
  {}

  lemma ShowDisk(s: State, ino: Ino)
    requires Inv(s) && ino in s.disk
    ensures DiskOk(s, ino)
  {}

  lemma ShowPending(s: State, id: int)
    requires Inv(s) && id in s.pending
    ensures PendingOk(s, id) && id !in s.handles
  {}

  /** Handles for one inode are handles on one slot. */
  lemma SameSlot(s: State, g: int, h: int)
    requires Inv(s) && g in s.handles && h in s.handles && s.handles[g].ino == s.handles[h].ino
    ensures s.handles[g].slot == s.handles[h].slot
  {
    hide Inv, On;
    ShowHandle(s, g);
    ShowHandle(s, h);
    if s.handles[g].slot != s.handles[h].slot { ShowApart(s, s.handles[g].slot, s.handles[h].slot); }
  }

  lemma Two(a: set<int>, g: int, h: int)
    requires g in a && h in a && g != h
    ensures |a| >= 2
  {
    assert |a| == |a - {g}| + 1;
    assert |a - {g}| == |a - {g} - {h}| + 1;
  }

  /** A handle in iput's window has its slot alone. */
  lemma Alone(s: State, g: int, h: int)
    requires Inv(s) && g in s.handles && h in s.handles && g != h && s.handles[g].doing == Freeing
    ensures s.handles[h].slot != s.handles[g].slot
  {
    hide Inv;
    ShowHandle(s, g);
    if s.handles[h].slot == s.handles[g].slot { Two(On(s.handles, s.handles[g].slot), g, h); }
  }

  /** A step of the owner of handle h on its slot, which becomes p, and on its inode on disk,
      which becomes q. */
  ghost predicate Turn(s: State, s': State, h: int, d: Doing, p: Slot, q: Dinode) {
    && h in s.handles && 0 <= s.handles[h].slot < |s.slots| && s.handles[h].doing != Freed
    && s' == s.(slots := s.slots[s.handles[h].slot := p], handles := s.handles[h := s.handles[h].(doing := d)],
                disk := s.disk[s.handles[h].ino := q])
    && p.ino == SlotOf(s, h).ino && p.ref == SlotOf(s, h).ref && p.busy == Exclusive(d)
    && (s.handles[h].doing == Held ==> !SlotOf(s, h).busy)
    && s.handles[h].ino in s.disk && q.gen == s.disk[s.handles[h].ino].gen
    && (q.typ == s.disk[s.handles[h].ino].typ || (q.typ == 0 && s.handles[h].doing == Freeing && d == Freed))
    && HandleOk(s', h) && DiskOk(s', s.handles[h].ino) && (p.valid ==> MemOk(s', p, s.handles[h].slot))
  }

  lemma TurnHandle(s: State, s': State, h: int, d: Doing, p: Slot, q: Dinode, g: int)
    requires Inv(s) && Turn(s, s', h, d, p, q) && g in s.handles
    ensures HandleOk(s', g)
  {
    hide Inv, On, MemOk, SlotOk;
    if g != h {
      ShowHandle(s, g);
      ShowHandle(s, h);
      ShowLock(s, g, h);
      if s.handles[g].ino == s.handles[h].ino { SameSlot(s, g, h); }
      if s.handles[h].doing == Freeing { Alone(s, h, g); }
      OnlyLock(s, g, h);
    }
  }

  /** On a slot that is not busy nobody is doing anything. */
  lemma OnlyLock(s: State, g: int, h: int)
    requires Inv(s) && g in s.handles && h in s.handles && g != h
    ensures s.handles[g].slot == s.handles[h].slot && (Exclusive(s.handles[h].doing) || !SlotOf(s, h).busy) ==> s.handles[g].doing == Held
    ensures 0 <= s.handles[h].slot < |s.slots|
  {
    hide Inv, On, MemOk, SlotOk;
    ShowHandle(s, g);
    ShowHandle(s, h);
    ShowLock(s, g, h);
  }

  lemma TurnSlot(s: State, s': State, h: int, d: Doing, p: Slot, q: Dinode, k: int)
    requires Inv(s) && Turn(s, s', h, d, p, q) && 0 <= k < |s.slots|
    ensures SlotOk(s', k)
  {
    hide Inv, HandleOk, DiskOk;
    OnTurn(s.handles, h, d, k);
    ShowSlot(s, k);
    ShowHandle(s, h);
    hide On;
    var x := s.handles[h];
    if k == x.slot {
      if p.busy { assert s'.handles[h].slot == k && Exclusive(s'.handles[h].doing); }
    } else if s.slots[k].ref > 0 {
      TurnElsewhere(s, s', h, d, p, q, k);
    }
  }

  lemma OnTurn(handles: map<int, Handle>, h: int, d: Doing, k: int)
    requires h in handles
    ensures On(handles[h := handles[h].(doing := d)], k) == On(handles, k)
  {}

  lemma TurnElsewhere(s: State, s': State, h: int, d: Doing, p: Slot, q: Dinode, k: int)
    requires Inv(s) && Turn(s, s', h, d, p, q) && 0 <= k < |s.slots| && k != s.handles[h].slot && s.slots[k].ref > 0
    ensures s.slots[k].busy ==> exists g :: g in s'.handles && s'.handles[g].slot == k && Exclusive(s'.handles[g].doing)
    ensures s.slots[k].valid ==> MemOk(s', s.slots[k], k)
  {
    hide Inv, On;
    ShowSlot(s, k);
    ShowHandle(s, h);
    ShowApart(s, k, s.handles[h].slot);
    if s.slots[k].busy {
      var g :| g in s.handles && s.handles[g].slot == k && Exclusive(s.handles[g].doing);
      assert s'.handles[g] == s.handles[g];
    }
    if s.slots[k].valid { MemElsewhere(s, s', k); }
  }

  /** Nothing changed that slot k depends on. */
  lemma MemElsewhere(s: State, s': State, k: int)
    requires 0 <= k < |s.slots| && s.slots[k].valid && MemOk(s, s.slots[k], k)
    requires s.slots[k].ino in s.disk ==> s.slots[k].ino in s'.disk && s'.disk[s.slots[k].ino] == s.disk[s.slots[k].ino]
    requires s.slots[k].ino in s.entries ==> s.slots[k].ino in s'.entries && s'.entries[s.slots[k].ino] == s.entries[s.slots[k].ino]
    requires forall g :: g in s.handles && s.handles[g].slot == k && s.handles[g].doing != Held ==> g in s'.handles && s'.handles[g] == s.handles[g]
    ensures MemOk(s', s.slots[k], k)
  {
    if g :| g in s.handles && s.handles[g].slot == k && s.handles[g].doing == Freed { assert s'.handles[g].doing == Freed; }
    if g :| g in s.handles && s.handles[g].slot == k && s.handles[g].doing == Locked { assert s'.handles[g].doing == Locked; }
  }

  lemma TurnPending(s: State, s': State, h: int, d: Doing, p: Slot, q: Dinode, id: int)
    requires Inv(s) && Turn(s, s', h, d, p, q) && id in s.pending
    ensures PendingOk(s', id)
  {
    hide Inv, On, MemOk, SlotOk, HandleOk, DiskOk;
    ShowPending(s, id);
  }

  lemma TurnInv(s: State, s': State, h: int, d: Doing, p: Slot, q: Dinode)
    requires Inv(s) && Turn(s, s', h, d, p, q)
    ensures Inv(s')
  {
    forall g | g in s.handles ensures HandleOk(s', g) { TurnHandle(s, s', h, d, p, q, g); }
    forall k | 0 <= k < |s.slots| ensures SlotOk(s', k) { TurnSlot(s, s', h, d, p, q, k); }
    hide On, MemOk, SlotOk, HandleOk;
    forall j, k | 0 <= j < |s.slots| && 0 <= k < |s.slots| && j != k ensures Apart(s', j, k) { ShowApart(s, j, k); }
    forall f, g | f in s.handles && g in s.handles && f != g ensures OneLock(s', f, g) { TurnLock(s, s', h, d, p, q, f, g); }
    forall ino | ino in s'.disk ensures DiskOk(s', ino) { if ino != s.handles[h].ino { ShowDisk(s, ino); } }
    forall id | id in s.pending ensures PendingOk(s', id) && id !in s'.handles {
      ShowPending(s, id);
      TurnPending(s, s', h, d, p, q, id);
    }
  }

  lemma TurnLock(s: State, s': State, h: int, d: Doing, p: Slot, q: Dinode, f: int, g: int)
    requires Inv(s) && Turn(s, s', h, d, p, q) && f in s.handles && g in s.handles && f != g
    ensures OneLock(s', f, g)
  {
    hide Inv, On, MemOk, SlotOk, HandleOk, DiskOk;
    ShowLock(s, f, g);
    if f == h { OnlyLock(s, g, h); }
    if g == h { OnlyLock(s, f, h); }
  }

  lemma SameDisk(s: State, ino: Ino)
    requires ino in s.disk
    ensures s.disk[ino := s.disk[ino]] == s.disk
  {}

  lemma LockInv(s: State, h: int)
    requires Inv(s) && Enabled(s, Lock(h))
    ensures Inv(Step(s, Lock(h)))
  {
    hide Inv, On;
    var ino := s.handles[h].ino;
    ShowHandle(s, h);
    ShowDisk(s, ino);
    SameDisk(s, ino);
    NoneFreed(s, h);
    TurnInv(s, Step(s, Lock(h)), h, Locking, SlotOf(s, h).(busy := true), s.disk[ino]);
  }

  lemma LoadInv(s: State, h: int)
    requires Inv(s) && Enabled(s, Load(h))
    ensures Inv(Step(s, Load(h)))
    ensures SlotOf(Step(s, Load(h)), h).mem.typ != 0
  {
    hide Inv, On;
    var ino := s.handles[h].ino;
    ShowHandle(s, h);
    ShowDisk(s, ino);
    SameDisk(s, ino);
    NoneFreed(s, h);
    var p := SlotOf(s, h);
    var p' := if p.valid then p else p.(mem := s.disk[ino], valid := true);
    TurnInv(s, Step(s, Load(h)), h, Locked, p', s.disk[ino]);
  }

  /** Beside a lock holder nobody is discarding the slot. */
  lemma NoneFreed(s: State, h: int)
    requires Inv(s) && h in s.handles && s.handles[h].doing != Freed
    requires Exclusive(s.handles[h].doing) || (0 <= s.handles[h].slot < |s.slots| && !SlotOf(s, h).busy)
    ensures 0 <= s.handles[h].slot < |s.slots|
    ensures forall g :: g in s.handles && s.handles[g].slot == s.handles[h].slot && g != h ==> s.handles[g].doing == Held
  {
    hide Inv, On;
    ShowHandle(s, h);
    forall g | g in s.handles && s.handles[g].slot == s.handles[h].slot && g != h ensures s.handles[g].doing == Held { OnlyLock(s, g, h); }
  }

  lemma UnlockInv(s: State, h: int)
    requires Inv(s) && Enabled(s, Unlock(h))
    ensures Inv(Step(s, Unlock(h))) <==> Proper(s, Unlock(h))
  {
    hide Inv, On;
    var ino := s.handles[h].ino;
    var s' := Step(s, Unlock(h));
    ShowHandle(s, h);
    ShowDisk(s, ino);
    SameDisk(s, ino);
    NoneFreed(s, h);
    if Proper(s, Unlock(h)) {
      TurnInv(s, s', h, Held, SlotOf(s, h).(busy := false), s.disk[ino]);
    } else if Inv(s') {
      ShowSlot(s', s.handles[h].slot);
      assert false;
    }
  }

  lemma ModifyInv(s: State, h: int, nlink: int)
    requires Inv(s) && Enabled(s, Modify(h, nlink))
    ensures Inv(Step(s, Modify(h, nlink))) <==> Proper(s, Modify(h, nlink))
  {
    hide Inv, On;
    var ino := s.handles[h].ino;
    ShowHandle(s, h);
    ShowDisk(s, ino);
    SameDisk(s, ino);
    NoneFreed(s, h);
    var p := SlotOf(s, h);
    var s' := Step(s, Modify(h, nlink));
    assert s'.handles[h].slot == s.handles[h].slot && s'.handles[h].doing == Locked;
    if Proper(s, Modify(h, nlink)) {
      TurnInv(s, s', h, Locked, p.(mem := p.mem.(nlink := nlink)), s.disk[ino]);
    } else if Inv(s') {
      ShowSlot(s', s.handles[h].slot);
      assert false;
    }
  }

  lemma UpdateInv(s: State, h: int)
    requires Inv(s) && Enabled(s, Update(h))
    ensures Inv(Step(s, Update(h)))
  {
    hide Inv, On;
    var ino := s.handles[h].ino;
    ShowHandle(s, h);
    ShowDisk(s, ino);
    NoneFreed(s, h);
    var s' := Step(s, Update(h));
    assert s.handles[h := s.handles[h].(doing := Locked)] == s.handles;
    assert s.slots[s.handles[h].slot := SlotOf(s, h)] == s.slots;
    TurnInv(s, s', h, Locked, SlotOf(s, h), SlotOf(s, h).mem);
  }

  /** iput that finds the last reference to an unlinked inode: nobody holds its lock. */
  lemma PutFreeInv(s: State, h: int)
    requires Inv(s) && Is(s, h, Held) && Unlinked(SlotOf(s, h))
    ensures !SlotOf(s, h).busy && Inv(Step(s, Put(h)))
  {
    hide Inv;
    var ino := s.handles[h].ino;
    ShowHandle(s, h);
    ShowDisk(s, ino);
    SameDisk(s, ino);
    forall g | g in s.handles && s.handles[g].slot == s.handles[h].slot ensures g == h {
      if g != h { Two(On(s.handles, s.handles[h].slot), g, h); }
    }
    hide On;
    assert !SlotOf(s, h).busy;
    TurnInv(s, Step(s, Put(h)), h, Freeing, SlotOf(s, h).(busy := true), s.disk[ino]);
  }

  /** When iput frees the inode on disk, no other handle to it exists. */
  lemma FreeInv(s: State, h: int)
    requires Inv(s) && Enabled(s, Free(h))
    ensures Inv(Step(s, Free(h)))
    ensures forall g :: g in s.handles && g != h ==> s.handles[g].ino != s.handles[h].ino
  {
    hide Inv;
    var ino := s.handles[h].ino;
    ShowHandle(s, h);
    ShowDisk(s, ino);
    forall g | g in s.handles && g != h ensures s.handles[g].ino != ino {
      Alone(s, h, g);
      if s.handles[g].ino == ino { SameSlot(s, g, h); }
    }
    hide On;
    var p := SlotOf(s, h);
    var s' := Step(s, Free(h));
    assert s'.handles[h].slot == s.handles[h].slot && s'.handles[h].doing == Freed;
    TurnInv(s, s', h, Freed, p.(mem := p.mem.(typ := 0)), s.disk[ino].(typ := 0));
  }

  /** A new handle id on slot k, already in use for ino or taken for it. */
  ghost predicate Join(s: State, s': State, id: int, ino: Ino, k: int) {
    && id !in s.handles && 0 <= k < |s.slots| && ino in s.disk && ino in s.entries
    && s'.handles == s.handles[id := Handle(k, ino, s.disk[ino].gen, Held)] && s'.disk == s.disk && s'.entries == s.entries && s'.loose == s.loose
    && s'.pending == s.pending - {id}
    && (if s.slots[k].ref > 0 then s.slots[k].ino == ino && s'.slots == s.slots[k := s.slots[k].(ref := s.slots[k].ref + 1)]
        else
          && s'.slots == s.slots[k := s.slots[k].(ino := ino, ref := 1, busy := false, valid := false)]
          && forall j :: 0 <= j < |s.slots| && s.slots[j].ref > 0 ==> s.slots[j].ino != ino)
    && s.disk[ino].typ != 0
    && (forall g :: g in s.handles && s.handles[g].ino == ino ==> s.handles[g].doing != Freeing)
    && (forall id2 :: id2 in s.pending && id2 != id ==> s.pending[id2] != ino)
  }

  lemma OnJoin(handles: map<int, Handle>, id: int, x: Handle, k: int)
    requires id !in handles
    ensures On(handles[id := x], k) == if x.slot == k then On(handles, k) + {id} else On(handles, k)
    ensures |On(handles[id := x], k)| == |On(handles, k)| + if x.slot == k then 1 else 0
  {
    assert id !in On(handles, k);
    assert On(handles[id := x], k) == if x.slot == k then On(handles, k) + {id} else On(handles, k);
  }

  lemma JoinHandle(s: State, s': State, id: int, ino: Ino, k: int, g: int)
    requires Inv(s) && Join(s, s', id, ino, k) && g in s'.handles
    ensures HandleOk(s', g)
  {
    hide Inv, On, SlotOk;
    if g != id { ShowHandle(s, g); }
  }

  lemma JoinSlot(s: State, s': State, id: int, ino: Ino, k: int, j: int)
    requires Inv(s) && Join(s, s', id, ino, k) && 0 <= j < |s.slots|
    ensures SlotOk(s', j)
  {
    hide Inv, On, HandleOk;
    ShowSlot(s, j);
    OnJoin(s.handles, id, Handle(k, ino, s.disk[ino].gen, Held), j);
    if s.slots[j].ref > 0 {
      if s.slots[j].busy {
        var g :| g in s.handles && s.handles[g].slot == j && Exclusive(s.handles[g].doing);
        assert s'.handles[g] == s.handles[g];
      }
      if s.slots[j].valid {
        MemElsewhere(s, s', j);
        MemRef(s', s.slots[j], s'.slots[j], j);
      }
    }
  }

  lemma MemRef(s: State, p: Slot, p': Slot, k: int)
    requires MemOk(s, p, k) && p'.ino == p.ino && p'.mem == p.mem
    ensures MemOk(s, p', k)
  {}

  lemma JoinInv(s: State, s': State, id: int, ino: Ino, k: int)
    requires Inv(s) && Join(s, s', id, ino, k)
    ensures Inv(s')
  {
    forall g | g in s'.handles ensures HandleOk(s', g) { JoinHandle(s, s', id, ino, k, g); }
    forall j | 0 <= j < |s.slots| ensures SlotOk(s', j) { JoinSlot(s, s', id, ino, k, j); }
    hide On, MemOk, SlotOk, HandleOk;
    forall i, j | 0 <= i < |s.slots| && 0 <= j < |s.slots| && i != j ensures Apart(s', i, j) { ShowApart(s, i, j); }
    forall f, g | f in s'.handles && g in s'.handles && f != g ensures OneLock(s', f, g) {
      if f != id && g != id { ShowLock(s, f, g); }
    }
    forall ino | ino in s'.disk ensures DiskOk(s', ino) { ShowDisk(s, ino); }
    forall i | i in s'.pending ensures PendingOk(s', i) && i !in s'.handles { ShowPending(s, i); }
  }

  /** Where iget's slot is. */
  lemma IgetJoins(s: State, ino: Ino)
    requires Inv(s) && Where(s.slots, ino) < |s.slots|
    ensures var k := Where(s.slots, ino);
            if s.slots[k].ref > 0 then s.slots[k].ino == ino && Iget(s.slots, ino) == s.slots[k := s.slots[k].(ref := s.slots[k].ref + 1)]
            else
              && Iget(s.slots, ino) == s.slots[k := s.slots[k].(ino := ino, ref := 1, busy := false, valid := false)]
              && forall j :: 0 <= j < |s.slots| && s.slots[j].ref > 0 ==> s.slots[j].ino != ino
  {
    hide Inv;
    ShowSlot(s, Where(s.slots, ino));
  }

  lemma LookupInv(s: State, id: int, ino: Ino)
    requires Inv(s) && Enabled(s, Lookup(id, ino)) && Safe(s, ino)
    ensures Inv(Step(s, Lookup(id, ino)))
  {
    hide Inv, On, Iget, Where, SlotOk;
    IgetJoins(s, ino);
    var s' := Step(s, Lookup(id, ino));
    assert s.pending - {id} == s.pending;
    JoinInv(s, s', id, ino, Where(s.slots, ino));
  }

  /** A lookup keeps the invariant exactly when it is safe. */
  lemma LookupIff(s: State, id: int, ino: Ino)
    requires Inv(s) && Enabled(s, Lookup(id, ino))
    ensures Inv(Step(s, Lookup(id, ino))) <==> Safe(s, ino)
  {
    hide Inv, On, Iget, Where, SlotOk;
    var s' := Step(s, Lookup(id, ino));
    if Safe(s, ino) {
      LookupInv(s, id, ino);
    } else if Inv(s') {
      ShowHandle(s', id);
      forall h | h in s.handles && s.handles[h].ino == ino ensures s.handles[h].doing != Freeing {
        assert s'.handles[h] == s.handles[h];
        if s.handles[h].doing == Freeing {
          SameSlot(s', h, id);
          Alone(s', h, id);
        }
      }
      assert id in s'.handles && s'.handles[id].ino == ino && s'.handles[id].doing == Held;
      forall i | i in s.pending ensures s.pending[i] != ino {
        ShowPending(s', i);
      }
    }
  }

  /** An inode that a covered entry names is safe to look up. */
  lemma CountedSafe(s: State, ino: Ino)
    requires Inv(s) && ino in s.disk && At(s.entries, ino) > 0
    ensures Safe(s, ino)
  {
    hide Inv, On, SlotOk;
    ShowDisk(s, ino);
    forall g | g in s.handles && s.handles[g].ino == ino ensures s.handles[g].doing != Freeing { ShowHandle(s, g); }
    forall i | i in s.pending ensures s.pending[i] != ino { ShowPending(s, i); }
  }

  /** So is one that somebody has a handle to and is not freeing. */
  lemma HeldSafe(s: State, h: int)
    requires Inv(s) && h in s.handles && s.handles[h].doing != Freeing && s.handles[h].doing != Freed
    ensures Safe(s, s.handles[h].ino)
  {
    hide Inv, On;
    var ino := s.handles[h].ino;
    ShowHandle(s, h);
    forall g | g in s.handles && s.handles[g].ino == ino ensures s.handles[g].doing != Freeing {
      if g != h && s.handles[g].doing == Freeing {
        SameSlot(s, g, h);
        Alone(s, g, h);
      }
    }
    forall i | i in s.pending ensures s.pending[i] != ino { ShowPending(s, i); }
  }

  lemma GetInv(s: State, id: int)
    requires Inv(s) && Enabled(s, Get(id))
    ensures Inv(Step(s, Get(id)))
  {
    hide Inv, On, Iget, Where, SlotOk;
    var ino := s.pending[id];
    IgetJoins(s, ino);
    ShowPending(s, id);
    ShowDisk(s, ino);
    JoinInv(s, Step(s, Get(id)), id, ino, Where(s.slots, ino));
  }

  lemma DupInv(s: State, h: int, id: int)
    requires Inv(s) && Enabled(s, Dup(h, id))
    ensures Inv(Step(s, Dup(h, id)))
  {
    hide Inv, On;
    var ino := s.handles[h].ino;
    ShowHandle(s, h);
    ShowDisk(s, ino);
    var s' := Step(s, Dup(h, id));
    assert s.pending - {id} == s.pending;
    HeldSafe(s, h);
    JoinInv(s, s', id, ino, s.handles[h].slot);
  }

  /** Handle h goes; its slot becomes p. */
  ghost predicate Leave(s: State, s': State, h: int, p: Slot) {
    && h in s.handles && 0 <= s.handles[h].slot < |s.slots|
    && s' == s.(slots := s.slots[s.handles[h].slot := p], handles := s.handles - {h})
    && p.ino == SlotOf(s, h).ino && p.ref == SlotOf(s, h).ref - 1 && p.mem == SlotOf(s, h).mem
    && (if s.handles[h].doing == Freed then !p.busy && !p.valid
        else s.handles[h].doing == Held && p.busy == SlotOf(s, h).busy && p.valid == SlotOf(s, h).valid)
  }

  lemma OnLeave(handles: map<int, Handle>, h: int, k: int)
    requires h in handles
    ensures On(handles - {h}, k) == On(handles, k) - {h}
    ensures |On(handles - {h}, k)| == |On(handles, k)| - if handles[h].slot == k then 1 else 0
  {
    assert On(handles - {h}, k) == On(handles, k) - {h};
    if handles[h].slot == k { assert h in On(handles, k); } else { assert On(handles, k) - {h} == On(handles, k); }
  }

  lemma LeaveHandle(s: State, s': State, h: int, p: Slot, g: int)
    requires Inv(s) && Leave(s, s', h, p) && g in s'.handles
    ensures HandleOk(s', g)
  {
    hide Inv, On, SlotOk;
    ShowHandle(s, g);
    ShowHandle(s, h);
    ShowLock(s, g, h);
    if s.handles[g].doing == Freeing { Alone(s, g, h); }
  }

  lemma LeaveSlot(s: State, s': State, h: int, p: Slot, k: int)
    requires Inv(s) && Leave(s, s', h, p) && 0 <= k < |s.slots|
    ensures SlotOk(s', k)
  {
    hide Inv, On, HandleOk;
    ShowSlot(s, k);
    OnLeave(s.handles, h, k);
    if s'.slots[k].ref > 0 {
      if s'.slots[k].busy {
        var g :| g in s.handles && s.handles[g].slot == k && Exclusive(s.handles[g].doing);
        assert g in s'.handles && s'.handles[g] == s.handles[g];
      }
      if s'.slots[k].valid {
        MemElsewhere(s, s', k);
        MemRef(s', s.slots[k], s'.slots[k], k);
      }
    }
  }

  lemma LeaveInv(s: State, s': State, h: int, p: Slot)
    requires Inv(s) && Leave(s, s', h, p)
    ensures Inv(s')
  {
    forall g | g in s'.handles ensures HandleOk(s', g) { LeaveHandle(s, s', h, p, g); }
    forall j | 0 <= j < |s.slots| ensures SlotOk(s', j) { LeaveSlot(s, s', h, p, j); }
    hide On, MemOk, SlotOk, HandleOk;
    forall i, j | 0 <= i < |s.slots| && 0 <= j < |s.slots| && i != j ensures Apart(s', i, j) { ShowApart(s, i, j); }
    forall f, g | f in s'.handles && g in s'.handles && f != g ensures OneLock(s', f, g) { ShowLock(s, f, g); }
    forall ino | ino in s'.disk ensures DiskOk(s', ino) { ShowDisk(s, ino); }
    forall i | i in s'.pending ensures PendingOk(s', i) && i !in s'.handles { ShowPending(s, i); }
  }

  lemma PutInv(s: State, h: int)
    requires Inv(s) && Enabled(s, Put(h))
    ensures Inv(Step(s, Put(h)))
  {
    hide Inv, On;
    var p := SlotOf(s, h);
    if Unlinked(p) { PutFreeInv(s, h); } else { LeaveInv(s, Step(s, Put(h)), h, p.(ref := p.ref - 1)); }
  }

  lemma FinishInv(s: State, h: int)
    requires Inv(s) && Enabled(s, Finish(h))
    ensures Inv(Step(s, Finish(h)))
  {
    hide Inv, On;
    var p := SlotOf(s, h);
    LeaveInv(s, Step(s, Finish(h)), h, p.(busy := false, valid := false, ref := p.ref - 1));
  }

  lemma MarkInv(s: State, id: int, ino: Ino, typ: int)
    requires Inv(s) && Enabled(s, Mark(id, ino, typ))
    ensures Inv(Step(s, Mark(id, ino, typ)))
  {
    hide On, MemOk;
    var s' := Step(s, Mark(id, ino, typ));
    ShowDisk(s, ino);
    forall g | g in s'.handles ensures HandleOk(s', g) { ShowHandle(s, g); }
    forall k | 0 <= k < |s.slots| ensures SlotOk(s', k) { MarkSlot(s, id, ino, typ, k); }
    hide SlotOk, HandleOk;
    forall i, j | 0 <= i < |s.slots| && 0 <= j < |s.slots| && i != j ensures Apart(s', i, j) { ShowApart(s, i, j); }
    forall f, g | f in s'.handles && g in s'.handles && f != g ensures OneLock(s', f, g) { ShowLock(s, f, g); }
    forall o | o in s'.disk ensures DiskOk(s', o) { ShowDisk(s, o); }
    forall g | g in s.handles && s.handles[g].ino == ino ensures s.handles[g].doing == Freed { MarkFreed(s, ino, g); }
    forall i | i in s'.pending ensures PendingOk(s', i) && i !in s'.handles { if i != id { ShowPending(s, i); } }
  }

  lemma MarkFreed(s: State, ino: Ino, g: int)
    requires Inv(s) && ino in s.disk && s.disk[ino].typ == 0 && g in s.handles && s.handles[g].ino == ino
    ensures s.handles[g].doing == Freed
  {
    hide Inv, On, SlotOk;
    ShowHandle(s, g);
  }

  lemma MarkSlot(s: State, id: int, ino: Ino, typ: int, k: int)
    requires Inv(s) && Enabled(s, Mark(id, ino, typ)) && 0 <= k < |s.slots|
    ensures SlotOk(Step(s, Mark(id, ino, typ)), k)
  {
    hide Inv;
    ShowSlot(s, k);
    var s' := Step(s, Mark(id, ino, typ));
    var p := s.slots[k];
    if p.ref > 0 && p.valid {
      if p.ino == ino {
        var g := SomeOn(s.handles, k);
        ShowHandle(s, g);
        MarkFreed(s, ino, g);
      } else {
        MemElsewhere(s, s', k);
      }
    }
  }

  lemma SomeOn(handles: map<int, Handle>, k: int) returns (g: int)
    requires |On(handles, k)| > 0
    ensures g in handles && handles[g].slot == k
  {
    assert (forall h :: h !in On(handles, k)) ==> On(handles, k) == {};
    g :| g in On(handles, k);
  }

  lemma EntryInv(s: State, ino: Ino, n: nat, loose: map<Ino, nat>)
    requires Inv(s) && ino in s.entries && Covered(s, ino, n)
    ensures Inv(s.(entries := s.entries[ino := n], loose := loose))
  {
    hide On, MemOk;
    var s' := s.(entries := s.entries[ino := n], loose := loose);
    forall g | g in s'.handles ensures HandleOk(s', g) { ShowHandle(s, g); }
    forall k | 0 <= k < |s.slots| ensures SlotOk(s', k) { EntrySlot(s, ino, n, loose, k); }
    hide SlotOk, HandleOk;
    forall i, j | 0 <= i < |s.slots| && 0 <= j < |s.slots| && i != j ensures Apart(s', i, j) { ShowApart(s, i, j); }
    forall f, g | f in s'.handles && g in s'.handles && f != g ensures OneLock(s', f, g) { ShowLock(s, f, g); }
    forall o | o in s'.disk ensures DiskOk(s', o) { ShowDisk(s, o); }
    forall i | i in s'.pending ensures PendingOk(s', i) && i !in s'.handles { ShowPending(s, i); }
  }

  lemma EntrySlot(s: State, ino: Ino, n: nat, loose: map<Ino, nat>, k: int)
    requires Inv(s) && ino in s.entries && Covered(s, ino, n) && 0 <= k < |s.slots|
    ensures SlotOk(s.(entries := s.entries[ino := n], loose := loose), k)
  {
    hide Inv, On;
    ShowSlot(s, k);
  }

  lemma AddEntryInv(s: State, ino: Ino)
    requires Inv(s) && Enabled(s, AddEntry(ino))
    ensures Inv(Step(s, AddEntry(ino))) <==> Proper(s, AddEntry(ino))
  {
    hide Inv, On;
    var n := s.entries[ino] + 1;
    var s' := Step(s, AddEntry(ino));
    if Covered(s, ino, n) {
      EntryInv(s, ino, n, s.loose);
    } else if Inv(s') {
      if ino in s.disk { ShowDisk(s', ino); }
      forall k | 0 <= k < |s.slots| && s.slots[k].ref > 0 && s.slots[k].ino == ino && s.slots[k].valid
        ensures n <= s.slots[k].mem.nlink || exists h :: h in s.handles && s.handles[h].slot == k && s.handles[h].doing == Freed
      {
        ShowSlot(s', k);
      }
    }
  }

  lemma FewerInv(s: State, ino: Ino, loose: map<Ino, nat>)
    requires Inv(s) && ino in s.entries && s.entries[ino] > 0
    ensures Inv(s.(entries := s.entries[ino := s.entries[ino] - 1], loose := loose))
  {
    hide Inv, On;
    if ino in s.disk { ShowDisk(s, ino); }
    forall k | 0 <= k < |s.slots| && s.slots[k].ref > 0 && s.slots[k].ino == ino && s.slots[k].valid
      ensures s.entries[ino] - 1 <= s.slots[k].mem.nlink || exists h :: h in s.handles && s.handles[h].slot == k && s.handles[h].doing == Freed
    {
      ShowSlot(s, k);
    }
    EntryInv(s, ino, s.entries[ino] - 1, loose);
  }

  lemma LooseInv(s: State, loose: map<Ino, nat>)
    requires Inv(s)
    ensures Inv(s.(loose := loose))
  {
    hide On, MemOk;
    var s' := s.(loose := loose);
    forall g | g in s'.handles ensures HandleOk(s', g) { ShowHandle(s, g); }
    forall k | 0 <= k < |s.slots| ensures SlotOk(s', k) {
      ShowSlot(s, k);
      if s.slots[k].ref > 0 && s.slots[k].valid { MemElsewhere(s, s', k); }
    }
    hide SlotOk, HandleOk;
    forall i, j | 0 <= i < |s.slots| && 0 <= j < |s.slots| && i != j ensures Apart(s', i, j) { ShowApart(s, i, j); }
    forall f, g | f in s'.handles && g in s'.handles && f != g ensures OneLock(s', f, g) { ShowLock(s, f, g); }
    forall o | o in s'.disk ensures DiskOk(s', o) { ShowDisk(s, o); }
    forall i | i in s'.pending ensures PendingOk(s', i) && i !in s'.handles { ShowPending(s, i); }
  }

  lemma EntriesInv(s: State, e: Event)
    requires Inv(s) && Enabled(s, e) && (e.RemoveEntry? || e.AddDot? || e.Orphan? || e.Forget?)
    ensures Inv(Step(s, e))
  {
    hide Inv;
    match e
    case RemoveEntry(ino) => FewerInv(s, ino, s.loose);
    case AddDot(ino) => LooseInv(s, s.loose[ino := At(s.loose, ino) + 1]);
    case Orphan(ino) => FewerInv(s, ino, s.loose[ino := At(s.loose, ino) + 1]);
    case Forget(ino) => LooseInv(s, s.loose[ino := At(s.loose, ino) - 1]);
  }

  /** A step keeps the invariant exactly when it is proper. */
  lemma StepIff(s: State, e: Event)
    requires Inv(s) && Enabled(s, e)
    ensures Inv(Step(s, e)) <==> Proper(s, e)
  {
    hide Inv, Enabled, Step, Safe, Covered;
    match e
    case Lookup(id, ino) => LookupIff(s, id, ino);
    case Mark(id, ino, typ) => MarkInv(s, id, ino, typ);
    case Get(id) => GetInv(s, id);
    case Dup(h, id) => DupInv(s, h, id);
    case Lock(h) => LockInv(s, h);
    case Load(h) => LoadInv(s, h);
    case Unlock(h) => UnlockInv(s, h);
    case Modify(h, nlink) => ModifyInv(s, h, nlink);
    case Update(h) => UpdateInv(s, h);
    case AddEntry(ino) => AddEntryInv(s, ino);
    case RemoveEntry(ino) => EntriesInv(s, e);
    case AddDot(ino) => EntriesInv(s, e);
    case Orphan(ino) => EntriesInv(s, e);
    case Forget(ino) => EntriesInv(s, e);
    case Put(h) => PutInv(s, h);
    case Free(h) => FreeInv(s, h);
    case Finish(h) => FinishInv(s, h);
  }

  /** A cache of n free slots over a file system whose link counts cover its entries. */
  ghost predicate Boots(s: State) {
    && s.handles == map[] && s.pending == map[] && (forall k :: 0 <= k < |s.slots| ==> s.slots[k].ref == 0)
    && forall ino :: ino in s.disk ==> DiskOk(s, ino)
  }

  lemma BootInv(s: State)
    requires Boots(s)
    ensures Inv(s)
  {
    forall k | 0 <= k < |s.slots| ensures SlotOk(s, k) { assert On(s.handles, k) == {}; }
  }

  ghost predicate Possible(s: State, es: seq<Event>)
    decreases |es|, 0
  {
    es == [] || (Possible(s, es[..|es| - 1]) && Enabled(After(s, es[..|es| - 1]), es[|es| - 1]))
  }

  ghost function After(s: State, es: seq<Event>): State
    requires Possible(s, es)
    decreases |es|, 1
  {
    if es == [] then s else Step(After(s, es[..|es| - 1]), es[|es| - 1])
  }

  ghost predicate AllProper(s: State, es: seq<Event>)
    requires Possible(s, es)
    decreases |es|
  {
    es == [] || (AllProper(s, es[..|es| - 1]) && Proper(After(s, es[..|es| - 1]), es[|es| - 1]))
  }

  /** A run every step of which is proper. */
  ghost predicate ProperRun(s: State, es: seq<Event>) {
    Boots(s) && Possible(s, es) && AllProper(s, es)
  }

  lemma {:induction false} RunInv(s: State, es: seq<Event>)
    requires ProperRun(s, es)
    ensures Inv(After(s, es))
    decreases |es|
  {
    hide Inv, Enabled, Step, Boots, Proper;
    if es == [] {
      BootInv(s);
    } else {
      RunInv(s, es[..|es| - 1]);
      StepIff(After(s, es[..|es| - 1]), es[|es| - 1]);
    }
  }

  /** Conversely, the first improper step of any run breaks the invariant. */
  lemma FirstImproper(s: State, es: seq<Event>, e: Event)
    requires ProperRun(s, es) && Enabled(After(s, es), e)
    ensures Inv(Step(After(s, es), e)) <==> Proper(After(s, es), e)
  {
    hide Inv, Enabled, Step, Boots, Proper;
    RunInv(s, es);
    StepIff(After(s, es), e);
  }

  /** Entries are unique per inode, and a reference count is the number of handles. */
  lemma RunSlots(s: State, es: seq<Event>, j: int, k: int)
    requires ProperRun(s, es) && 0 <= j < |After(s, es).slots| && 0 <= k < |After(s, es).slots|
    ensures var t := After(s, es);
            && t.slots[j].ref == |On(t.handles, j)|
            && (j != k && t.slots[j].ref > 0 && t.slots[k].ref > 0 ==> t.slots[j].ino != t.slots[k].ino)
  {
    hide Enabled, Step, Boots, Proper;
    RunInv(s, es);
    hide Inv;
    ShowSlot(After(s, es), j);
    if j != k { ShowApart(After(s, es), j, k); }
  }

  /** Locks exclude, and whoever has an inode locked sees the inode the handle was made for:
      allocated, with the contents of its own generation. */
  lemma RunLocks(s: State, es: seq<Event>, g: int, h: int)
    requires ProperRun(s, es) && g in After(s, es).handles && h in After(s, es).handles && After(s, es).handles[h].doing == Locked
    ensures var t := After(s, es);
            && (g != h && t.handles[g].slot == t.handles[h].slot ==> t.handles[g].doing == Held)
            && 0 <= t.handles[h].slot < |t.slots| && SlotOf(t, h).valid && SlotOf(t, h).mem.typ != 0 && SlotOf(t, h).mem.gen == t.handles[h].gen
  {
    hide Enabled, Step, Boots, Proper;
    RunInv(s, es);
    hide Inv, On;
    var t := After(s, es);
    ShowHandle(t, h);
    NoneFreed(t, h);
  }

  /** A valid entry nobody is working on is the inode on disk. */
  lemma RunCoherent(s: State, es: seq<Event>, k: int)
    requires ProperRun(s, es) && 0 <= k < |After(s, es).slots|
    requires var p := After(s, es).slots[k]; p.ref > 0 && p.valid && !p.busy
    ensures var t := After(s, es); t.slots[k].ino in t.disk && t.slots[k].mem == t.disk[t.slots[k].ino]
  {
    hide Enabled, Step, Boots, Proper;
    RunInv(s, es);
    var t := After(s, es);
    ShowSlot(t, k);
    if h :| h in t.handles && t.handles[h].slot == k && Exclusive(t.handles[h].doing) {
      ShowHandle(t, h);
    }
  }

  /** When iput marks an inode free on disk, no handle to it is left but its own; a handle
      made while the entry is being discarded is for a later allocation. */
  lemma RunFrees(s: State, es: seq<Event>, g: int, h: int)
    requires ProperRun(s, es) && g in After(s, es).handles && h in After(s, es).handles && g != h
    requires var t := After(s, es); t.handles[g].ino == t.handles[h].ino
    ensures var t := After(s, es);
            && t.handles[h].doing != Freeing
            && (t.handles[h].doing == Freed ==> t.handles[g].doing == Held && t.handles[g].gen > t.handles[h].gen)
  {
    hide Enabled, Step, Boots, Proper;
    RunInv(s, es);
    hide Inv, On, SlotOk;
    var t := After(s, es);
    ShowHandle(t, g);
    ShowHandle(t, h);
    SameSlot(t, g, h);
    ShowLock(t, g, h);
    if t.handles[h].doing == Freeing { Alone(t, h, g); }
  }

  /** iput never finds the lock of the last reference taken. */
  lemma RunPut(s: State, es: seq<Event>, h: int)
    requires ProperRun(s, es) && Is(After(s, es), h, Held) && Unlinked(SlotOf(After(s, es), h))
    ensures !SlotOf(After(s, es), h).busy
  {
    hide Enabled, Step, Boots, Proper;
    RunInv(s, es);
    hide Inv;
    PutFreeInv(After(s, es), h);
  }
}
