/** What a lookup through ".." of a removed directory does: the run in which ilock finds an
    inode without a type, and the one in which iput's window is entered. */
module IcacheStale {
  import opened IcacheRuns

  /** Runs compose. */
  lemma {:induction false} Compose(s: State, es: seq<Event>, fs: seq<Event>)
    requires Possible(s, es) && Possible(After(s, es), fs)
    ensures Possible(s, es + fs) && After(s, es + fs) == After(After(s, es), fs)
    decreases |fs|
  {
    hide Enabled, Step;
    if fs == [] {
      assert es + fs == es;
    } else {
      var n := |fs| - 1;
      Compose(s, es, fs[..n]);
      assert (es + fs)[..|es + fs| - 1] == es + fs[..n] && (es + fs)[|es + fs| - 1] == fs[n];
    }
  }

  lemma One(s: State, e: Event)
    requires Enabled(s, e)
    ensures Possible(s, [e]) && After(s, [e]) == Step(s, e)
  {
    hide Enabled, Step;
    assert [e][..0] == [];
    assert Possible(s, []) && After(s, []) == s;
  }

  lemma Snoc(s: State, es: seq<Event>, e: Event)
    requires Possible(s, es) && Enabled(After(s, es), e)
    ensures Possible(s, es + [e]) && After(s, es + [e]) == Step(After(s, es), e)
  {
    hide Enabled, Step;
    One(After(s, es), e);
    Compose(s, es, [e]);
  }

  /** Nobody uses the cache, and inode a, of type t and generation g, has n links, all of them
      entered. */
  ghost predicate Idle(s: State, a: Ino, t: int, g: int, n: nat) {
    && |s.slots| > 0 && (forall k :: 0 <= k < |s.slots| ==> s.slots[k].ref == 0)
    && s.handles == map[] && s.pending == map[]
    && a in s.disk && s.disk[a] == Dinode(t, n, g) && a in s.entries && s.entries[a] == n
  }

  /** The cache and the inode, when slot 0 is p, the inode d, with n entries and the handles hs. */
  function With(s: State, a: Ino, p: Slot, hs: map<int, Handle>, d: Dinode, n: nat, loose: map<Ino, nat>): State
    requires |s.slots| > 0
  {
    State(s.slots[0 := p], s.disk[a := d], s.entries[a := n], loose, hs, s.pending)
  }

  lemma IdleWhere(s: State, a: Ino, t: int, g: int, n: nat)
    requires Idle(s, a, t, g, n)
    ensures Where(s.slots, a) == 0 && Find(s.slots, a, 0) == |s.slots|
  {}

  /** iget, ilock and the read of the inode, by the first user of the cache. */
  lemma Open(s: State, a: Ino, t: int, g: int, n: nat, id: int) returns (es: seq<Event>)
    requires Idle(s, a, t, g, n) && (n > 0 || At(s.loose, a) > 0)
    ensures es == [Lookup(id, a), Lock(id)] && Possible(s, es)
    ensures After(s, es) == With(s, a, Slot(a, 1, true, false, s.slots[0].mem), map[id := Handle(0, a, g, Locking)], Dinode(t, n, g), n, s.loose)
  {
    IdleWhere(s, a, t, g, n);
    hide Where, Find;
    One(s, Lookup(id, a));
    Snoc(s, [Lookup(id, a)], Lock(id));
    es := [Lookup(id, a), Lock(id)];
    assert es == [Lookup(id, a)] + [Lock(id)];
    assert s.disk[a := Dinode(t, n, g)] == s.disk && s.entries[a := n] == s.entries;
  }

  /** unlink in directory a, or of it: the inode is locked and read, an entry of it goes, its
      count follows, on disk too, and it is unlocked. */
  lemma Uncount(s: State, a: Ino, t: int, g: int, n: nat, id: int, e: Event) returns (es: seq<Event>)
    requires Idle(s, a, t, g, n) && n > 0 && (e == Orphan(a) || e == RemoveEntry(a))
    ensures es == [Lookup(id, a), Lock(id), Load(id), e, Modify(id, n - 1), Update(id), Unlock(id)] && Possible(s, es)
    ensures After(s, es) == With(s, a, Slot(a, 1, false, true, Dinode(t, n - 1, g)), map[id := Handle(0, a, g, Held)], Dinode(t, n - 1, g), n - 1,
                                 if e.Orphan? then s.loose[a := At(s.loose, a) + 1] else s.loose)
  {
    hide Enabled, Step, Possible, After, Where, Find;
    es := Open(s, a, t, g, n, id);
    var s1 := After(s, es);
    var fs := Rewrite(s1, a, t, g, n, id, e);
    Compose(s, es, fs);
    es := es + fs;
    RewriteIs(s, s1, a, Slot(a, 1, false, true, Dinode(t, n - 1, g)), Dinode(t, n - 1, g), n - 1);
  }

  lemma RewriteIs(s: State, s1: State, a: Ino, p: Slot, d: Dinode, n: nat)
    requires |s.slots| > 0 && |s1.slots| == |s.slots| && s1.slots == s.slots[0 := s1.slots[0]] && s1.pending == s.pending
    requires a in s1.disk && s1.disk == s.disk[a := s1.disk[a]] && a in s1.entries && s1.entries == s.entries[a := s1.entries[a]]
    ensures forall hs, loose :: With(s1, a, p, hs, d, n, loose) == With(s, a, p, hs, d, n, loose)
  {
    assert s1.slots[0 := p] == s.slots[0 := p];
    assert s1.disk[a := d] == s.disk[a := d];
    assert s1.entries[a := n] == s.entries[a := n];
  }

  ghost predicate Opened(s: State, a: Ino, t: int, g: int, n: nat, id: int) {
    && |s.slots| > 0 && s.slots[0].ino == a && s.slots[0].ref == 1 && s.slots[0].busy && !s.slots[0].valid
    && s.handles == map[id := Handle(0, a, g, Locking)]
    && a in s.disk && s.disk[a] == Dinode(t, n, g) && a in s.entries && s.entries[a] == n
  }

  lemma LoadStep(s: State, a: Ino, t: int, g: int, n: nat, id: int)
    requires Opened(s, a, t, g, n, id)
    ensures Enabled(s, Load(id))
    ensures Step(s, Load(id)) == With(s, a, Slot(a, 1, true, true, Dinode(t, n, g)), map[id := Handle(0, a, g, Locked)], Dinode(t, n, g), n, s.loose)
  {
    assert s.disk[a := Dinode(t, n, g)] == s.disk && s.entries[a := n] == s.entries;
  }

  /** The holder of the lock changes the count, writes it back and unlocks. */
  lemma ModifyStep(s: State, a: Ino, t: int, g: int, d: Dinode, n: nat, m: nat, id: int, loose: map<Ino, nat>)
    requires |s.slots| > 0
    ensures var s1 := With(s, a, Slot(a, 1, true, true, Dinode(t, n, g)), map[id := Handle(0, a, g, Locked)], d, m, loose);
            && Enabled(s1, Modify(id, m))
            && Step(s1, Modify(id, m)) == With(s, a, Slot(a, 1, true, true, Dinode(t, m, g)), map[id := Handle(0, a, g, Locked)], d, m, loose)
  {}

  lemma UpdateStep(s: State, a: Ino, g: int, q: Dinode, d: Dinode, m: nat, id: int, loose: map<Ino, nat>)
    requires |s.slots| > 0
    ensures var s1 := With(s, a, Slot(a, 1, true, true, q), map[id := Handle(0, a, g, Locked)], d, m, loose);
            && Enabled(s1, Update(id))
            && Step(s1, Update(id)) == With(s, a, Slot(a, 1, true, true, q), map[id := Handle(0, a, g, Locked)], q, m, loose)
  {}

  lemma UnlockStep(s: State, a: Ino, g: int, q: Dinode, m: nat, id: int, loose: map<Ino, nat>)
    requires |s.slots| > 0
    ensures var s1 := With(s, a, Slot(a, 1, true, true, q), map[id := Handle(0, a, g, Locked)], q, m, loose);
            && Enabled(s1, Unlock(id))
            && Step(s1, Unlock(id)) == With(s, a, Slot(a, 1, false, true, q), map[id := Handle(0, a, g, Held)], q, m, loose)
  {}

  lemma Rewrite(s: State, a: Ino, t: int, g: int, n: nat, id: int, e: Event) returns (es: seq<Event>)
    requires Opened(s, a, t, g, n, id) && n > 0 && (e == Orphan(a) || e == RemoveEntry(a))
    ensures es == [Load(id), e, Modify(id, n - 1), Update(id), Unlock(id)] && Possible(s, es)
    ensures After(s, es) == With(s, a, Slot(a, 1, false, true, Dinode(t, n - 1, g)), map[id := Handle(0, a, g, Held)], Dinode(t, n - 1, g), n - 1,
                                 if e.Orphan? then s.loose[a := At(s.loose, a) + 1] else s.loose)
  {
    hide Enabled, Step, With, Possible, After;
    var loose := if e.Orphan? then s.loose[a := At(s.loose, a) + 1] else s.loose;
    var was, now := Dinode(t, n, g), Dinode(t, n - 1, g);
    LoadStep(s, a, t, g, n, id);
    EntryStep(s, a, Slot(a, 1, true, true, Dinode(t, n, g)), map[id := Handle(0, a, g, Locked)], Dinode(t, n, g), n, s.loose, e);
    ModifyStep(s, a, t, g, was, n, n - 1, id, loose);
    UpdateStep(s, a, g, now, was, n - 1, id, loose);
    UnlockStep(s, a, g, now, n - 1, id, loose);
    One(s, Load(id));
    Snoc(s, [Load(id)], e);
    Snoc(s, [Load(id)] + [e], Modify(id, n - 1));
    Snoc(s, [Load(id)] + [e] + [Modify(id, n - 1)], Update(id));
    Snoc(s, [Load(id)] + [e] + [Modify(id, n - 1)] + [Update(id)], Unlock(id));
    es := [Load(id)] + [e] + [Modify(id, n - 1)] + [Update(id)] + [Unlock(id)];
  }

  lemma EntryStep(s: State, a: Ino, p: Slot, hs: map<int, Handle>, d: Dinode, n: nat, loose: map<Ino, nat>, e: Event)
    requires |s.slots| > 0 && n > 0 && (e == Orphan(a) || e == RemoveEntry(a))
    ensures var s1 := With(s, a, p, hs, d, n, loose);
            Enabled(s1, e) && Step(s1, e) == With(s, a, p, hs, d, n - 1, if e.Orphan? then loose[a := At(loose, a) + 1] else loose)
  {
    assert s.entries[a := n][a := n - 1] == s.entries[a := n - 1];
  }

  /** unlink("a/b") with a process in a/b: the entry ".." of b stays and no longer counts. */
  lemma UnlinkChild(s: State, a: Ino, t: int, g: int) returns (es: seq<Event>)
    requires Idle(s, a, t, g, 2)
    ensures Possible(s, es) && Idle(After(s, es), a, t, g, 1) && At(After(s, es).loose, a) > 0
  {
    es := Uncount(s, a, t, g, 2, 1, Orphan(a));
    var s1 := After(s, es);
    Snoc(s, es, Put(1));
    es := es + [Put(1)];
    assert s1.handles - {1} == map[];
  }

  /** Then unlink("a"), up to iput's window: nobody holds a any more. */
  lemma UnlinkParent(s: State, a: Ino, t: int, g: int) returns (es: seq<Event>)
    requires Idle(s, a, t, g, 1)
    ensures Possible(s, es)
    ensures After(s, es) == With(s, a, Slot(a, 1, true, true, Dinode(t, 0, g)), map[2 := Handle(0, a, g, Freeing)], Dinode(t, 0, g), 0, s.loose)
  {
    es := Uncount(s, a, t, g, 1, 2, RemoveEntry(a));
    var s1 := After(s, es);
    Snoc(s, es, Put(2));
    es := es + [Put(2)];
    assert s1.slots[0 := Slot(a, 1, true, true, Dinode(t, 0, g))] == s.slots[0 := Slot(a, 1, true, true, Dinode(t, 0, g))];
  }

  /** The two calls, one after the other. */
  lemma Removed(s: State, a: Ino, t: int, g: int) returns (es: seq<Event>, s1: State)
    requires Idle(s, a, t, g, 2)
    ensures Possible(s, es) && Idle(s1, a, t, g, 1) && At(s1.loose, a) > 0
    ensures After(s, es) == With(s1, a, Slot(a, 1, true, true, Dinode(t, 0, g)), map[2 := Handle(0, a, g, Freeing)], Dinode(t, 0, g), 0, s1.loose)
  {
    hide Idle, Possible, After;
    var es1 := UnlinkChild(s, a, t, g);
    s1 := After(s, es1);
    var es2 := UnlinkParent(s1, a, t, g);
    Compose(s, es1, es2);
    es := es1 + es2;
  }

  /** chdir("..") from the removed child, after the parent is freed: the read of ilock finds no
      type.  (The state at the start is any with nobody in the cache and a parent of two links.) */
  lemma StaleLookupPanics(s: State, a: Ino, t: int, g: int) returns (es: seq<Event>)
    requires Idle(s, a, t, g, 2)
    ensures Possible(s, es) && Enabled(After(s, es), Load(3))
    ensures var t := After(s, es); !SlotOf(t, 3).valid && t.handles[3].ino == a && a in t.disk && t.disk[a].typ == 0
  {
    var es1, s1 := Removed(s, a, t, g);
    var w := After(s, es1);
    var w1, w2 := FreeSteps(s1, a, t, g, w);
    hide Possible, After, Enabled, Step, Idle;
    Snoc(s, es1, Free(2));
    Snoc(s, es1 + [Free(2)], Finish(2));
    var es2 := Open(w2, a, 0, g, 0, 3);
    Compose(s, es1 + [Free(2)] + [Finish(2)], es2);
    es := es1 + [Free(2)] + [Finish(2)] + es2;
    LoadFinds(w2, a, g, After(s, es));
  }

  lemma LoadFinds(s: State, a: Ino, g: int, t: State)
    requires |s.slots| > 0 && t == With(s, a, Slot(a, 1, true, false, s.slots[0].mem), map[3 := Handle(0, a, g, Locking)], Dinode(0, 0, g), 0, s.loose)
    ensures Enabled(t, Load(3)) && !SlotOf(t, 3).valid && t.handles[3].ino == a && a in t.disk && t.disk[a].typ == 0
  {}

  lemma FreeSteps(s: State, a: Ino, t: int, g: int, w: State) returns (w1: State, w2: State)
    requires Idle(s, a, t, g, 1)
    requires w == With(s, a, Slot(a, 1, true, true, Dinode(t, 0, g)), map[2 := Handle(0, a, g, Freeing)], Dinode(t, 0, g), 0, s.loose)
    ensures Enabled(w, Free(2)) && w1 == Step(w, Free(2)) && Enabled(w1, Finish(2)) && w2 == Step(w1, Finish(2))
    ensures Idle(w2, a, 0, g, 0) && w2.loose == s.loose
  {
    w1 := Step(w, Free(2));
    assert w1.handles == map[2 := Handle(0, a, g, Freed)];
    w2 := Step(w1, Finish(2));
    assert w2.handles == map[];
  }

  /** The same lookup inside iput's window: a second handle to the inode being freed. */
  lemma StaleLookupShares(s: State, a: Ino, t: int, g: int) returns (es: seq<Event>)
    requires Idle(s, a, t, g, 2)
    ensures Possible(s, es)
    ensures var t := After(s, es); Is(t, 2, Freeing) && Is(t, 3, Held) && t.handles[2].ino == t.handles[3].ino == a
  {
    var es1, s1 := Removed(s, a, t, g);
    var w := After(s, es1);
    hide Possible, After;
    assert w.slots[0].ref > 0 && w.slots[0].ino == a;
    assert Find(w.slots, a, 0) == 0;
    Snoc(s, es1, Lookup(3, a));
    es := es1 + [Lookup(3, a)];
  }
}
