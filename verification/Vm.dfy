/** vm.c: walkpgdir, mappages, deallocuvm and freevm, in place on the pages of physical memory. */
module Vm {
  import opened Kalloc
  import opened Paging

  ghost function SetOf(s: seq<int>): set<int> {
    set x | x in s
  }

  /** walkpgdir: the table page for virtual page v, or 0. */
  method Walkpgdir(m: Memory, ghost sp: Space, pgdir: int, v: int, alloc: bool) returns (t: int, ghost sp': Space)
    requires m.Valid() && Sound(m.mem, m.free, sp) && pgdir == sp.dir && 0 <= v < NPAGES
    modifies m
    ensures m.Valid() && Sound(m.mem, m.free, sp') && m.mem.Keys == old(m.mem).Keys
    ensures if v / NPTENTRIES in sp.tables then t == sp.tables[v / NPTENTRIES] && sp' == sp && m.mem == old(m.mem) && m.free == old(m.free)
            else if alloc && old(m.free) != [] then
              && sp' == sp.(tables := sp.tables[v / NPTENTRIES := t]) && old(m.free) == [t] + m.free && t != 0
              && Skeleton(sp') == Skeleton(sp) + {t}
              && forall x :: x in m.mem && x !in Skeleton(sp') ==> m.mem[x] == old(m.mem)[x]
            else t == 0 && sp' == sp && m.mem == old(m.mem) && m.free == old(m.free)
  {
    hide Present, Skeleton;
    VpnIs(v);
    var i := v / NPTENTRIES;
    sp' := sp;
    PdeIs(sp, i);
    DirIn(sp);
    var pde := m.mem[pgdir][i];
    if Present(pde) {
      t := Ppn(pde);
      return;
    }
    if !alloc {
      return 0, sp;
    }
    t := m.Alloc();
    if t == 0 {
      return;
    }
    NewTable(m.mem, sp, i, t);
    ghost var mem0, fl := m.mem, m.freelist;
    m.mem := m.mem[t := Filled(0)];
    m.mem := m.mem[pgdir := m.mem[pgdir][i := t * PGSIZE + 7]];
    sp' := sp.(tables := sp.tables[i := t]);
    ChainFrame(mem0, m.mem, fl, m.free);
  }

  /** One iteration of mappages. */
  method MapOne(m: Memory, ghost sp: Space, pgdir: int, v: int, ppn: int, perm: int) returns (r: int, panic: bool, ghost sp': Space)
    requires m.Valid() && Sound(m.mem, m.free, sp) && pgdir == sp.dir && 0 <= v < NPAGES && 0 <= perm < PGSIZE
    modifies m
    ensures m.Valid() && m.mem.Keys == old(m.mem).Keys
    ensures panic <==> v in sp.leaves
    ensures panic || r == -1 ==> sp' == sp && m.mem == old(m.mem) && m.free == old(m.free)
    ensures !panic ==> r == if v / NPTENTRIES !in sp.tables && old(m.free) == [] then -1 else 0
    ensures !panic ==> Sound(m.mem, m.free, sp')
    ensures !panic && r == 0 ==> Adds(sp, sp', v, Entry(ppn, perm)) && Took(old(m.free), m.free, sp, sp')
    ensures forall x :: x in m.mem && x !in Skeleton(sp') ==> m.mem[x] == old(m.mem)[x]
  {
    hide Present, Skeleton, Entry, Rep, Took;
    var t;
    t, sp' := Walkpgdir(m, sp, pgdir, v, true);
    ghost var sp1 := sp';
    RepLeaves(old(m.mem), sp);
    if t == 0 {
      return -1, false, sp;
    }
    VpnIs(v);
    DirIn(sp');
    PteIs(m.mem, sp', v);
    if m.mem[t][v % NPTENTRIES] != 0 {
      return 0, true, sp;
    }
    var e := Entry(ppn, perm);
    SetEntry(m.mem, sp', v, e);
    ghost var mem0, fl := m.mem, m.freelist;
    m.mem := m.mem[t := m.mem[t][v % NPTENTRIES := e]];
    ChainFrame(mem0, m.mem, fl, m.free);
    SameSkeleton(sp', sp'.(leaves := sp'.leaves[v := e]));
    sp' := sp'.(leaves := sp'.leaves[v := e]);
    TookTable(old(m.free), m.free, sp, sp1, sp', v / NPTENTRIES, t);
    return 0, false, sp';
  }

  /** Virtual page v gets an entry, in a table that is there or new. */
  ghost predicate Adds(sp: Space, sp': Space, v: int, e: int) {
    && sp'.dir == sp.dir && sp'.leaves == sp.leaves[v := e]
    && (if v / NPTENTRIES in sp.tables then sp'.tables == sp.tables
        else v / NPTENTRIES in sp'.tables && sp'.tables == sp.tables[v / NPTENTRIES := sp'.tables[v / NPTENTRIES]])
  }

  /** The new tables of sp' were the first free pages. */
  ghost predicate Took(free: seq<int>, free': seq<int>, sp: Space, sp': Space) {
    && |free'| <= |free| && free' == free[|free| - |free'|..] && Skeleton(sp') == Skeleton(sp) + SetOf(free[..|free| - |free'|])
    && |free| - |free'| == |sp'.tables| - |sp.tables|
  }

  /** One table more, or none. */
  lemma TookTable(free: seq<int>, free': seq<int>, sp: Space, sp1: Space, sp': Space, i: int, t: int)
    requires sp'.tables == sp1.tables && Skeleton(sp') == Skeleton(sp1)
    requires if i in sp.tables then sp1 == sp && free' == free
             else sp1 == sp.(tables := sp.tables[i := t]) && free == [t] + free' && Skeleton(sp1) == Skeleton(sp) + {t}
    ensures Took(free, free', sp, sp')
  {
    hide Skeleton, SetOf;
    if i in sp.tables {
      Slices(free, 0, []);
      assert Skeleton(sp) + {} == Skeleton(sp);
    } else {
      Slices(free', t, [t]);
      OneMoreTable(sp.tables, i, t);
    }
  }

  lemma Slices(f: seq<int>, t: int, head: seq<int>)
    requires head == [] || head == [t]
    ensures (head + f)[|head|..] == f && (head + f)[..|head|] == head && SetOf(head) == (if head == [] then {} else {t}) && [] + f == f
  {}

  lemma OneMoreTable(tables: map<int, int>, i: int, t: int)
    requires i !in tables
    ensures |tables[i := t]| == |tables| + 1
  {
    assert tables[i := t].Keys == tables.Keys + {i};
  }

  /** Virtual pages a to b - 1 were unmapped and get successive physical pages. */
  ghost predicate Extends(sp: Space, sp': Space, a: int, b: int, ppn: int, perm: int)
    requires 0 <= perm < PGSIZE
  {
    && sp'.dir == sp.dir
    && (forall v :: v in sp'.leaves <==> v in sp.leaves || a <= v < b)
    && (forall v :: v in sp.leaves ==> v in sp'.leaves && sp'.leaves[v] == sp.leaves[v])
    && (forall v :: a <= v < b ==> v !in sp.leaves && v in sp'.leaves && sp'.leaves[v] == Entry(ppn + v - a, perm))
    && (forall i :: i in sp.tables ==> i in sp'.tables && sp'.tables[i] == sp.tables[i])
    && (forall i :: i in sp'.tables ==> i in sp.tables || exists v :: a <= v < b && v / NPTENTRIES == i)
  }

  lemma ExtendsNone(sp: Space, a: int, ppn: int, perm: int, free: seq<int>)
    requires 0 <= perm < PGSIZE
    ensures Extends(sp, sp, a, a, ppn, perm) && Took(free, free, sp, sp)
  {
    assert free[..0] == [] && SetOf(free[..0]) == {};
  }

  lemma ExtendsMore(sp: Space, sp1: Space, sp2: Space, a: int, b: int, ppn: int, perm: int)
    requires a <= b && 0 <= perm < PGSIZE && Extends(sp, sp1, a, b, ppn, perm) && b !in sp1.leaves && Adds(sp1, sp2, b, Entry(ppn + b - a, perm))
    ensures Extends(sp, sp2, a, b + 1, ppn, perm)
  {
    hide Entry;
    forall i | i in sp2.tables ensures i in sp.tables || exists v :: a <= v < b + 1 && v / NPTENTRIES == i {
      if i in sp1.tables && i !in sp.tables {
        var v :| a <= v < b && v / NPTENTRIES == i;
        assert a <= v < b + 1;
      } else if i !in sp.tables {
        assert a <= b < b + 1 && b / NPTENTRIES == i;
      }
    }
  }

  lemma TookMore(f0: seq<int>, f1: seq<int>, f2: seq<int>, sp: Space, sp1: Space, sp2: Space)
    requires Took(f0, f1, sp, sp1) && Took(f1, f2, sp1, sp2)
    ensures Took(f0, f2, sp, sp2)
  {
    hide Skeleton;
    var c1, c2 := |f0| - |f1|, |f1| - |f2|;
    assert f1[..c2] == f0[c1..c1 + c2];
    assert f0[..c1 + c2] == f0[..c1] + f0[c1..c1 + c2];
    assert SetOf(f0[..c1 + c2]) == SetOf(f0[..c1]) + SetOf(f1[..c2]);
  }

  /** mappages: entries for the pages that touch size bytes from va on, starting at physical
      page ppn; -1 when a table cannot be allocated.  panic: a page was mapped already. */
  method Mappages(m: Memory, ghost sp: Space, pgdir: int, va: nat, size: nat, ppn: int, perm: int)
    returns (r: int, panic: bool, ghost sp': Space)
    requires m.Valid() && Sound(m.mem, m.free, sp) && pgdir == sp.dir && 0 < size && va + size <= NPAGES * PGSIZE && 0 <= perm < PGSIZE
    modifies m
    ensures m.Valid() && m.mem.Keys == old(m.mem).Keys && (panic || r == 0 || r == -1)
    ensures panic ==> exists v :: va / PGSIZE <= v <= (va + size - 1) / PGSIZE && v in sp.leaves
    ensures !panic ==> Sound(m.mem, m.free, sp') && Took(old(m.free), m.free, sp, sp')
    ensures !panic && r == 0 ==> Extends(sp, sp', va / PGSIZE, (va + size - 1) / PGSIZE + 1, ppn, perm)
    ensures !panic && r == -1 ==>
              exists b :: va / PGSIZE <= b <= (va + size - 1) / PGSIZE && Extends(sp, sp', va / PGSIZE, b, ppn, perm) &&
                          b / NPTENTRIES !in sp'.tables && m.free == []
    ensures forall x :: x in m.mem && x !in Skeleton(sp') ==> m.mem[x] == old(m.mem)[x]
  {
    hide Sound, Adds, Took, Extends, Skeleton, Entry;
    var a := va / PGSIZE;
    var last := (va + size - 1) / PGSIZE;
    ghost var a0 := a;
    var pa := ppn;
    sp' := sp;
    ExtendsNone(sp, a, ppn, perm, m.free);
    while true
      invariant a0 <= a <= last && pa == ppn + a - a0 && m.Valid() && m.mem.Keys == old(m.mem).Keys
      invariant Sound(m.mem, m.free, sp') && sp'.dir == pgdir
      invariant Extends(sp, sp', a0, a, ppn, perm) && Took(old(m.free), m.free, sp, sp')
      invariant forall x :: x in m.mem && x !in Skeleton(sp') ==> m.mem[x] == old(m.mem)[x]
      decreases last - a
    {
      ghost var sp1, f1 := sp', m.free;
      r, panic, sp' := MapOne(m, sp', pgdir, a, pa, perm);
      if panic {
        ExtendsAt(sp, sp1, a0, a, ppn, perm);
        return;
      }
      if r < 0 {
        return;
      }
      AddsDir(sp1, sp', a, Entry(pa, perm));
      ExtendsMore(sp, sp1, sp', a0, a, ppn, perm);
      TookGrows(f1, m.free, sp1, sp');
      TookMore(old(m.free), f1, m.free, sp, sp1, sp');
      if a == last {
        break;
      }
      a := a + 1;
      pa := pa + 1;
    }
  }

  lemma ExtendsAt(sp: Space, sp': Space, a: int, b: int, ppn: int, perm: int)
    requires 0 <= perm < PGSIZE && Extends(sp, sp', a, b, ppn, perm)
    ensures b in sp'.leaves ==> b in sp.leaves
  {}

  lemma AddsDir(sp: Space, sp': Space, v: int, e: int)
    requires Adds(sp, sp', v, e)
    ensures sp'.dir == sp.dir
  {}

  lemma TookGrows(free: seq<int>, free': seq<int>, sp: Space, sp': Space)
    requires Took(free, free', sp, sp')
    ensures Skeleton(sp) <= Skeleton(sp')
  {
    hide Skeleton;
  }

  lemma RepLeaves(mem: map<int, Page>, sp: Space)
    requires Rep(mem, sp)
    ensures forall v :: v in sp.leaves ==> 0 <= v < NPAGES && v / NPTENTRIES in sp.tables && Present(sp.leaves[v])
  {}

  lemma PteIs(mem: map<int, Page>, sp: Space, v: int)
    requires Rep(mem, sp) && 0 <= v < NPAGES && v / NPTENTRIES in sp.tables
    ensures var t := sp.tables[v / NPTENTRIES]; t in mem && mem[t][v % NPTENTRIES] == LeafWord(sp, v)
    ensures LeafWord(sp, v) != 0 <==> v in sp.leaves
    ensures Present(LeafWord(sp, v)) <==> v in sp.leaves
  {
    VpnIs(v);
  }

  lemma SameSkeleton(sp: Space, sp': Space)
    requires sp'.dir == sp.dir && sp'.tables == sp.tables
    ensures Skeleton(sp') == Skeleton(sp) && (Apart(sp) ==> Apart(sp'))
  {}

  lemma PdeIs(sp: Space, i: int)
    ensures Present(DirWord(sp, i)) <==> i in sp.tables
    ensures i in sp.tables ==> Ppn(DirWord(sp, i)) == sp.tables[i]
  {
    if i in sp.tables { OddWord(sp.tables[i]); }
  }

  lemma OddWord(p: int)
    ensures (p * PGSIZE + 7) % 2 == 1 && (p * PGSIZE + 7) / PGSIZE == p
  {
    assert p * PGSIZE + 7 == 2 * (2048 * p + 3) + 1;
  }

  lemma DirIn(sp: Space)
    ensures sp.dir in Skeleton(sp) && forall i :: i in sp.tables ==> sp.tables[i] in Skeleton(sp)
  {}

  /** The page of address n, or the next one. */
  function RoundUp(n: int): int {
    (n + PGSIZE - 1) / PGSIZE
  }

  /** deallocuvm from page lo on misses page v: it starts inside a region of 1024 pages that
      has no table and jumps ahead by 1024 pages, over the beginning of v's region. */
  ghost predicate Skipped(sp: Space, lo: int, v: int) {
    && v / NPTENTRIES > lo / NPTENTRIES && v % NPTENTRIES < lo % NPTENTRIES
    && forall i :: lo / NPTENTRIES <= i < v / NPTENTRIES ==> i !in sp.tables
  }

  /** deallocuvm's loop at page a: still jumping, or past the danger. */
  ghost predicate Scan(sp: Space, lo: int, a: int) {
    || (a % NPTENTRIES == lo % NPTENTRIES && forall i :: lo / NPTENTRIES <= i < a / NPTENTRIES ==> i !in sp.tables)
    || ((a % NPTENTRIES == 0 || a / NPTENTRIES in sp.tables) && forall v :: v >= a ==> !Skipped(sp, lo, v))
  }

  lemma ScanOne(sp: Space, lo: int, a: int)
    requires 0 <= lo <= a && Scan(sp, lo, a) && a / NPTENTRIES in sp.tables
    ensures !Skipped(sp, lo, a) && Scan(sp, lo, a + 1)
  {
    forall v | v >= a + 1 ensures !Skipped(sp, lo, v) {}
  }

  lemma ScanJump(sp: Space, lo: int, a: int)
    requires 0 <= lo <= a && Scan(sp, lo, a) && a / NPTENTRIES !in sp.tables
    ensures Scan(sp, lo, a + NPTENTRIES)
    ensures forall v :: a <= v < a + NPTENTRIES && v / NPTENTRIES in sp.tables ==> Skipped(sp, lo, v)
  {
    forall v | a <= v < a + NPTENTRIES && v / NPTENTRIES in sp.tables ensures Skipped(sp, lo, v) {
      assert v / NPTENTRIES == a / NPTENTRIES + 1;
    }
    assert (a + NPTENTRIES) / NPTENTRIES == a / NPTENTRIES + 1 && (a + NPTENTRIES) % NPTENTRIES == a % NPTENTRIES;
  }

  /** The pages from lo to below a are gone, but for the skipped ones; no page from hi on is. */
  ghost predicate Unmapped(sp: Space, sp': Space, lo: int, a: int, hi: int) {
    && sp'.dir == sp.dir && sp'.tables == sp.tables
    && (forall v :: v in sp'.leaves <==> v in sp.leaves && !(lo <= v < a && !Skipped(sp, lo, v)))
    && (forall v :: v in sp'.leaves ==> sp'.leaves[v] == sp.leaves[v])
    && (forall v :: v in sp.leaves && v !in sp'.leaves ==> v < hi)
  }

  /** Pages kept and pages freed make up what there was. */
  ghost predicate Kept(free: seq<int>, sp: Space, free': seq<int>, sp': Space) {
    SetOf(free') + Mapped(sp') == SetOf(free) + Mapped(sp)
  }

  /** The body of deallocuvm's loop for a page that is mapped. */
  method Unmap(m: Memory, ghost sp: Space, t: int, v: int) returns (panic: bool, ghost sp': Space)
    requires m.Valid() && Whole(m.mem, m.free, sp) && v in sp.leaves && v < KPAGE && v / NPTENTRIES in sp.tables && t == sp.tables[v / NPTENTRIES]
    modifies m
    ensures !panic && m.Valid() && Whole(m.mem, m.free, sp') && m.mem.Keys == old(m.mem).Keys
    ensures sp' == sp.(leaves := sp.leaves - {v}) && Kept(old(m.free), sp, m.free, sp') && forall x :: x in old(m.free) ==> x in m.free
    ensures forall x :: x in m.mem && x !in Skeleton(sp) && x !in m.free ==> m.mem[x] == old(m.mem)[x]
  {
    hide Present, Rep, Private, Skeleton, Mapped, Ppn, Kept;
    RepLeaves(m.mem, sp);
    PteIs(m.mem, sp, v);
    var pa := Ppn(m.mem[t][v % NPTENTRIES]);
    LeafPage(m.mem, sp, v);
    if pa == 0 {
      return true, sp;
    }
    ghost var mem0 := m.mem;
    var ok := m.Release(pa);
    RepFrame(mem0, m.mem, sp);
    ghost var mem1, fl, free1 := m.mem, m.freelist, m.free;
    ClearEntry(m.mem, sp, v);
    m.mem := m.mem[t := m.mem[t][v % NPTENTRIES := 0]];
    DirIn(sp);
    ChainFrame(mem1, m.mem, fl, m.free);
    sp' := sp.(leaves := sp.leaves - {v});
    SameSkeleton(sp, sp');
    UnmapPrivate(mem0, m.mem, old(m.free), m.free, sp, v, pa);
    return false, sp';
  }

  lemma LeafPage(mem: map<int, Page>, sp: Space, v: int)
    requires Private(mem, sp) && v in sp.leaves && v < KPAGE
    ensures var p := Ppn(sp.leaves[v]); p in mem && p != 0 && p !in Skeleton(sp) && p in Mapped(sp)
  {}

  lemma UnmapPrivate(mem: map<int, Page>, mem': map<int, Page>, free: seq<int>, free': seq<int>, sp: Space, v: int, pa: int)
    requires Private(mem, sp) && mem'.Keys == mem.Keys && v in sp.leaves && v < KPAGE && pa == Ppn(sp.leaves[v]) && free' == [pa] + free
    requires forall x :: x in free ==> x !in Mapped(sp)
    ensures var sp' := sp.(leaves := sp.leaves - {v});
            Private(mem', sp') && Kept(free, sp, free', sp') && forall x :: x in free' ==> x !in Mapped(sp')
  {
    hide Ppn, Skeleton;
    var sp' := sp.(leaves := sp.leaves - {v});
    SameSkeleton(sp, sp');
    forall x ensures x in Mapped(sp') <==> x in Mapped(sp) && x != pa {
      if w :| w in sp.leaves && w < KPAGE && Ppn(sp.leaves[w]) == x && x != pa { assert w in sp'.leaves && Ppn(sp'.leaves[w]) == x; }
    }
    assert pa in Mapped(sp);
    assert SetOf(free') == SetOf(free) + {pa};
  }

  /** deallocuvm: the pages from newsz up to oldsz are unmapped and freed, but for those that
      the jump over missing tables skips. */
  method Deallocuvm(m: Memory, ghost sp: Space, pgdir: int, oldsz: nat, newsz: nat) returns (r: nat, panic: bool, ghost sp': Space)
    requires m.Valid() && Whole(m.mem, m.free, sp) && pgdir == sp.dir && oldsz <= KERNBASE
    modifies m
    ensures !panic && m.Valid() && Whole(m.mem, m.free, sp') && m.mem.Keys == old(m.mem).Keys
    ensures r == if newsz >= oldsz then oldsz else newsz
    ensures newsz >= oldsz ==> sp' == sp && m.mem == old(m.mem) && m.free == old(m.free)
    ensures newsz < oldsz ==> Unmapped(sp, sp', RoundUp(newsz), RoundUp(oldsz), RoundUp(oldsz))
    ensures Kept(old(m.free), sp, m.free, sp')
    ensures forall x :: x in m.mem && x !in Skeleton(sp) && x !in m.free ==> m.mem[x] == old(m.mem)[x]
  {
    hide Whole, Unmapped, Kept, Scan, Skeleton, Skipped, Present;
    sp' := sp;
    KeptNone(m.free, sp);
    if newsz >= oldsz {
      return oldsz, false, sp;
    }
    var a := RoundUp(newsz);
    ghost var lo, hi := a, RoundUp(oldsz);
    UnmappedNone(sp, lo, hi);
    while a * PGSIZE < oldsz
      invariant lo <= a && m.Valid() && m.mem.Keys == old(m.mem).Keys
      invariant Whole(m.mem, m.free, sp') && sp'.dir == pgdir && sp'.tables == sp.tables
      invariant Scan(sp, lo, a) && Unmapped(sp, sp', lo, a, hi) && Kept(old(m.free), sp, m.free, sp')
      invariant forall x :: x in m.mem && x !in Skeleton(sp) && x !in m.free ==> m.mem[x] == old(m.mem)[x]
      decreases hi - a
    {
      ghost var sp1, f1 := sp', m.free;
      WholeSound(m.mem, m.free, sp');
      var t;
      t, sp' := Walkpgdir(m, sp', pgdir, a, false);
      if t == 0 {
        ScanJump(sp, lo, a);
        UnmappedJump(m.mem, sp, sp', lo, a, hi);
        a := a + NPTENTRIES - 1;
      } else {
        ScanOne(sp, lo, a);
        WholePte(m.mem, m.free, sp', a);
        if Present(m.mem[t][a % NPTENTRIES]) {
          panic, sp' := Unmap(m, sp', t, a);
          if panic {
            return newsz, true, sp';
          }
          SameSkeleton(sp, sp1);
          KeptTrans(old(m.free), sp, f1, sp1, m.free, sp');
        }
        UnmappedOne(sp, sp1, sp', lo, a, hi);
      }
      a := a + 1;
    }
    UnmappedEnd(sp, sp', lo, a, hi);
    return newsz, false, sp';
  }

  lemma KeptNone(free: seq<int>, sp: Space)
    ensures Kept(free, sp, free, sp)
  {}

  lemma KeptTrans(f0: seq<int>, s0: Space, f1: seq<int>, s1: Space, f2: seq<int>, s2: Space)
    requires Kept(f0, s0, f1, s1) && Kept(f1, s1, f2, s2)
    ensures Kept(f0, s0, f2, s2)
  {}

  lemma WholeSound(mem: map<int, Page>, free: seq<int>, sp: Space)
    requires Whole(mem, free, sp)
    ensures Sound(mem, free, sp)
  {}

  lemma WholePte(mem: map<int, Page>, free: seq<int>, sp: Space, v: int)
    requires Whole(mem, free, sp) && 0 <= v < NPAGES && v / NPTENTRIES in sp.tables
    ensures var t := sp.tables[v / NPTENTRIES]; t in mem && (Present(mem[t][v % NPTENTRIES]) <==> v in sp.leaves) && t != 0
  {
    hide Present;
    PteIs(mem, sp, v);
  }

  lemma UnmappedNone(sp: Space, lo: int, hi: int)
    ensures Unmapped(sp, sp, lo, lo, hi) && (lo >= 0 ==> Scan(sp, lo, lo))
  {}

  lemma UnmappedJump(mem: map<int, Page>, sp: Space, sp': Space, lo: int, a: int, hi: int)
    requires Unmapped(sp, sp', lo, a, hi) && Rep(mem, sp')
    requires forall v :: a <= v < a + NPTENTRIES && v / NPTENTRIES in sp.tables ==> Skipped(sp, lo, v)
    ensures Unmapped(sp, sp', lo, a + NPTENTRIES, hi)
  {
    hide Skipped;
    RepLeaves(mem, sp');
  }

  lemma UnmappedOne(sp: Space, sp1: Space, sp2: Space, lo: int, a: int, hi: int)
    requires Unmapped(sp, sp1, lo, a, hi) && lo <= a < hi && !Skipped(sp, lo, a)
    requires sp2 == sp1.(leaves := sp1.leaves - {a})
    ensures Unmapped(sp, sp2, lo, a + 1, hi)
  {
    hide Skipped;
  }

  lemma UnmappedEnd(sp: Space, sp': Space, lo: int, a: int, hi: int)
    requires Unmapped(sp, sp', lo, a, hi) && hi <= a
    ensures Unmapped(sp, sp', lo, hi, hi)
  {
    hide Skipped;
  }

  /** All pages from lo to below hi, and no others, are unmapped. */
  ghost predicate Exact(sp: Space, sp': Space, lo: int, hi: int) {
    && (forall v :: v in sp'.leaves <==> v in sp.leaves && !(lo <= v < hi))
    && forall v :: v in sp'.leaves ==> sp'.leaves[v] == sp.leaves[v]
  }

  /** deallocuvm is exact if and only if no page it should unmap is skipped. */
  lemma ExactIff(sp: Space, sp': Space, lo: int, hi: int)
    requires Unmapped(sp, sp', lo, hi, hi)
    ensures Exact(sp, sp', lo, hi) <==> forall v :: v in sp.leaves && lo <= v < hi ==> !Skipped(sp, lo, v)
  {
    hide Skipped;
  }

  /** User memory from 0 up to n without holes. */
  ghost predicate Contiguous(sp: Space, n: int) {
    forall v :: v < KPAGE ==> (v in sp.leaves <==> 0 <= v < n)
  }

  /** On memory without holes, and from an address that starts a table, nothing is skipped. */
  lemma NoneSkipped(mem: map<int, Page>, sp: Space, lo: int, hi: int, n: int)
    requires Rep(mem, sp) && 0 <= lo && hi <= KPAGE && (lo % NPTENTRIES == 0 || Contiguous(sp, n))
    ensures forall v :: v in sp.leaves && lo <= v < hi ==> !Skipped(sp, lo, v)
  {
    hide Present;
    RepLeaves(mem, sp);
    forall v | v in sp.leaves && lo <= v < hi ensures !Skipped(sp, lo, v) {
      assert Contiguous(sp, n) ==> lo in sp.leaves;
    }
  }

  /** A space with page 1024 mapped and nothing below. */
  function Holed(): Space {
    Space(1, map[1 := 2], map[1024 := Entry(3, 6)])
  }

  /** With a hole a page can be missed: shrinking this space, in this memory, to one page leaves
      page 1024 mapped. */
  lemma HoleSkips() returns (mem: map<int, Page>)
    ensures Whole(mem, [], Holed())
    ensures forall sp' :: Unmapped(Holed(), sp', 1, 1025, 1025) ==> 1024 in sp'.leaves
  {
    var dir, table := Filled(0)[1 := 2 * PGSIZE + 7], Filled(0)[0 := Entry(3, 6)];
    mem := map[1 := dir, 2 := table, 3 := Filled(0)];
    HoleMissed();
    hide Unmapped;
    HoleRep(mem, dir, table);
    hide Rep, Entry;
    assert Skeleton(Holed()) == {1, 2};
  }

  lemma HoleMissed()
    ensures forall sp' :: Unmapped(Holed(), sp', 1, 1025, 1025) ==> 1024 in sp'.leaves
  {
    assert Skipped(Holed(), 1, 1024);
  }

  lemma HoleRep(mem: map<int, Page>, dir: Page, table: Page)
    requires dir == Filled(0)[1 := 2 * PGSIZE + 7] && table == Filled(0)[0 := Entry(3, 6)]
    requires 1 in mem && mem[1] == dir && 2 in mem && mem[2] == table
    ensures Rep(mem, Holed())
  {
    hide Entry;
    var sp := Holed();
    forall i, j | i in sp.tables && 0 <= j < NPTENTRIES ensures mem[sp.tables[i]][j] == LeafWord(sp, Vpn(i, j)) {
      assert i == 1 && Vpn(i, j) == 1024 + j;
    }
  }

  /** freevm's last loop and what follows it: the tables and the directory go back. */
  method FreeTables(m: Memory, ghost sp: Space, pgdir: int) returns (panic: bool)
    requires m.Valid() && Sound(m.mem, m.free, sp) && pgdir == sp.dir
    modifies m
    ensures !panic && m.Valid() && m.mem.Keys == old(m.mem).Keys
    ensures SetOf(m.free) == SetOf(old(m.free)) + Skeleton(sp)
    ensures forall x :: x in m.mem && x !in m.free ==> m.mem[x] == old(m.mem)[x]
  {
    hide Present;
    DirIn(sp);
    var i := 0;
    while i < NPTENTRIES
      invariant 0 <= i <= NPTENTRIES && m.Valid() && m.mem.Keys == old(m.mem).Keys && m.mem[pgdir] == old(m.mem)[pgdir]
      invariant forall x :: x in m.free <==> x in old(m.free) || exists k :: k in sp.tables && k < i && sp.tables[k] == x
      invariant forall x :: x in m.mem && x !in m.free ==> m.mem[x] == old(m.mem)[x]
    {
      PdeIs(sp, i);
      if Present(m.mem[pgdir][i]) {
        var ok := m.Release(Ppn(m.mem[pgdir][i]));
      }
      i := i + 1;
    }
    var ok := m.Release(pgdir);
    panic := !ok;
    forall x ensures x in SetOf(m.free) <==> x in SetOf(old(m.free)) || x in Skeleton(sp) {
      if k :| k in sp.tables && sp.tables[k] == x { assert k < NPTENTRIES; }
    }
  }

  /** freevm: every page of the space is free again, the tables of the kernel's half included. */
  method Freevm(m: Memory, ghost sp: Space, pgdir: int) returns (panic: bool)
    requires m.Valid() && Whole(m.mem, m.free, sp) && pgdir == sp.dir
    modifies m
    ensures !panic && m.Valid() && m.mem.Keys == old(m.mem).Keys
    ensures SetOf(m.free) == SetOf(old(m.free)) + Own(sp)
    ensures forall x :: x in m.mem && x !in m.free ==> m.mem[x] == old(m.mem)[x]
  {
    hide Whole, Unmapped, Exact, Skeleton, Kept, Present;
    WholeSound(m.mem, m.free, sp);
    NoneSkipped(m.mem, sp, 0, KPAGE, 0);
    ghost var sp';
    var r;
    r, panic, sp' := Deallocuvm(m, sp, pgdir, KERNBASE, 0);
    if panic {
      return;
    }
    ghost var free1 := m.free;
    ExactIff(sp, sp', 0, KPAGE);
    NothingLeft(m.mem, old(m.free), sp, m.free, sp');
    panic := FreeTables(m, sp', pgdir);
    DirIn(sp);
  }

  lemma NothingLeft(mem: map<int, Page>, free: seq<int>, sp: Space, free': seq<int>, sp': Space)
    requires Unmapped(sp, sp', 0, KPAGE, KPAGE) && Exact(sp, sp', 0, KPAGE) && Kept(free, sp, free', sp')
    requires Whole(mem, free', sp')
    ensures SetOf(free') == SetOf(free) + Mapped(sp) && Skeleton(sp') == Skeleton(sp) && sp'.dir == sp.dir && Sound(mem, free', sp')
  {
    hide Skipped, Ppn, Private, Present;
    SameSkeleton(sp, sp');
    assert forall v :: v in sp'.leaves ==> 0 <= v;
    assert Mapped(sp') == {};
  }
}
