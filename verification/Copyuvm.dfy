/** copyuvm: a second address space with the same contents on fresh pages. */
module Copyuvm {
  import opened Kalloc
  import opened Paging
  import opened Kvm
  import opened Vm

  /** Virtual page v is the same in both spaces, on different physical pages. */
  ghost predicate Copy(mem: map<int, Page>, sp: Space, sq: Space, v: int) {
    && v in sp.leaves && v in sq.leaves && Flags(sq.leaves[v]) == Flags(sp.leaves[v])
    && Ppn(sp.leaves[v]) in mem && Ppn(sq.leaves[v]) in mem && mem[Ppn(sq.leaves[v])] == mem[Ppn(sp.leaves[v])]
  }

  /** The pages of sp are as they were. */
  ghost predicate Intact(mem0: map<int, Page>, mem: map<int, Page>, sp: Space) {
    mem.Keys == mem0.Keys && forall x :: x in Own(sp) && x in mem0 ==> mem[x] == mem0[x]
  }

  /** copyuvm's loop with the first i pages copied: what each space owns, and how many pages
      have been taken. */
  ghost predicate Fork(mem0: map<int, Page>, free0: seq<int>, mem: map<int, Page>, free: seq<int>, sp: Space, sq: Space, i: int, data: int) {
    && Whole(mem, free, sp) && Whole(mem, free, sq) && Intact(mem0, mem, sp)
    && Own(sq) !! Own(sp) && SetOf(free) + Own(sq) == SetOf(free0)
    && |free0| == |free| + Need(i) && |sq.tables| == KTABLES + Tables(i)
    && Contiguous(sq, i) && Half(sq, 4, data) && (forall k :: k in sq.tables <==> UserTable(k, i) || KernelTable(k))
    && forall v :: 0 <= v < i ==> Copy(mem, sp, sq, v)
  }

  predicate UserTable(k: int, i: int) {
    0 <= k && k * NPTENTRIES < i
  }

  /** Tables for i user pages, and all pages for a space of i user pages. */
  function Tables(i: int): int {
    (i + NPTENTRIES - 1) / NPTENTRIES
  }

  function Need(i: int): int {
    KNEED + i + Tables(i)
  }

  /** Page p, the first free one, is mapped at i in sq'. */
  ghost predicate Placed(mem: map<int, Page>, free: seq<int>, sp: Space, sq: Space, i: int, p: int,
                         mem': map<int, Page>, free1: seq<int>, free': seq<int>, sq': Space) {
    && 0 <= i < KPAGE && i in sp.leaves && free == [p] + free1 && p !in free1 && p != 0 && p in mem
    && mem'.Keys == mem.Keys && Sound(mem', free', sq') && Took(free1, free', sq, sq')
    && Extends(sq, sq', i, i + 1, p, Flags(sp.leaves[i]))
    && Ppn(sp.leaves[i]) in mem
    && forall x :: x in mem && x !in Skeleton(sq') ==> mem'[x] == if x == p then mem[Ppn(sp.leaves[i])] else mem[x]
  }

  /** What Placed says of pages and sets, without the details. */
  lemma PlacedOwn(mem: map<int, Page>, free: seq<int>, sp: Space, sq: Space, i: int, p: int,
                  mem': map<int, Page>, free1: seq<int>, free': seq<int>, sq': Space)
    requires Placed(mem, free, sp, sq, i, p, mem', free1, free', sq') && Whole(mem, free, sq)
    ensures Mapped(sq') == Mapped(sq) + {p} && Skeleton(sq) <= Skeleton(sq') <= Skeleton(sq) + SetOf(free1)
    ensures SetOf(free') <= SetOf(free1) <= SetOf(free) && SetOf(free1) == (Skeleton(sq') - Skeleton(sq)) + SetOf(free')
    ensures p !in Skeleton(sq') && p in SetOf(free) && SetOf(free) == SetOf(free1) + {p}
  {
    hide Rep, Apart, Private, Skeleton, Present;
    LeavesNow(sq, sq', i, p, Flags(sp.leaves[i]));
    var c := |free1| - |free'|;
    assert free1 == free1[..c] + free1[c..];
    assert SetOf(free1) == SetOf(free1[..c]) + SetOf(free');
    assert SetOf(free) == SetOf(free1) + {p};
    assert forall x :: x in SetOf(free) ==> x !in Skeleton(sq);
  }

  lemma LeavesNow(sq: Space, sq': Space, i: int, p: int, perm: int)
    requires 0 <= perm < PGSIZE && 0 <= i < KPAGE && Extends(sq, sq', i, i + 1, p, perm)
    ensures Mapped(sq') == Mapped(sq) + {p} && i in sq'.leaves && Ppn(sq'.leaves[i]) == p && i !in sq.leaves
    ensures sq'.leaves == sq.leaves[i := sq'.leaves[i]]
  {
    assert i in sq'.leaves && sq'.leaves[i] == Entry(p, perm);
    hide Ppn, Entry;
    forall v ensures v in sq'.leaves <==> v in sq.leaves || v == i {}
    assert sq'.leaves.Keys == sq.leaves.Keys + {i};
    forall v | v in sq'.leaves ensures sq'.leaves[v] == sq.leaves[i := sq'.leaves[i]][v] { assert v != i ==> v in sq.leaves; }
    forall x ensures x in Mapped(sq') <==> x in Mapped(sq) || x == p {
      if v :| v in sq.leaves && v < KPAGE && Ppn(sq.leaves[v]) == x { assert v in sq'.leaves && Ppn(sq'.leaves[v]) == x; }
      if v :| v in sq'.leaves && v < KPAGE && Ppn(sq'.leaves[v]) == x && v != i { assert v in sq.leaves; }
    }
  }

  lemma PlacedChild(mem: map<int, Page>, free: seq<int>, sp: Space, sq: Space, i: int, p: int,
                    mem': map<int, Page>, free1: seq<int>, free': seq<int>, sq': Space)
    requires Placed(mem, free, sp, sq, i, p, mem', free1, free', sq') && Whole(mem, free, sq)
    ensures Whole(mem', free', sq')
  {
    hide Rep, Apart, Skeleton, Present, Extends, Took, Ppn, Mapped;
    PlacedOwn(mem, free, sp, sq, i, p, mem', free1, free', sq');
    LeavesNow(sq, sq', i, p, Flags(sp.leaves[i]));
    MappedIs(sq);
    assert forall x :: x in free' ==> x in SetOf(free') && x in SetOf(free1) && x in SetOf(free) && x != p;
    forall v | v in sq'.leaves && v < KPAGE ensures Ppn(sq'.leaves[v]) in mem' && Ppn(sq'.leaves[v]) != 0 && Ppn(sq'.leaves[v]) !in Skeleton(sq') {
      if v != i { assert Ppn(sq.leaves[v]) in Mapped(sq) && Ppn(sq.leaves[v]) !in SetOf(free); }
    }
    forall v, w | v in sq'.leaves && w in sq'.leaves && v < w < KPAGE ensures Ppn(sq'.leaves[v]) != Ppn(sq'.leaves[w]) {
      if v == i || w == i { assert p !in Mapped(sq); }
    }
  }

  lemma MappedIs(sp: Space)
    ensures forall v :: v in sp.leaves && v < KPAGE ==> Ppn(sp.leaves[v]) in Mapped(sp)
  {}

  lemma PlacedParent(mem0: map<int, Page>, mem: map<int, Page>, free: seq<int>, sp: Space, sq: Space, i: int, p: int,
                     mem': map<int, Page>, free1: seq<int>, free': seq<int>, sq': Space)
    requires Placed(mem, free, sp, sq, i, p, mem', free1, free', sq') && Whole(mem, free, sq) && Whole(mem, free, sp)
    requires Own(sq) !! Own(sp) && Intact(mem0, mem, sp)
    ensures Whole(mem', free', sp) && Intact(mem0, mem', sp) && Own(sq') !! Own(sp)
  {
    hide Rep, Apart, Private, Skeleton, Mapped, Placed, Whole;
    PlacedApart(mem, free, sp, sq, i, p, mem', free1, free', sq');
    WholeFrame(mem, free, mem', free', sp);
  }

  lemma PlacedApart(mem: map<int, Page>, free: seq<int>, sp: Space, sq: Space, i: int, p: int,
                    mem': map<int, Page>, free1: seq<int>, free': seq<int>, sq': Space)
    requires Placed(mem, free, sp, sq, i, p, mem', free1, free', sq') && Whole(mem, free, sq) && Whole(mem, free, sp) && Own(sq) !! Own(sp)
    ensures Own(sq') !! Own(sp) && (forall x :: x in free' ==> x !in Own(sp)) && mem'.Keys == mem.Keys
    ensures forall x :: x in Own(sp) && x in mem ==> mem'[x] == mem[x]
  {
    hide Sound, Private, Skeleton, Mapped, Extends, Took, Flags, Ppn;
    PlacedOwn(mem, free, sp, sq, i, p, mem', free1, free', sq');
    FreeApart(mem, free, sp);
    assert forall x :: x in free' ==> x in SetOf(free');
  }

  lemma FreeApart(mem: map<int, Page>, free: seq<int>, sp: Space)
    requires Whole(mem, free, sp)
    ensures SetOf(free) !! Own(sp)
  {}

  lemma WholeFrame(mem: map<int, Page>, free: seq<int>, mem': map<int, Page>, free': seq<int>, sp: Space)
    requires Whole(mem, free, sp) && mem'.Keys == mem.Keys && (forall x :: x in free' ==> x !in Own(sp))
    requires forall x :: x in Own(sp) && x in mem ==> mem'[x] == mem[x]
    ensures Whole(mem', free', sp)
  {
    hide Rep, Apart, Private, Skeleton, Mapped;
    RepFrame(mem, mem', sp);
    PrivateFrame(mem, mem', sp);
  }

  lemma PrivateFrame(mem: map<int, Page>, mem': map<int, Page>, sp: Space)
    requires Private(mem, sp) && mem'.Keys == mem.Keys
    ensures Private(mem', sp)
  {}

  /** The pages copied so far stay copies. */
  lemma PlacedCopies(mem0: map<int, Page>, mem: map<int, Page>, free: seq<int>, sp: Space, sq: Space, i: int, p: int,
                     mem': map<int, Page>, free1: seq<int>, free': seq<int>, sq': Space, v: int)
    requires Placed(mem, free, sp, sq, i, p, mem', free1, free', sq') && Whole(mem, free, sq) && Whole(mem, free, sp) && Own(sq) !! Own(sp)
    requires 0 <= v <= i && (v < i ==> Copy(mem, sp, sq, v)) && Present(sp.leaves[i])
    ensures Copy(mem', sp, sq', v)
  {
    hide Rep, Apart, Private, Skeleton, Mapped, Present, Extends, Took, Ppn, Flags, Entry;
    PlacedOwn(mem, free, sp, sq, i, p, mem', free1, free', sq');
    FlagsRange(sp.leaves[i]);
    FlagsKept(sq, sq', i, p, sp.leaves[i]);
    MappedIs(sp);
    MappedIs(sq);
    var a := Ppn(sp.leaves[v]);
    assert a in Own(sp) && a !in Own(sq) && a !in SetOf(free) by { assert a in SetOf(free) ==> a in free; }
    if v < i {
      var b := Ppn(sq.leaves[v]);
      assert b in Mapped(sq) && b !in SetOf(free) by { assert b in SetOf(free) ==> b in free; }
      LeafPage(mem, sq, v);
    }
  }

  lemma FlagsKept(sq: Space, sq': Space, i: int, p: int, e: int)
    requires 0 <= Flags(e) < PGSIZE && 0 <= i < KPAGE && Extends(sq, sq', i, i + 1, p, Flags(e)) && Present(e)
    ensures i in sq'.leaves && Ppn(sq'.leaves[i]) == p && Flags(sq'.leaves[i]) == Flags(e) && sq'.leaves == sq.leaves[i := sq'.leaves[i]]
  {
    LeavesNow(sq, sq', i, p, Flags(e));
    OddFlags(e);
    assert sq'.leaves[i] == Entry(p, Flags(e));
  }

  lemma OddFlags(e: int)
    requires Present(e)
    ensures Flags(e) % 2 == 1
  {
    var q, r := e / 4096, e % 4096;
    assert e == 2 * (2048 * q) + r;
    Parity(2048 * q, r);
  }

  lemma Parity(k: int, r: int)
    ensures (2 * k + r) % 2 == r % 2
  {}

  lemma TablesNext(i: int)
    requires 0 <= i
    ensures Tables(i + 1) == Tables(i) + if i % NPTENTRIES == 0 then 1 else 0
    ensures i % NPTENTRIES == 0 <==> !(i / NPTENTRIES * NPTENTRIES < i)
    ensures i / NPTENTRIES * NPTENTRIES < i + 1
  {}

  lemma TablesAt(i: int, k: int)
    requires 0 <= i
    ensures UserTable(k, i + 1) <==> UserTable(k, i) || k == i / NPTENTRIES
  {}

  lemma UserHalf(i: int)
    requires 0 <= i < KPAGE
    ensures !KernelTable(i / NPTENTRIES) && (UserTable(i / NPTENTRIES, i) <==> i % NPTENTRIES != 0)
  {}

  lemma PlacedCounts(mem: map<int, Page>, free: seq<int>, sp: Space, sq: Space, i: int, p: int,
                     mem': map<int, Page>, free1: seq<int>, free': seq<int>, sq': Space)
    requires Placed(mem, free, sp, sq, i, p, mem', free1, free', sq') && 0 <= i < KPAGE && |sq.tables| == KTABLES + Tables(i) && Contiguous(sq, i)
    requires forall k :: k in sq.tables <==> UserTable(k, i) || KernelTable(k)
    ensures |sq'.tables| == KTABLES + Tables(i + 1) && (forall k :: k in sq'.tables <==> UserTable(k, i + 1) || KernelTable(k)) && Contiguous(sq', i + 1)
    ensures |free| == |free'| + 1 + |sq'.tables| - |sq.tables|
  {
    hide Placed, Contiguous, UserTable, KernelTable, Tables;
    var k := i / NPTENTRIES;
    PlacedTable(mem, free, sp, sq, i, p, mem', free1, free', sq');
    TablesNext(i);
    UserHalf(i);
    KeysCount(sq, sq', k);
    forall j ensures j in sq'.tables <==> UserTable(j, i + 1) || KernelTable(j) { TablesAt(i, j); }
  }

  lemma PlacedTable(mem: map<int, Page>, free: seq<int>, sp: Space, sq: Space, i: int, p: int,
                    mem': map<int, Page>, free1: seq<int>, free': seq<int>, sq': Space)
    requires Placed(mem, free, sp, sq, i, p, mem', free1, free', sq') && 0 <= i && Contiguous(sq, i)
    ensures forall j :: j in sq'.tables <==> j in sq.tables || j == i / NPTENTRIES
    ensures |free| == |free'| + 1 + |sq'.tables| - |sq.tables| && Contiguous(sq', i + 1)
  {
    hide Sound, Skeleton, Present, Entry;
    RepTable(mem', free', sq', i);
    assert i in sq'.leaves;
    TablesGrow(sq, sq', i, p, Flags(sp.leaves[i]));
  }

  lemma KeysCount(sq: Space, sq': Space, k: int)
    requires forall j :: j in sq'.tables <==> j in sq.tables || j == k
    ensures |sq'.tables| == |sq.tables| + if k in sq.tables then 0 else 1
  {
    var a, b := sq.tables.Keys, sq'.tables.Keys;
    forall j ensures j in b <==> j in a + {k} {}
    assert b == a + {k};
    if k in sq.tables { assert a + {k} == a; }
  }

  lemma TablesGrow(sq: Space, sq': Space, i: int, p: int, perm: int)
    requires 0 <= perm < PGSIZE && Extends(sq, sq', i, i + 1, p, perm) && i / NPTENTRIES in sq'.tables
    ensures forall j :: j in sq'.tables <==> j in sq.tables || j == i / NPTENTRIES
  {}

  lemma RepTable(mem: map<int, Page>, free: seq<int>, sp: Space, v: int)
    requires Sound(mem, free, sp)
    ensures v in sp.leaves ==> v / NPTENTRIES in sp.tables
  {}

  lemma ForkStep(mem0: map<int, Page>, free0: seq<int>, mem: map<int, Page>, free: seq<int>, sp: Space, sq: Space, i: int, p: int,
                 mem': map<int, Page>, free1: seq<int>, free': seq<int>, sq': Space, data: int)
    requires Fork(mem0, free0, mem, free, sp, sq, i, data) && 0 <= i && Placed(mem, free, sp, sq, i, p, mem', free1, free', sq') && Present(sp.leaves[i])
    ensures Fork(mem0, free0, mem', free', sp, sq', i + 1, data)
  {
    hide Whole, Intact, Skeleton, Mapped, Present, Copy, Contiguous, Placed, Half, UserTable, KernelTable;
    PlacedIn(mem, free, sp, sq, i, p, mem', free1, free', sq');
    PlacedOwn(mem, free, sp, sq, i, p, mem', free1, free', sq');
    PlacedChild(mem, free, sp, sq, i, p, mem', free1, free', sq');
    PlacedParent(mem0, mem, free, sp, sq, i, p, mem', free1, free', sq');
    PlacedCounts(mem, free, sp, sq, i, p, mem', free1, free', sq');
    forall v | 0 <= v < i + 1 ensures Copy(mem', sp, sq', v) { PlacedCopies(mem0, mem, free, sp, sq, i, p, mem', free1, free', sq', v); }
  }

  lemma PlacedIn(mem: map<int, Page>, free: seq<int>, sp: Space, sq: Space, i: int, p: int,
                 mem': map<int, Page>, free1: seq<int>, free': seq<int>, sq': Space)
    requires Placed(mem, free, sp, sq, i, p, mem', free1, free', sq')
    ensures i in sp.leaves && 0 <= i < KPAGE && forall data :: Half(sq, 4, data) ==> Half(sq', 4, data)
  {
    LeavesNow(sq, sq', i, p, Flags(sp.leaves[i]));
    hide Kernel, KernelEntry, Entry;
  }

  /** The child as setupkvm made it. */
  lemma ForkStart(mem0: map<int, Page>, free0: seq<int>, mem: map<int, Page>, sp: Space, sq: Space, data: int)
    requires Whole(mem0, free0, sp) && mem.Keys == mem0.Keys && |free0| >= KNEED
    requires forall x :: x in mem && x !in free0[..KNEED] ==> mem[x] == mem0[x]
    requires Sound(mem, free0[KNEED..], sq) && Skeleton(sq) == SetOf(free0[..KNEED])
    requires (forall v :: v in sq.leaves ==> v >= KPAGE) && Half(sq, 4, data)
    requires (forall k :: k in sq.tables <==> KernelTable(k)) && |sq.tables| == KTABLES
    ensures Fork(mem0, free0, mem, free0[KNEED..], sp, sq, 0, data)
  {
    var free := free0[KNEED..];
    TakenApart(mem0, free0, mem, sp, KNEED);
    assert Mapped(sq) == {};
    hide Sound, Skeleton, Half, KernelTable;
    assert free0 == free0[..KNEED] + free;
    assert SetOf(free0) == SetOf(free0[..KNEED]) + SetOf(free);
    FreeApart(mem0, free0, sp);
  }

  /** Pages taken off the list and written are none of sp's. */
  lemma TakenApart(mem0: map<int, Page>, free0: seq<int>, mem: map<int, Page>, sp: Space, n: nat)
    requires Whole(mem0, free0, sp) && mem.Keys == mem0.Keys && n <= |free0|
    requires forall x :: x in mem && x !in free0[..n] ==> mem[x] == mem0[x]
    ensures Whole(mem, free0[n..], sp) && Intact(mem0, mem, sp)
  {
    FreeApart(mem0, free0, sp);
    hide Whole;
    forall x | x in Own(sp) ensures x !in free0[..n] && x !in free0[n..] { assert x in free0 ==> x in SetOf(free0); }
    WholeFrame(mem0, free0, mem, free0[n..], sp);
  }

  /** The entry for page v in the parent, or 0 when it is not present. */
  method ParentEntry(m: Memory, ghost sp: Space, pgdir: int, v: nat) returns (e: int)
    requires m.Valid() && Whole(m.mem, m.free, sp) && pgdir == sp.dir && v < KPAGE
    modifies m
    ensures m.mem == old(m.mem) && m.free == old(m.free) && m.freelist == old(m.freelist)
    ensures e == 0 <==> v !in sp.leaves
    ensures e != 0 ==> e == sp.leaves[v] && Present(e) && Ppn(e) in m.mem
  {
    hide Sound, Present, Skeleton, Ppn, Private;
    ghost var sp1, head := sp, m.freelist;
    var t;
    t, sp1 := Walkpgdir(m, sp, pgdir, v, false);
    SameHead(m.mem, head, m.freelist, m.free);
    RepTable(m.mem, m.free, sp, v);
    TableNonzero(m.mem, m.free, sp, v / NPTENTRIES);
    if t == 0 {
      return 0;
    }
    WholePte(m.mem, m.free, sp, v);
    e := m.mem[t][v % NPTENTRIES];
    if !Present(e) {
      return 0;
    }
    LeafAt(m.mem, m.free, sp, v);
    Nonzero(e);
  }

  lemma Nonzero(e: int)
    requires Present(e)
    ensures e != 0
  {}

  lemma SameHead(mem: map<int, Page>, a: int, b: int, fl: seq<int>)
    requires Chain(mem, a, fl) && Chain(mem, b, fl)
    ensures a == b
  {}

  /** kalloc and memmove of page pa. */
  method TakeCopy(m: Memory, ghost sp: Space, ghost sq: Space, pa: int) returns (p: int)
    requires m.Valid() && Whole(m.mem, m.free, sp) && Whole(m.mem, m.free, sq) && pa in m.mem
    modifies m
    ensures m.Valid() && (p == 0 <==> old(m.free) == []) && (p == 0 ==> m.mem == old(m.mem) && m.free == old(m.free))
    ensures p != 0 ==>
              && old(m.free) == [p] + m.free && p in m.mem && p !in m.free && m.mem == old(m.mem)[p := old(m.mem)[pa]]
              && Sound(m.mem, m.free, sp) && Sound(m.mem, m.free, sq) && p in old(m.mem)
  {
    hide Whole, Sound;
    ghost var mem1, free1 := m.mem, m.free;
    p := m.Alloc();
    if p == 0 {
      return;
    }
    ghost var fl := m.freelist;
    m.mem := m.mem[p := m.mem[pa]];
    ChainFrame(mem1, m.mem, fl, m.free);
    FreeOut(mem1, free1, m.mem, m.free, sp, sq, p);
  }

  /** One iteration of copyuvm.  nomem: 1 when no page is left for the data, 2 when none is
      left for the table and the page taken for the data is lost. */
  method CopyPage(m: Memory, ghost mem0: map<int, Page>, ghost free0: seq<int>, ghost sp: Space, pgdir: int, ghost sq: Space, d: int, i: nat, ghost data: int)
    returns (panic: bool, nomem: int, ghost lost: int, ghost sq': Space)
    requires m.Valid() && Fork(mem0, free0, m.mem, m.free, sp, sq, i, data) && pgdir == sp.dir && d == sq.dir && i < KPAGE
    modifies m
    ensures m.Valid() && (panic ==> i !in sp.leaves) && sq'.dir == d
    ensures !panic && nomem == 0 ==> Fork(mem0, free0, m.mem, m.free, sp, sq', i + 1, data)
    ensures !panic && nomem != 0 ==> sq' == sq && m.free == [] && Whole(m.mem, m.free, sp) && Whole(m.mem, m.free, sq) && Intact(mem0, m.mem, sp)
    ensures !panic && nomem != 0 ==> Own(sq) !! Own(sp)
    ensures !panic && nomem == 1 ==> old(m.free) == []
    ensures !panic && nomem != 0 && nomem != 1 ==> old(m.free) == [lost] && i / NPTENTRIES !in sq.tables
  {
    hide Fork, Sound, Took, Extends, Present, Skeleton, Flags, Ppn, Whole, Own, Intact, Contiguous, Need;
    sq', lost := sq, 0;
    nomem := 0;
    ForkIs(mem0, free0, m.mem, m.free, sp, sq, i, data);
    var e := ParentEntry(m, sp, pgdir, i);
    if e == 0 {
      return true, 0, 0, sq;
    }
    var flags := Flags(e);
    FlagsRange(e);
    ghost var mem1, free1 := m.mem, m.free;
    var p := TakeCopy(m, sp, sq, Ppn(e));
    if p == 0 {
      return false, 1, 0, sq;
    }
    ghost var free2 := m.free;
    var r;
    r, panic, sq' := Mappages(m, sq, d, i * PGSIZE, PGSIZE, p, flags);
    ContiguousAt(sq, i);
    OnePage(i);
    if panic {
      return;
    }
    if r < 0 {
      NoTable(mem0, free0, mem1, free1, sp, sq, i, p, m.mem, free2, sq', flags, m.free, data);
      return false, 2, p, sq;
    }
    assert Placed(mem1, free1, sp, sq, i, p, m.mem, free2, m.free, sq');
    ForkStep(mem0, free0, mem1, free1, sp, sq, i, p, m.mem, free2, m.free, sq', data);
    ForkDir(sq, sq', i, p, flags);
  }

  lemma FlagsRange(e: int)
    ensures 0 <= Flags(e) < PGSIZE
  {}

  lemma TableNonzero(mem: map<int, Page>, free: seq<int>, sp: Space, k: int)
    requires Sound(mem, free, sp)
    ensures k in sp.tables ==> sp.tables[k] != 0
  {}

  lemma OnePage(i: int)
    ensures i * PGSIZE / PGSIZE == i && (i * PGSIZE + PGSIZE - 1) / PGSIZE == i
  {}

  lemma ForkDir(sq: Space, sq': Space, i: int, p: int, perm: int)
    requires 0 <= perm < PGSIZE && Extends(sq, sq', i, i + 1, p, perm)
    ensures sq'.dir == sq.dir
  {}

  lemma ContiguousAt(sq: Space, i: int)
    requires Contiguous(sq, i) && i < KPAGE
    ensures i !in sq.leaves
  {}

  lemma ForkIs(mem0: map<int, Page>, free0: seq<int>, mem: map<int, Page>, free: seq<int>, sp: Space, sq: Space, i: int, data: int)
    requires Fork(mem0, free0, mem, free, sp, sq, i, data)
    ensures Whole(mem, free, sp) && Whole(mem, free, sq) && Sound(mem, free, sp) && Sound(mem, free, sq) && Contiguous(sq, i) && Own(sq) !! Own(sp)
    ensures Intact(mem0, mem, sp)
  {}

  lemma LeafAt(mem: map<int, Page>, free: seq<int>, sp: Space, v: int)
    requires Whole(mem, free, sp) && v in sp.leaves && v < KPAGE
    ensures v / NPTENTRIES in sp.tables && 0 <= v < NPAGES && Ppn(sp.leaves[v]) in mem
    ensures mem[sp.tables[v / NPTENTRIES]][v % NPTENTRIES] == sp.leaves[v] && Present(sp.leaves[v]) && 0 <= Flags(sp.leaves[v]) < PGSIZE
  {
    VpnIs(v);
  }

  /** Writing the page just taken off the list disturbs no space. */
  lemma FreeOut(mem: map<int, Page>, free: seq<int>, mem': map<int, Page>, free': seq<int>, sp: Space, sq: Space, p: int)
    requires Whole(mem, free, sp) && Whole(mem, free, sq) && free == [p] + free' && p in mem && p in mem' && mem' == mem[p := mem'[p]]
    ensures Sound(mem', free', sp) && Sound(mem', free', sq) && p !in Own(sp) && p !in Own(sq)
    ensures Whole(mem', free', sp) && Whole(mem', free', sq)
  {
    hide Rep, Private, Skeleton, Mapped, Apart;
    assert p in free;
    RepFrame(mem, mem', sp);
    RepFrame(mem, mem', sq);
    PrivateFrame(mem, mem', sp);
    PrivateFrame(mem, mem', sq);
  }

  /** mappages of one page failed: it changed nothing. */
  lemma NoTable(mem0: map<int, Page>, free0: seq<int>, mem: map<int, Page>, free: seq<int>, sp: Space, sq: Space, i: int, p: int,
                mem': map<int, Page>, free1: seq<int>, sq': Space, perm: int, free2: seq<int>, data: int)
    requires Fork(mem0, free0, mem, free, sp, sq, i, data) && free == [p] + free1 && p in mem && 0 <= perm < PGSIZE
    requires Sound(mem', free2, sq') && Took(free1, free2, sq, sq') && free2 == [] && mem'.Keys == mem.Keys
    requires exists b :: i <= b <= i && Extends(sq, sq', i, b, p, perm) && b / NPTENTRIES !in sq'.tables
    requires forall x :: x in mem && x !in Skeleton(sq') && x != p ==> mem'[x] == mem[x]
    ensures free == [p] && i / NPTENTRIES !in sq.tables && Whole(mem', [], sp) && Whole(mem', [], sq) && Intact(mem0, mem', sp)
  {
    hide Rep, Private, Mapped, Apart, Present;
    NothingExtended(sq, sq', i, p, perm);
    assert |free1| == 0;
    assert p in free && p !in Own(sp);
    forall x | x in Own(sp) && x in mem ensures mem'[x] == mem[x] { assert x !in Own(sq); }
    RepFrame(mem, mem', sp);
    PrivateFrame(mem, mem', sp);
    PrivateFrame(mem, mem', sq);
    SameSound(mem', sq, sq');
  }

  lemma NothingExtended(sq: Space, sq': Space, i: int, p: int, perm: int)
    requires 0 <= perm < PGSIZE && exists b :: i <= b <= i && Extends(sq, sq', i, b, p, perm) && b / NPTENTRIES !in sq'.tables
    ensures sq' == sq && i / NPTENTRIES !in sq.tables
  {
    hide Entry;
    assert Extends(sq, sq', i, i, p, perm);
    forall v ensures v in sq'.leaves <==> v in sq.leaves {}
    assert sq'.leaves.Keys == sq.leaves.Keys;
    forall v | v in sq'.leaves ensures sq'.leaves[v] == sq.leaves[v] { assert v in sq.leaves; }
    forall k ensures k in sq'.tables <==> k in sq.tables {}
    assert sq'.tables.Keys == sq.tables.Keys;
    forall k | k in sq'.tables ensures sq'.tables[k] == sq.tables[k] { assert k in sq.tables; }
  }

  lemma SameSound(mem: map<int, Page>, sq: Space, sq': Space)
    requires sq' == sq && Sound(mem, [], sq')
    ensures Sound(mem, [], sq)
  {}

  /** copyuvm of the first sz bytes.  0: out of memory.  panic: a page below sz is not mapped.
      On a shortage the pages of an unfinished setupkvm are all lost; after that, one page is
      lost exactly when the shortage is met allocating a table. */
  method Copyuvm(m: Memory, ghost sp: Space, pgdir: int, sz: nat, data: int) returns (d: int, panic: bool, ghost sq: Space, ghost lost: int)
    requires m.Valid() && Whole(m.mem, m.free, sp) && pgdir == sp.dir && sz <= KERNBASE && DataOk(data)
    modifies m
    ensures m.Valid() && (panic ==> exists v :: 0 <= v < RoundUp(sz) && v !in sp.leaves)
    ensures !panic ==> Whole(m.mem, m.free, sp) && Intact(old(m.mem), m.mem, sp)
    ensures !panic ==> (d == 0 <==> |old(m.free)| < Need(RoundUp(sz)))
    ensures !panic && d != 0 ==>
              && sq.dir == d && Whole(m.mem, m.free, sq) && Own(sq) !! Own(sp) && SetOf(m.free) + Own(sq) == SetOf(old(m.free))
              && Contiguous(sq, RoundUp(sz)) && Half(sq, 4, data) && forall v :: 0 <= v < RoundUp(sz) ==> Copy(m.mem, sp, sq, v)
    ensures !panic && d == 0 ==>
              if |old(m.free)| < KNEED then m.free == []
              else if (|old(m.free)| - KNEED) % (NPTENTRIES + 1) == 1 then lost in old(m.free) && SetOf(m.free) == SetOf(old(m.free)) - {lost}
              else SetOf(m.free) == SetOf(old(m.free))
  {
    hide Fork, Whole, Intact, Own, SetOf, Need, Contiguous, Copy, Half, Sound, Skeleton, KernelTable, DataOk;
    ghost var mem0, free0 := m.mem, m.free;
    ghost var n := RoundUp(sz);
    ghost var taken;
    lost := 0;
    d, panic, sq, taken := Setupkvm(m, data);
    if d == 0 {
      NeedSome(n);
      TakenApart(mem0, free0, m.mem, sp, taken);
      return 0, false, sq, 0;
    }
    ForkStart(mem0, free0, m.mem, sp, sq, data);
    var i := 0;
    while i * PGSIZE < sz
      invariant 0 <= i <= n && m.Valid() && sq.dir == d && Fork(mem0, free0, m.mem, m.free, sp, sq, i, data)
      decreases n - i
    {
      ghost var free1, sq1 := m.free, sq;
      ForkCount(mem0, free0, m.mem, m.free, sp, sq, i, n, data);
      var nomem;
      panic, nomem, lost, sq := CopyPage(m, mem0, free0, sp, pgdir, sq, d, i, data);
      if panic {
        return;
      }
      if nomem != 0 {
        ghost var mem1 := m.mem;
        SetOfNone(Own(sq));
        panic := Freevm(m, sq, d);
        if !panic { Undone(mem0, free0, mem1, free1, m.mem, m.free, sp, sq, nomem == 1, lost); }
        return 0, panic, sq, lost;
      }
      i := i + 1;
    }
    ForkDone(mem0, free0, m.mem, m.free, sp, sq, n, data);
    panic := false;
  }

  /** One page more than the kernel's half takes: a copy of one page fails, and that one page
      is lost. */
  method CopyOnOneLeft(m: Memory, ghost sp: Space, pgdir: int, data: int) returns (d: int, ghost lost: int)
    requires m.Valid() && Whole(m.mem, m.free, sp) && pgdir == sp.dir && Contiguous(sp, 1) && DataOk(data) && |m.free| == KNEED + 1
    modifies m
    ensures d == 0 && lost in old(m.free) && SetOf(m.free) == SetOf(old(m.free)) - {lost}
  {
    hide Whole, Own, Copy, Intact, DataOk, Half;
    assert 0 in sp.leaves;
    var panic;
    ghost var sq;
    d, panic, sq, lost := Copyuvm(m, sp, pgdir, 1, data);
  }

  lemma SetOfNone(a: set<int>)
    ensures SetOf([]) + a == a
  {}

  lemma NeedSome(n: nat)
    ensures Need(n) >= KNEED
  {}

  /** How many pages there were, given what is left and what comes next. */
  lemma ForkCount(mem0: map<int, Page>, free0: seq<int>, mem: map<int, Page>, free: seq<int>, sp: Space, sq: Space, i: int, n: int, data: int)
    requires Fork(mem0, free0, mem, free, sp, sq, i, data) && 0 <= i < n <= KPAGE
    ensures SetOf(free) + Own(sq) == SetOf(free0) && |free0| >= KNEED
    ensures free == [] ==> |free0| < Need(n) && (|free0| - KNEED) % (NPTENTRIES + 1) != 1
    ensures |free| == 1 && i / NPTENTRIES !in sq.tables ==> |free0| < Need(n) && (|free0| - KNEED) % (NPTENTRIES + 1) == 1
    ensures forall x :: x in free ==> x !in Own(sq)
  {
    assert forall x :: x in free ==> x !in Own(sq);
    hide Whole, Intact, Own, SetOf, Copy;
    NeedLess(i, n);
    NeedMod(i);
    TablesNext(i);
  }

  lemma NeedLess(i: int, n: int)
    requires 0 <= i < n
    ensures Need(i) < Need(i + 1) <= Need(n)
  {}

  lemma NeedMod(i: int)
    requires 0 <= i
    ensures (Need(i) - KNEED) % (NPTENTRIES + 1) != 1
    ensures i % NPTENTRIES == 0 ==> (Need(i) + 1 - KNEED) % (NPTENTRIES + 1) == 1 && Need(i + 1) == Need(i) + 2
  {
    var q, r := i / NPTENTRIES, i % NPTENTRIES;
    assert i == NPTENTRIES * q + r;
    if r == 0 {
      assert Tables(i) == q && Need(i) - KNEED == (NPTENTRIES + 1) * q;
      ModOf(q, 0);
      ModOf(q, 1);
    } else {
      assert Tables(i) == q + 1 && Need(i) - KNEED == (NPTENTRIES + 1) * q + (r + 1);
      ModOf(q, r + 1);
    }
  }

  lemma ModOf(q: int, r: int)
    requires 0 <= r <= NPTENTRIES
    ensures ((NPTENTRIES + 1) * q + r) % (NPTENTRIES + 1) == r
  {}

  lemma ForkDone(mem0: map<int, Page>, free0: seq<int>, mem: map<int, Page>, free: seq<int>, sp: Space, sq: Space, n: int, data: int)
    requires Fork(mem0, free0, mem, free, sp, sq, n, data) && 0 <= n
    ensures Whole(mem, free, sp) && Whole(mem, free, sq) && Intact(mem0, mem, sp) && Own(sq) !! Own(sp) && SetOf(free) + Own(sq) == SetOf(free0)
    ensures Contiguous(sq, n) && Half(sq, 4, data) && (forall v :: 0 <= v < n ==> Copy(mem, sp, sq, v)) && |free0| >= Need(n) && sq.dir != 0
  {}

  /** After the failed copy is given back, the parent is as it was. */
  lemma Undone(mem0: map<int, Page>, free0: seq<int>, mem: map<int, Page>, free: seq<int>, mem': map<int, Page>, free': seq<int>,
               sp: Space, sq: Space, none: bool, lost: int)
    requires SetOf(free) + Own(sq) == SetOf(free0) && Whole(mem, [], sp) && Intact(mem0, mem, sp) && Own(sq) !! Own(sp)
    requires mem'.Keys == mem.Keys && SetOf(free') == Own(sq) && forall x :: x in mem' && x !in free' ==> mem'[x] == mem[x]
    requires if none then free == [] else free == [lost] && lost !in Own(sq)
    ensures Whole(mem', free', sp) && Intact(mem0, mem', sp)
    ensures if none then SetOf(free') == SetOf(free0) else lost in free0 && SetOf(free') == SetOf(free0) - {lost}
  {
    hide Rep, Private, Apart, Skeleton, Mapped;
    assert forall x :: x in free' ==> x in SetOf(free') && x in Own(sq) && x !in Own(sp);
    forall x | x in Own(sp) && x in mem ensures mem'[x] == mem[x] {}
    RepFrame(mem, mem', sp);
    PrivateFrame(mem, mem', sp);
    if none { assert SetOf(free) == {}; } else { assert SetOf(free) == {lost}; assert lost in SetOf(free0); }
  }
}
