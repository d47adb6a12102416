/** setupkvm: a directory with the kernel's half mapped, on fresh pages. */
module Kvm {
  import opened Kalloc
  import opened Paging
  import opened Vm

  const EXTMEM := 0x10_0000
  const PHYSTOP := 0xE00_0000
  const DEVSPACE := 0xFE00_0000
  const KERNLINK := KERNBASE + EXTMEM
  const PTE_W := 2

  const KTOP := KPAGE + PHYSTOP / PGSIZE
  const DEVPAGE := DEVSPACE / PGSIZE

  /** The tables of the kernel's half, and all pages setupkvm takes. */
  const KTABLES := 64
  const KNEED := 1 + KTABLES

  /** A row of kmap; ends are addresses modulo 2^32. */
  datatype Range = Range(virt: int, start: int, end: int, perm: int)

  /** The address of the kernel's data: page aligned by the linker script, after the text. */
  predicate DataOk(data: int) {
    KERNLINK < data < KERNBASE + PHYSTOP && data % PGSIZE == 0
  }

  function Kmap(data: int): (kmap: seq<Range>)
    ensures |kmap| == 4
  {
    [ Range(KERNBASE, 0, EXTMEM, PTE_W),
      Range(KERNLINK, KERNLINK - KERNBASE, data - KERNBASE, 0),
      Range(data, data - KERNBASE, PHYSTOP, PTE_W),
      Range(DEVSPACE, DEVSPACE, 0, PTE_W) ]
  }

  function Size(r: Range): int {
    (r.end - r.start) % 0x1_0000_0000
  }

  /** Where the first n rows end, device space apart. */
  function Top(n: int, data: int): int {
    if n <= 0 then KPAGE else if n == 1 then KERNLINK / PGSIZE else if n == 2 then data / PGSIZE else KTOP
  }

  /** Virtual page v is in one of the first n rows. */
  predicate Kernel(v: int, n: int, data: int) {
    KPAGE <= v < Top(n, data) || (n >= 4 && DEVPAGE <= v < NPAGES)
  }

  /** The kernel's entry for page v: memory is mapped at KERNBASE on, devices to themselves, and
      only the text is read-only. */
  function KernelEntry(v: int, data: int): int {
    if v < KTOP then Entry(v - KPAGE, if KERNLINK / PGSIZE <= v < data / PGSIZE then 0 else PTE_W)
    else Entry(v, PTE_W)
  }

  /** The kernel's half, as far as the first n rows. */
  ghost predicate Half(sp: Space, n: int, data: int) {
    && (forall v :: v >= KPAGE ==> (v in sp.leaves <==> Kernel(v, n, data)))
    && (forall v :: v in sp.leaves && v >= KPAGE ==> sp.leaves[v] == KernelEntry(v, data))
  }

  predicate KernelTable(k: int) {
    512 <= k < 568 || 1016 <= k < 1024
  }

  /** setupkvm with rows 0 to n - 1 mapped; nothing is mapped below KERNBASE. */
  ghost predicate Rows(sq: Space, n: int, data: int) {
    && Half(sq, n, data) && (forall v :: v in sq.leaves ==> v >= KPAGE) && (forall k :: k in sq.tables ==> KernelTable(k))
  }

  lemma RowsNone(d: int, data: int)
    ensures Rows(Space(d, map[], map[]), 0, data)
  {}

  /** The pages of row n. */
  lemma RowIs(n: int, data: int)
    requires DataOk(data) && 0 <= n < 4
    ensures var r := Kmap(data)[n];
            && 0 < Size(r) && 0 <= r.virt && r.virt + Size(r) <= NPAGES * PGSIZE && 0 <= r.perm < PGSIZE
            && var a, b := r.virt / PGSIZE, (r.virt + Size(r) - 1) / PGSIZE + 1;
            && a == (if n == 3 then DEVPAGE else Top(n, data)) && b == (if n == 3 then NPAGES else Top(n + 1, data)) && a < b
            && (n < 3 ==> r.start / PGSIZE == a - KPAGE) && (n == 3 ==> r.start / PGSIZE == a)
  {
    var q := data / PGSIZE;
    assert data == q * PGSIZE;
  }

  lemma RowEntry(n: int, data: int, v: int)
    requires DataOk(data) && 0 <= n < 4
    ensures var r := Kmap(data)[n];
            r.virt / PGSIZE <= v < (r.virt + Size(r) - 1) / PGSIZE + 1 ==>
              0 <= r.perm < PGSIZE && KernelEntry(v, data) == Entry(r.start / PGSIZE + v - r.virt / PGSIZE, r.perm) && !Kernel(v, n, data) && v >= KPAGE
              && KernelTable(v / NPTENTRIES)
    ensures var r := Kmap(data)[n];
            Kernel(v, n + 1, data) <==> Kernel(v, n, data) || r.virt / PGSIZE <= v < (r.virt + Size(r) - 1) / PGSIZE + 1
  {
    hide Entry, Size, Kmap;
    RowIs(n, data);
    RowPerm(n, data);
    DataPage(data);
  }

  lemma RowPerm(n: int, data: int)
    requires 0 <= n < 4
    ensures Kmap(data)[n].perm == if n == 1 then 0 else PTE_W
  {}

  lemma DataPage(data: int)
    requires DataOk(data)
    ensures KERNLINK / PGSIZE < data / PGSIZE < KTOP
  {
    var q := data / PGSIZE;
    assert data == q * PGSIZE;
  }

  /** Row n is pages a to e - 1, to be mapped from ppn on. */
  ghost predicate RowAt(n: int, data: int, a: int, e: int, ppn: int, perm: int, v: int)
    requires 0 <= perm < PGSIZE
  {
    && (a <= v < e ==> KernelEntry(v, data) == Entry(ppn + v - a, perm) && v >= KPAGE && KernelTable(v / NPTENTRIES) && !Kernel(v, n, data))
    && (Kernel(v, n + 1, data) <==> Kernel(v, n, data) || a <= v < e)
  }

  ghost predicate Row(n: int, data: int, a: int, e: int, ppn: int, perm: int)
    requires 0 <= perm < PGSIZE
  {
    forall v :: RowAt(n, data, a, e, ppn, perm, v)
  }

  /** Row n is mapped from page a up to page b. */
  lemma RowTables(sq: Space, sq': Space, n: int, data: int, a: int, b: int, e: int, ppn: int, perm: int)
    requires Rows(sq, n, data) && 0 <= perm < PGSIZE && b <= e && Extends(sq, sq', a, b, ppn, perm) && Row(n, data, a, e, ppn, perm)
    ensures sq'.dir == sq.dir && forall k :: k in sq'.tables ==> KernelTable(k)
  {
    hide Entry, Kernel, KernelEntry, KernelTable, Half;
    forall k | k in sq'.tables ensures KernelTable(k) {
      if k !in sq.tables {
        var v :| a <= v < b && v / NPTENTRIES == k;
        assert RowAt(n, data, a, e, ppn, perm, v);
      }
    }
  }

  lemma RowStep(sq: Space, sq': Space, n: int, data: int, a: int, e: int, ppn: int, perm: int)
    requires Rows(sq, n, data) && 0 <= perm < PGSIZE && Extends(sq, sq', a, e, ppn, perm) && Row(n, data, a, e, ppn, perm)
    ensures Rows(sq', n + 1, data)
  {
    RowTables(sq, sq', n, data, a, e, e, ppn, perm);
    hide Entry, Kernel, KernelEntry, KernelTable, RowAt;
    var n' := n + 1;
    forall v ensures RowLeaf(sq', n', data, v) { RowLeafStep(sq, sq', n, data, a, e, ppn, perm, v); }
    RowsFrom(sq', n', data);
  }

  ghost predicate RowLeaf(sq: Space, n: int, data: int, v: int) {
    && (v >= KPAGE ==> (v in sq.leaves <==> Kernel(v, n, data)))
    && (v in sq.leaves ==> v >= KPAGE && sq.leaves[v] == KernelEntry(v, data))
  }

  lemma RowsFrom(sq: Space, n: int, data: int)
    requires (forall v :: RowLeaf(sq, n, data, v)) && forall k :: k in sq.tables ==> KernelTable(k)
    ensures Rows(sq, n, data)
  {
    hide Kernel, KernelEntry, KernelTable;
    forall v | v in sq.leaves ensures v >= KPAGE && sq.leaves[v] == KernelEntry(v, data) { assert RowLeaf(sq, n, data, v); }
    forall v | v >= KPAGE ensures v in sq.leaves <==> Kernel(v, n, data) { assert RowLeaf(sq, n, data, v); }
  }

  lemma RowLeafStep(sq: Space, sq': Space, n: int, data: int, a: int, e: int, ppn: int, perm: int, v: int)
    requires Rows(sq, n, data) && 0 <= perm < PGSIZE && Extends(sq, sq', a, e, ppn, perm) && Row(n, data, a, e, ppn, perm)
    ensures RowLeaf(sq', n + 1, data, v)
  {
    hide Entry, Kernel, KernelEntry, KernelTable;
    assert RowAt(n, data, a, e, ppn, perm, v);
    assert v in sq'.leaves <==> v in sq.leaves || a <= v < e;
    if a <= v < e { assert sq'.leaves[v] == Entry(ppn + v - a, perm); }
  }

  /** The pages of a row; none of them is mapped before. */
  lemma RowPages(sq: Space, n: int, data: int, r: Range)
    requires DataOk(data) && 0 <= n < 4 && r == Kmap(data)[n] && Rows(sq, n, data)
    ensures 0 < Size(r) && 0 <= r.virt && r.virt + Size(r) <= NPAGES * PGSIZE && 0 <= r.perm < PGSIZE && r.virt / PGSIZE <= (r.virt + Size(r) - 1) / PGSIZE
    ensures Row(n, data, r.virt / PGSIZE, (r.virt + Size(r) - 1) / PGSIZE + 1, r.start / PGSIZE, r.perm)
  {
    RowIs(n, data);
    hide Entry, Size, Kmap, Kernel, KernelEntry, KernelTable;
    var a, e, ppn, perm := r.virt / PGSIZE, (r.virt + Size(r) - 1) / PGSIZE + 1, r.start / PGSIZE, r.perm;
    forall v ensures RowAt(n, data, a, e, ppn, perm, v) { RowEntry(n, data, v); }
  }

  lemma RowFresh(sq: Space, n: int, data: int, a: int, e: int, ppn: int, perm: int, v: int)
    requires Rows(sq, n, data) && 0 <= perm < PGSIZE && Row(n, data, a, e, ppn, perm) && a <= v < e
    ensures v !in sq.leaves && KernelTable(v / NPTENTRIES)
  {
    hide Entry, Kernel, KernelEntry, KernelTable;
    assert RowAt(n, data, a, e, ppn, perm, v);
  }

  lemma {:induction false} AtMost(ks: set<int>, a: int, b: int)
    requires a <= b && forall k :: k in ks ==> a <= k < b
    ensures |ks| <= b - a && ((forall k :: a <= k < b ==> k in ks) ==> |ks| == b - a)
    decreases b - a
  {
    if a < b {
      AtMost(ks - {b - 1}, a, b - 1);
      if b - 1 !in ks { assert ks - {b - 1} == ks; }
    } else {
      assert forall k :: k !in ks;
      assert ks == {};
    }
  }

  /** At most KTABLES tables, and if it is all of them, exactly. */
  lemma CountTables(ks: set<int>)
    requires forall k :: k in ks ==> KernelTable(k)
    ensures |ks| <= KTABLES && ((forall k :: KernelTable(k) ==> k in ks) ==> |ks| == KTABLES)
  {
    var lo, hi := set k | k in ks && k < 568, set k | k in ks && k >= 568;
    AtMost(lo, 512, 568);
    AtMost(hi, 1016, 1024);
    assert ks == lo + hi && lo !! hi;
  }

  /** All rows mapped: all the tables are there. */
  lemma AllTables(mem: map<int, Page>, free: seq<int>, sq: Space, data: int)
    requires Rows(sq, 4, data) && Sound(mem, free, sq)
    ensures (forall k :: k in sq.tables <==> KernelTable(k)) && |sq.tables| == KTABLES
  {
    forall k | KernelTable(k) ensures k in sq.tables { TableThere(mem, free, sq, data, k); }
    hide Sound, KernelTable;
    CountTables(sq.tables.Keys);
  }

  lemma TableThere(mem: map<int, Page>, free: seq<int>, sq: Space, data: int, k: int)
    requires Rows(sq, 4, data) && Sound(mem, free, sq) && KernelTable(k)
    ensures k in sq.tables
  {
    hide Present, Skeleton, KernelEntry;
    var v := k * NPTENTRIES;
    assert v / NPTENTRIES == k;
    assert Kernel(v, 4, data);
    assert v in sq.leaves;
  }

  /** A table is missing: fewer than all. */
  lemma MissingTable(sq: Space, k: int)
    requires KernelTable(k) && k !in sq.tables && forall j :: j in sq.tables ==> KernelTable(j)
    ensures |sq.tables| < KTABLES
  {
    hide KernelTable;
    CountTables(sq.tables.Keys + {k});
  }

  /** One iteration of setupkvm's loop. */
  method MapRow(m: Memory, ghost sq: Space, d: int, ghost n: int, ghost data: int, r: Range) returns (ok: bool, panic: bool, ghost sq': Space)
    requires m.Valid() && Sound(m.mem, m.free, sq) && d == sq.dir && DataOk(data) && 0 <= n < 4 && r == Kmap(data)[n] && Rows(sq, n, data)
    modifies m
    ensures m.Valid() && m.mem.Keys == old(m.mem).Keys && !panic && sq'.dir == d
    ensures Sound(m.mem, m.free, sq') && Took(old(m.free), m.free, sq, sq')
    ensures ok ==> Rows(sq', n + 1, data)
    ensures !ok ==> m.free == [] && |sq'.tables| < KTABLES
    ensures forall x :: x in m.mem && x !in Skeleton(sq') ==> m.mem[x] == old(m.mem)[x]
  {
    hide Sound, Took, Extends, Skeleton, Rows, Row, Size, KernelTable, Kmap, DataOk;
    RowPages(sq, n, data, r);
    ghost var a, e, ppn, perm := r.virt / PGSIZE, (r.virt + Size(r) - 1) / PGSIZE + 1, r.start / PGSIZE, r.perm;
    var z;
    z, panic, sq' := Mappages(m, sq, d, r.virt, Size(r), r.start / PGSIZE, r.perm);
    if panic {
      ghost var v :| a <= v < e && v in sq.leaves;
      RowFresh(sq, n, data, a, e, ppn, perm, v);
      return false, panic, sq';
    }
    ok := z >= 0;
    if ok {
      RowStep(sq, sq', n, data, a, e, ppn, perm);
      RowTables(sq, sq', n, data, a, e, e, ppn, perm);
    } else {
      ghost var b :| a <= b < e && Extends(sq, sq', a, b, ppn, perm) && b / NPTENTRIES !in sq'.tables;
      RowTables(sq, sq', n, data, a, b, e, ppn, perm);
      RowFresh(sq, n, data, a, e, ppn, perm, b);
      MissingTable(sq', b / NPTENTRIES);
    }
  }

  /** setupkvm.  d: the directory, or 0 when there are fewer than KNEED pages, and then all of
      them are gone.  taken: how many pages were taken, from the head of the list. */
  method Setupkvm(m: Memory, data: int) returns (d: int, panic: bool, ghost sq: Space, ghost taken: nat)
    requires m.Valid() && DataOk(data)
    modifies m
    ensures m.Valid() && !panic && m.mem.Keys == old(m.mem).Keys && taken <= |old(m.free)| && m.free == old(m.free)[taken..]
    ensures forall x :: x in m.mem && x !in old(m.free)[..taken] ==> m.mem[x] == old(m.mem)[x]
    ensures d == 0 <==> |old(m.free)| < KNEED
    ensures d == 0 ==> m.free == []
    ensures d != 0 ==>
              && taken == KNEED && sq.dir == d && Sound(m.mem, m.free, sq) && Skeleton(sq) == SetOf(old(m.free)[..taken])
              && (forall v :: v in sq.leaves ==> v >= KPAGE) && Half(sq, 4, data)
              && (forall k :: k in sq.tables <==> KernelTable(k)) && |sq.tables| == KTABLES
  {
    hide Sound, Took, Skeleton, Rows, Half, KernelTable, DataOk, SetOf;
    panic := false;
    ghost var free0 := m.free;
    d := m.Alloc();
    sq := Space(d, map[], map[]);
    if d == 0 {
      taken := 0;
      return;
    }
    ghost var mem0, fl, free1 := m.mem, m.freelist, m.free;
    m.mem := m.mem[d := Filled(0)];
    ChainFrame(mem0, m.mem, fl, m.free);
    EmptySpace(mem0, d, m.free);
    RowsNone(d, data);
    var kmap := Kmap(data);
    var n := 0;
    while n < |kmap|
      invariant 0 <= n <= 4 && m.Valid() && m.mem.Keys == mem0.Keys && sq.dir == d
      invariant Sound(m.mem, m.free, sq) && Rows(sq, n, data) && Took(free1, m.free, Space(d, map[], map[]), sq)
      invariant forall x :: x in m.mem && x !in Skeleton(sq) ==> m.mem[x] == mem0[x]
    {
      ghost var sq1, free2 := sq, m.free;
      var ok;
      ok, panic, sq := MapRow(m, sq, d, n, data, kmap[n]);
      TookMore(free1, free2, m.free, Space(d, map[], map[]), sq1, sq);
      TookGrows(free2, m.free, sq1, sq);
      if !ok {
        taken := |free0|;
        TookAll(d, free0, free1, m.free, sq);
        return 0, false, sq, taken;
      }
      n := n + 1;
    }
    AllTables(m.mem, m.free, sq, data);
    RowsAre(sq, data);
    taken := KNEED;
    TookAll(d, free0, free1, m.free, sq);
  }

  lemma EmptySpace(mem: map<int, Page>, d: int, free: seq<int>)
    requires d in mem && d != 0 && d !in free
    ensures Sound(mem[d := Filled(0)], free, Space(d, map[], map[])) && Took(free, free, Space(d, map[], map[]), Space(d, map[], map[]))
    ensures Skeleton(Space(d, map[], map[])) == {d}
  {
    assert free[..0] == [] && SetOf(free[..0]) == {};
  }

  lemma RowsAre(sq: Space, data: int)
    requires Rows(sq, 4, data)
    ensures Half(sq, 4, data) && forall v :: v in sq.leaves ==> v >= KPAGE
  {}

  /** The directory and the tables are the pages taken. */
  lemma TookAll(d: int, free0: seq<int>, free1: seq<int>, free: seq<int>, sq: Space)
    requires free0 == [d] + free1 && Took(free1, free, Space(d, map[], map[]), sq)
    ensures var taken := 1 + |sq.tables|;
            taken <= |free0| && |free0| == taken + |free| && free == free0[taken..] && Skeleton(sq) == SetOf(free0[..taken])
    ensures forall x :: x in Skeleton(sq) <==> x in free0[..1 + |sq.tables|]
  {
    var c := |free1| - |free|;
    assert Space(d, map[], map[]).tables == map[];
    assert c == |sq.tables|;
    assert free0[..1 + c] == [d] + free1[..c];
    assert SetOf([d] + free1[..c]) == {d} + SetOf(free1[..c]);
    assert Skeleton(Space(d, map[], map[])) == {d};
  }
}
