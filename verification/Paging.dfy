/** Two-level page tables as flat maps from virtual page numbers to entries. */
module Paging {
  import opened Kalloc

  const NPAGES := NPTENTRIES * NPTENTRIES
  const PGSIZE := 4096
  const KERNBASE := 0x8000_0000
  const KPAGE := KERNBASE / PGSIZE  // the first page of the kernel's half

  /** An address space: the directory page, the table pages by directory index, and the
      entries by virtual page number. */
  datatype Space = Space(dir: int, tables: map<int, int>, leaves: map<int, int>)

  predicate Present(e: int) {
    e % 2 == 1
  }

  function Ppn(e: int): int {
    e / PGSIZE
  }

  function Flags(e: int): int {
    e % PGSIZE
  }

  /** A physical page number with flags and the present bit. */
  function Entry(ppn: int, perm: int): (e: int)
    requires 0 <= perm < PGSIZE
    ensures Ppn(e) == ppn && Flags(e) == (if perm % 2 == 1 then perm else perm + 1) && Present(e)
  {
    ppn * PGSIZE + if perm % 2 == 1 then perm else perm + 1
  }

  function Vpn(i: int, j: int): int {
    i * NPTENTRIES + j
  }

  lemma VpnIs(v: int)
    requires 0 <= v < NPAGES
    ensures 0 <= v / NPTENTRIES < NPTENTRIES && Vpn(v / NPTENTRIES, v % NPTENTRIES) == v
  {}

  lemma VpnOne(i: int, j: int)
    requires 0 <= j < NPTENTRIES
    ensures Vpn(i, j) / NPTENTRIES == i && Vpn(i, j) % NPTENTRIES == j
  {}

  function DirWord(sp: Space, i: int): int {
    if i in sp.tables then sp.tables[i] * PGSIZE + 7 else 0
  }

  function LeafWord(sp: Space, v: int): int {
    if v in sp.leaves then sp.leaves[v] else 0
  }

  /** The pages of memory hold the tables of sp. */
  ghost predicate Rep(mem: map<int, Page>, sp: Space) {
    && sp.dir in mem && (forall i :: 0 <= i < NPTENTRIES ==> mem[sp.dir][i] == DirWord(sp, i))
    && (forall i :: i in sp.tables ==> 0 <= i < NPTENTRIES && sp.tables[i] in mem)
    && (forall i, j :: i in sp.tables && 0 <= j < NPTENTRIES ==> mem[sp.tables[i]][j] == LeafWord(sp, Vpn(i, j)))
    && (forall v :: v in sp.leaves ==> 0 <= v < NPAGES && v / NPTENTRIES in sp.tables && Present(sp.leaves[v]))
  }

  /** The directory and the tables are pages of their own. */
  ghost predicate Apart(sp: Space) {
    && sp.dir != 0
    && (forall i :: i in sp.tables ==> sp.tables[i] != 0 && sp.tables[i] != sp.dir)
    && (forall i, j :: i in sp.tables && j in sp.tables && i != j ==> sp.tables[i] != sp.tables[j])
  }

  ghost function Skeleton(sp: Space): set<int> {
    {sp.dir} + set i | i in sp.tables :: sp.tables[i]
  }

  /** Every user page is the space's own, and none holds tables.  (The kernel's half is the
      same in all spaces, and the pages it maps belong to none of them.) */
  ghost predicate Private(mem: map<int, Page>, sp: Space) {
    && (forall v :: v in sp.leaves && v < KPAGE ==> Ppn(sp.leaves[v]) in mem && Ppn(sp.leaves[v]) != 0 && Ppn(sp.leaves[v]) !in Skeleton(sp))
    && (forall v, w :: v in sp.leaves && w in sp.leaves && v < w < KPAGE ==> Ppn(sp.leaves[v]) != Ppn(sp.leaves[w]))
  }

  ghost function Mapped(sp: Space): set<int> {
    set v | v in sp.leaves && v < KPAGE :: Ppn(sp.leaves[v])
  }

  ghost function Own(sp: Space): set<int> {
    Skeleton(sp) + Mapped(sp)
  }

  /** A space none of whose table pages is free. */
  ghost predicate Sound(mem: map<int, Page>, free: seq<int>, sp: Space) {
    Rep(mem, sp) && Apart(sp) && forall x :: x in free ==> x !in Skeleton(sp)
  }

  /** A space whose user pages are private and none of which is free. */
  ghost predicate Whole(mem: map<int, Page>, free: seq<int>, sp: Space) {
    Sound(mem, free, sp) && Private(mem, sp) && forall x :: x in free ==> x !in Mapped(sp)
  }

  /** Pages outside the tables may change. */
  lemma RepFrame(mem: map<int, Page>, mem': map<int, Page>, sp: Space)
    requires Rep(mem, sp) && mem'.Keys == mem.Keys && forall x :: x in Skeleton(sp) && x in mem ==> mem'[x] == mem[x]
    ensures Rep(mem', sp)
  {
    assert sp.dir in Skeleton(sp) && mem'[sp.dir] == mem[sp.dir];
    forall i | i in sp.tables ensures sp.tables[i] in mem' && mem'[sp.tables[i]] == mem[sp.tables[i]] {
      var x := sp.tables[i];
      assert x in Skeleton(sp) && x in mem && x in mem';
    }
  }

  /** An entry of a table is set. */
  lemma SetEntry(mem: map<int, Page>, sp: Space, v: int, e: int)
    requires Rep(mem, sp) && Apart(sp) && 0 <= v < NPAGES && v / NPTENTRIES in sp.tables && Present(e)
    ensures sp.tables[v / NPTENTRIES] in mem
    ensures var t := sp.tables[v / NPTENTRIES];
            Rep(mem[t := mem[t][v % NPTENTRIES := e]], sp.(leaves := sp.leaves[v := e]))
  {
    hide Present;
    VpnIs(v);
    var t := sp.tables[v / NPTENTRIES];
    var sp' := sp.(leaves := sp.leaves[v := e]);
    var mem' := mem[t := mem[t][v % NPTENTRIES := e]];
    forall i, j | i in sp.tables && 0 <= j < NPTENTRIES ensures mem'[sp.tables[i]][j] == LeafWord(sp', Vpn(i, j)) { VpnOne(i, j); }
  }

  lemma ClearEntry(mem: map<int, Page>, sp: Space, v: int)
    requires Rep(mem, sp) && Apart(sp) && v in sp.leaves
    ensures v / NPTENTRIES in sp.tables && sp.tables[v / NPTENTRIES] in mem && 0 <= v < NPAGES
    ensures var t := sp.tables[v / NPTENTRIES];
            Rep(mem[t := mem[t][v % NPTENTRIES := 0]], sp.(leaves := sp.leaves - {v}))
  {
    hide Present;
    VpnIs(v);
    var t := sp.tables[v / NPTENTRIES];
    var sp' := sp.(leaves := sp.leaves - {v});
    var mem' := mem[t := mem[t][v % NPTENTRIES := 0]];
    forall i, j | i in sp.tables && 0 <= j < NPTENTRIES ensures mem'[sp.tables[i]][j] == LeafWord(sp', Vpn(i, j)) { VpnOne(i, j); }
  }

  /** A zeroed page becomes a table. */
  lemma NewTable(mem: map<int, Page>, sp: Space, i: int, t: int)
    requires Rep(mem, sp) && Apart(sp) && 0 <= i < NPTENTRIES && i !in sp.tables && t in mem && t != 0 && t !in Skeleton(sp)
    ensures sp.dir in mem
    ensures var sp' := sp.(tables := sp.tables[i := t]);
            var mem1 := mem[t := Filled(0)];
            Rep(mem1[sp.dir := mem1[sp.dir][i := t * PGSIZE + 7]], sp') && Apart(sp') && Skeleton(sp') == Skeleton(sp) + {t}
  {
    hide Present;
    var sp' := sp.(tables := sp.tables[i := t]);
    var mem1 := mem[t := Filled(0)];
    var mem' := mem1[sp.dir := mem1[sp.dir][i := t * PGSIZE + 7]];
    assert sp.dir in Skeleton(sp) && forall j :: j in sp.tables ==> sp.tables[j] in Skeleton(sp);
    forall k, j | k in sp'.tables && 0 <= j < NPTENTRIES ensures mem'[sp'.tables[k]][j] == LeafWord(sp', Vpn(k, j)) { VpnOne(k, j); }
    forall x ensures x in Skeleton(sp') <==> x in Skeleton(sp) + {t} {
      assert sp'.tables[i] == t;
      if k :| k in sp.tables && sp.tables[k] == x { assert sp'.tables[k] == x; }
      if k :| k in sp'.tables && sp'.tables[k] == x && k != i { assert sp.tables[k] == x; }
    }
  }
}
