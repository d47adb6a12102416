/** umalloc.c: the Kernighan and Ritchie allocator, in place on header memory.
    Addresses are in units of sizeof(Header) = 8 bytes; 0 is the null pointer. */
module Umalloc {
  import opened FreeList
  import opened Options

  const UINT := 0x1_0000_0000
  const HDR := 8
  const MINUNITS := 4096

  /** union header */
  datatype Header = Header(ptr: int, size: int)

  type Memory = map<int, Header>

  function Succ(fl: seq<Blk>, i: nat): nat {
    if i + 1 < |fl| then i + 1 else 0
  }

  /** The header of block i is in memory and points to block j. */
  ghost predicate Points(mem: Memory, fl: seq<Blk>, i: nat, j: nat)
    requires i < |fl| && j < |fl|
  {
    fl[i].addr in mem && mem[fl[i].addr] == Header(fl[j].addr, fl[i].size)
  }

  /** The headers in memory form the circle fl. */
  ghost predicate Circle(mem: Memory, fl: seq<Blk>) {
    && (forall i :: 0 <= i < |fl| ==> fl[i].addr in mem && mem[fl[i].addr].size == fl[i].size)
    && (forall i :: 0 <= i < |fl| ==> Points(mem, fl, i, Succ(fl, i)))
  }

  /** What free's last ten lines do to memory, p being where the search stopped. */
  function Link(mem: Memory, p: int, bp: int): (r: Memory)
    requires p in mem && bp in mem && mem[p].ptr in mem
  {
    var q := mem[p].ptr;
    var h := if bp + mem[bp].size == q then Header(mem[q].ptr, mem[bp].size + mem[q].size) else Header(q, mem[bp].size);
    if p + mem[p].size == bp then mem[bp := h][p := Header(h.ptr, mem[p].size + h.size)]
    else mem[bp := h][p := Header(bp, mem[p].size)]
  }

  lemma SpliceCircle(mem: Memory, m: Memory, fl: seq<Blk>, c: nat, b: Blk, d: nat)
    requires Circle(mem, fl) && fl != [] && c <= d <= |fl|
    requires forall i :: 0 <= i < c - 1 || d <= i < |fl| ==> fl[i].addr in m && m[fl[i].addr] == mem[fl[i].addr]
    requires if c == 0 then b.addr == fl[0].addr else fl[c - 1].addr in m && m[fl[c - 1].addr] == Header(b.addr, fl[c - 1].size)
    requires b.addr in m && m[b.addr] == Header(if d < |fl| then fl[d].addr else fl[0].addr, b.size)
    ensures Circle(m, fl[..c] + [b] + fl[d..])
  {
    var r := fl[..c] + [b] + fl[d..];
    forall i | 0 <= i < |r| ensures Points(m, r, i, Succ(r, i)) {
      if i < c {
        assert Points(mem, fl, i, Succ(fl, i));
        assert r[i] == fl[i] && r[i + 1] == if i + 1 < c then fl[i + 1] else b;
      } else if i > c {
        assert Points(mem, fl, i - c - 1 + d, Succ(fl, i - c - 1 + d));
        assert r[i] == fl[i - c - 1 + d];
      }
    }
  }

  lemma LinkValues(mem: Memory, p: int, bp: int, q: int)
    requires p in mem && bp in mem && q in mem && mem[p].ptr == q && p != bp
    ensures var m := Link(mem, p, bp); var up := bp + mem[bp].size == q; var down := p + mem[p].size == bp;
            var a := if down then p else bp;
            && m.Keys == mem.Keys
            && (forall x :: x in mem && x != p && x != bp ==> m[x] == mem[x])
            && m[a] == Header(if up then mem[q].ptr else q, mem[bp].size + (if down then mem[p].size else 0) + (if up then mem[q].size else 0))
            && (!down ==> m[p] == Header(bp, mem[p].size))
  {}

  /** Place k of the list is the only header free's pointer surgery changes besides b's. */
  lemma LinkAt(mem: Memory, fl: seq<Blk>, k: nat, b: Blk)
    requires Ok(fl) && Circle(mem, fl) && Freeable(fl, b) && At(fl, k, b) && b.addr in mem && mem[b.addr].size == b.size
    ensures mem[fl[k].addr].ptr in mem
    ensures var m := Link(mem, fl[k].addr, b.addr); var j := Joined(fl, k, b); var d := if Up(fl, k, b) then k + 2 else k + 1;
            && (forall a :: a in mem && a != fl[k].addr && a != b.addr ==> a in m && m[a] == mem[a])
            && j.addr in m && m[j.addr] == Header(if d < |fl| then fl[d].addr else fl[0].addr, j.size)
            && (!Down(fl, k, b) ==> fl[k].addr in m && m[fl[k].addr] == Header(b.addr, fl[k].size))
  {
    var q := fl[Succ(fl, k)];
    assert Points(mem, fl, k, Succ(fl, k)) && Points(mem, fl, Succ(fl, k), Succ(fl, Succ(fl, k)));
    assert (b.addr + b.size == q.addr) == Up(fl, k, b);
    hide Ok, Circle, Freeable, Link;
    LinkValues(mem, fl[k].addr, b.addr, q.addr);
  }

  /** The pointer surgery of free implements Insert. */
  lemma LinkCircle(mem: Memory, fl: seq<Blk>, k: nat, b: Blk)
    requires Ok(fl) && Circle(mem, fl) && Freeable(fl, b) && At(fl, k, b) && b.addr in mem && mem[b.addr].size == b.size
    ensures mem[fl[k].addr].ptr in mem && Circle(Link(mem, fl[k].addr, b.addr), Insert(fl, k, b))
  {
    LinkAt(mem, fl, k, b);
    JoinedFits(fl, k, b, 0);
    forall i | 0 <= i < |fl| && i != k ensures fl[i].addr != fl[k].addr && fl[i].addr != b.addr {
      assert i > 0 ==> Apart(fl[i], b);
    }
    var c := if Down(fl, k, b) then k else k + 1;
    var m := Link(mem, fl[k].addr, b.addr);
    assert Points(mem, fl, c - 1, Succ(fl, c - 1));
    hide Link, Joined;
    SpliceCircle(mem, m, fl, c, Joined(fl, k, b), if Up(fl, k, b) then k + 2 else k + 1);
  }

  /** Steps along the circle from place i to place k. */
  function Dist(i: int, k: int, n: int): int {
    if i <= k then k - i else k - i + n
  }

  lemma {:induction false} Place(fl: seq<Blk>, b: Blk, n: nat) returns (k: nat)
    requires Ok(fl) && Freeable(fl, b) && 0 < n <= |fl| && (n < |fl| ==> b.addr < fl[n].addr)
    ensures At(fl, k, b)
  {
    if fl[n - 1].addr < b.addr {
      k := n - 1;
    } else {
      assert Apart(fl[n - 1], b);
      k := Place(fl, b, n - 1);
    }
  }

  lemma DistinctAddrs(fl: seq<Blk>)
    requires Ok(fl)
    ensures forall i, j :: 0 <= i < |fl| && 0 <= j < |fl| && i != j ==> fl[i].addr != fl[j].addr
  {}

  /** Unlinking block j. */
  lemma UnlinkCircle(mem: Memory, fl: seq<Blk>, j: nat)
    requires Ok(fl) && Circle(mem, fl) && 0 < j < |fl|
    ensures Circle(mem[fl[j - 1].addr := Header(mem[fl[j].addr].ptr, fl[j - 1].size)], fl[..j] + fl[j + 1..])
  {
    DistinctAddrs(fl);
    hide Ok;
    assert Points(mem, fl, j, Succ(fl, j));
    assert j > 1 ==> Points(mem, fl, j - 2, Succ(fl, j - 2));
    var m := mem[fl[j - 1].addr := Header(mem[fl[j].addr].ptr, fl[j - 1].size)];
    forall i | 0 <= i < |fl| && i != j - 1 ensures fl[i].addr in m && m[fl[i].addr] == mem[fl[i].addr] {}
    hide Circle;
    assert m[fl[j - 1].addr] == Header(fl[Succ(fl, j)].addr, fl[j - 1].size);
    SpliceCircle(mem, m, fl, j - 1, fl[j - 1], j + 1);
    assert fl[..j - 1] + [fl[j - 1]] + fl[j + 1..] == fl[..j] + fl[j + 1..];
  }

  /** Cutting the tail off block j. */
  lemma CutCircle(mem: Memory, fl: seq<Blk>, j: nat, n: int, h: Header)
    requires Ok(fl) && Circle(mem, fl) && 0 < j < |fl| && 0 < n < fl[j].size
    ensures Circle(mem[fl[j].addr := Header(mem[fl[j].addr].ptr, fl[j].size - n)][Taken(fl, j, n).addr := h], Take(fl, j, n))
  {
    DistinctAddrs(fl);
    forall i | 0 <= i < |fl| ensures fl[i].addr != Taken(fl, j, n).addr {}
    hide Ok, Taken;
    var r := Take(fl, j, n);
    var t := Taken(fl, j, n).addr;
    var m := mem[fl[j].addr := Header(mem[fl[j].addr].ptr, fl[j].size - n)][t := h];
    forall i | 0 <= i < |r| ensures Points(m, r, i, Succ(r, i)) {
      assert r[i].addr == fl[i].addr && r[Succ(r, i)].addr == fl[Succ(fl, i)].addr;
      assert Points(mem, fl, i, Succ(fl, i));
    }
  }

  // ----- sizes -----

  /** nunits of malloc, in 32-bit arithmetic. */
  function Units(nbytes: int): (n: int)
    requires 0 <= nbytes < UINT
  {
    ((nbytes + HDR - 1) % UINT) / HDR + 1
  }

  /** The argument of sbrk: an unsigned product converted to int. */
  function SbrkArg(nunits: int): (n: int)
    requires nunits >= 0
  {
    var n := ((if nunits < MINUNITS then MINUNITS else nunits) * HDR) % UINT;
    if n < UINT / 2 then n else n - UINT
  }

  /** The largest request malloc treats correctly. */
  const MAXREQUEST := 0x7FFF_FFF0

  /** malloc asks for enough units and no more, and sbrk for their bytes, exactly up to MAXREQUEST. */
  lemma RequestIff(nbytes: int)
    requires 0 <= nbytes < UINT
    ensures (Units(nbytes) - 1) * HDR >= nbytes && SbrkArg(Units(nbytes)) >= Units(nbytes) * HDR <==> nbytes <= MAXREQUEST
    ensures nbytes <= MAXREQUEST ==> (Units(nbytes) - 2) * HDR < nbytes
  {}

  // ----- the allocator -----

  ghost predicate AllocCovers(alloc: map<int, int>, u: int) {
    exists a :: a in alloc && a <= u < a + alloc[a]
  }

  ghost function Span(a: int, n: int): (s: set<int>)
    ensures forall u :: u in s <==> a <= u < a + n
    decreases n
  {
    if n <= 0 then {} else Span(a, n - 1) + {a + n - 1}
  }

  /** Allocated blocks are real, above the sentinel, and apart from each other and from the free ones. */
  ghost predicate AllocOk(mem: Memory, fl: seq<Blk>, alloc: map<int, int>) {
    && (forall a :: a in alloc ==> a in mem && mem[a].size == alloc[a] > 0)
    && (forall a :: a in alloc ==> Freeable(fl, Blk(a, alloc[a])))
    && (forall a, c :: a in alloc && c in alloc && a != c ==> Apart(Blk(a, alloc[a]), Blk(c, alloc[c])))
  }

  /** Every unit sbrk gave is free or allocated, and nothing else is. */
  ghost predicate Partition(fl: seq<Blk>, alloc: map<int, int>, units: set<int>) {
    forall u :: u in units <==> Covers(fl, u) || AllocCovers(alloc, u)
  }

  class Heap {
    const base: int
    var mem: Memory
    var freep: int
    ghost var fl: seq<Blk>
    ghost var alloc: map<int, int>
    ghost var units: set<int>

    /** The free list is set up and freep is on it. */
    ghost predicate Listed()
      reads this
    {
      && base > 0 && Ok(fl) && fl[0].addr == base && Circle(mem, fl)
      && exists i :: 0 <= i < |fl| && fl[i].addr == freep
    }

    ghost predicate Valid()
      reads this
    {
      && base > 0
      && (if freep == 0 then fl == [] && alloc == map[] && units == {}
          else Listed() && AllocOk(mem, fl, alloc) && Partition(fl, alloc, units))
    }

    /** The state of a program that has not called malloc yet. */
    constructor (base: int)
      requires base > 0
      ensures Valid() && freep == 0 && alloc == map[]
    {
      this.base := base;
      mem, freep, fl, alloc, units := map[], 0, [], map[], {};
    }

    /** The search loop of free; it ends on every such circle. */
    method Search(bp: int, ghost b: Blk) returns (p: int, ghost k: nat)
      requires Listed() && Freeable(fl, b) && b.addr == bp
      ensures At(fl, k, b) && p == fl[k].addr
      ensures exists i: nat :: i < |fl| && fl[i].addr == p && At(fl, i, b)
    {
      k := Place(fl, b, |fl|);
      p := freep;
      ghost var i: nat :| i < |fl| && fl[i].addr == freep;
      while !(bp > p && bp < mem[p].ptr)
        invariant 0 <= i < |fl| && p == fl[i].addr && Points(mem, fl, i, Succ(fl, i))
        decreases Dist(i, k, |fl|)
      {
        if p >= mem[p].ptr && (bp > p || bp < mem[p].ptr) {
          break;
        }
        p := mem[p].ptr;
        i := Succ(fl, i);
      }
      k := i;
    }

    /** free after its search: join with the upper neighbour, then with the lower. */
    method Join(p: int, bp: int)
      requires p in mem && bp in mem && mem[p].ptr in mem && p != bp
      modifies this`mem
      ensures mem == Link(old(mem), p, bp)
    {
      if bp + mem[bp].size == mem[p].ptr {
        mem := mem[bp := Header(mem[mem[p].ptr].ptr, mem[bp].size + mem[mem[p].ptr].size)];
      } else {
        mem := mem[bp := Header(mem[p].ptr, mem[bp].size)];
      }
      if p + mem[p].size == bp {
        mem := mem[p := Header(mem[bp].ptr, mem[p].size + mem[bp].size)];
      } else {
        mem := mem[p := Header(bp, mem[p].size)];
      }
    }

    /** free of the block at bp, whose header gives its size. */
    method Release(bp: int) returns (ghost k: nat)
      requires Listed() && bp in mem && Freeable(fl, Blk(bp, mem[bp].size))
      modifies this`mem, this`freep, this`fl
      ensures Listed()
      ensures At(old(fl), k, Blk(bp, old(mem[bp].size))) && freep == old(fl)[k].addr
      ensures fl == Insert(old(fl), k, Blk(bp, old(mem[bp].size)))
      ensures forall a :: a in old(mem) && a != bp && a != freep ==> a in mem && mem[a] == old(mem)[a]
    {
      hide Ok, Circle, Freeable, Insert, Link, At;
      ghost var b := Blk(bp, mem[bp].size);
      var p;
      p, k := Search(bp, b);
      Placed(fl, k, b);
      InsertOk(fl, k, b);
      LinkCircle(mem, fl, k, b);
      LinkAt(mem, fl, k, b);
      FreepListed(mem, fl, k, b);
      Join(p, bp);
      freep := p;
      fl := Insert(fl, k, b);
    }

    method Free(ap: int)
      requires Valid() && ap - 1 in alloc
      modifies this`mem, this`freep, this`fl, this`alloc
      ensures Valid() && alloc == old(alloc) - {ap - 1}
      ensures forall u :: Covers(fl, u) <==> Covers(old(fl), u) || In(Blk(ap - 1, old(alloc)[ap - 1]), u)
    {
      var bp := ap - 1;
      ghost var m, f, al, b := mem, fl, alloc, Blk(bp, alloc[bp]);
      ghost var k := Release(bp);
      alloc := alloc - {bp};
      hide Ok, Circle, Freeable, Insert, At, Covers, AllocCovers;
      forall u ensures Covers(fl, u) <==> Covers(f, u) || In(b, u) { InsertCovers(f, k, b, u); }
      FreeAlloc(m, mem, f, al, k, bp);
      FreePartition(f, fl, al, units, b);
    }

    /** morecore, sbrk answering with the address of nu new units or failing. */
    method Morecore(nunits: int, answer: Option<int>) returns (p: int)
      requires Valid() && freep != 0 && nunits > 0
      requires answer.Some? ==> answer.value > base && forall u :: u in units ==> u < answer.value
      modifies this`mem, this`freep, this`fl, this`units
      ensures Valid() && freep != 0
      ensures answer.None? ==> p == 0 && fl == old(fl) && units == old(units) && freep == old(freep)
      ensures answer.Some? ==>
                var nu := if nunits < MINUNITS then MINUNITS else nunits; var last := |old(fl)| - 1;
                && p == freep == old(fl)[last].addr && units == old(units) + Span(answer.value, nu)
                && fl == Insert(old(fl), last, Blk(answer.value, nu))
    {
      var nu := if nunits < MINUNITS then MINUNITS else nunits;
      if answer.None? {
        return 0;
      }
      var hp := answer.value;
      hide Ok, Circle, AllocOk, Partition, Insert, At, Freeable, Covers;
      ghost var f, b := fl, Blk(hp, nu);
      AboveAll(fl, alloc, units, hp);
      mem := mem[hp := Header(0, nu)];
      NewHeader(old(mem), mem, fl, alloc, hp);
      ghost var m := mem;
      ghost var k := Release(hp);
      p := freep;
      units := units + Span(hp, nu);
      OnlyLast(f, k, b);
      GrowAlloc(m, mem, f, alloc, k, hp, nu);
      GrowPartition(f, fl, alloc, old(units), units, k, b);
    }

    /** malloc on an exact fit: unlink block i. */
    method TakeWhole(prevp: int, p: int, ghost i: nat)
      requires Ok(fl) && Circle(mem, fl) && 0 < i < |fl| && p == fl[i].addr && prevp == fl[i - 1].addr
      modifies this`mem
      ensures Circle(mem, Take(fl, i, fl[i].size)) && p in mem && mem[p].size == fl[i].size
      ensures forall a :: a in old(mem) && a != prevp ==> a in mem && mem[a] == old(mem)[a]
    {
      UnlinkCircle(mem, fl, i);
      DistinctAddrs(fl);
      mem := mem[prevp := Header(mem[p].ptr, mem[prevp].size)];
    }

    /** malloc on a larger block: cut the tail off block i. */
    method TakeTail(p: int, n: int, ghost i: nat) returns (q: int)
      requires Ok(fl) && Circle(mem, fl) && 0 < i < |fl| && p == fl[i].addr && 0 < n < fl[i].size
      modifies this`mem
      ensures Circle(mem, Take(fl, i, n)) && q == Taken(fl, i, n).addr && q in mem && mem[q].size == n
      ensures forall a :: a in old(mem) && a != p && a != q ==> a in mem && mem[a] == old(mem)[a]
    {
      ghost var t := Taken(fl, i, n).addr;
      CutCircle(mem, fl, i, n, Header(if t in mem then mem[t].ptr else 0, n));
      mem := mem[p := Header(mem[p].ptr, mem[p].size - n)];
      q := p + mem[p].size;
      mem := mem[q := Header(if q in mem then mem[q].ptr else 0, n)];
    }

    /** malloc's end: hand out block i, or its tail, p being its address and prevp its predecessor's. */
    method Carve(prevp: int, p: int, n: int, ghost i: nat) returns (r: int)
      requires Valid() && freep != 0 && 0 < i < |fl| && p == fl[i].addr && prevp == fl[i - 1].addr && 0 < n <= fl[i].size
      modifies this`mem, this`freep, this`fl, this`alloc
      ensures Valid() && freep == prevp
      ensures fl == Take(old(fl), i, n) && r == Taken(old(fl), i, n).addr + 1
      ensures alloc == old(alloc)[r - 1 := n] && r - 1 !in old(alloc) && r > base
    {
      hide Freeable, Covers, AllocCovers, Ok;
      ghost var m, f, al := mem, fl, alloc;
      TakeOk(fl, i, n);
      Positive(fl, i);
      var q := p;
      if mem[p].size == n {
        TakeWhole(prevp, p, i);
      } else {
        q := TakeTail(p, n, i);
      }
      fl := Take(fl, i, n);
      assert fl[i - 1].addr == prevp;
      freep := prevp;
      alloc := alloc[q := n];
      hide Circle, Take;
      CarveAlloc(m, mem, f, al, i, n);
      CarvePartition(f, al, units, i, n);
      r := q + 1;
    }

    /** prevp and p are successive headers of the circle, at j and i, and no block from freep's
        successor, at f, up to p is large enough. */
    ghost predicate Scan(f: nat, j: nat, i: nat, prevp: int, p: int, n: int)
      reads this
    {
      && f < |fl| && fl[f].addr == freep && j < |fl| && i == Succ(fl, j) && prevp == fl[j].addr && p == fl[i].addr
      && Tried(fl, f, i, n)
    }

    lemma ScanStart(f: nat, n: int)
      requires Listed() && n > 0 && f < |fl| && fl[f].addr == freep
      ensures freep in mem && Scan(f, f, Succ(fl, f), freep, mem[freep].ptr, n)
    {
      hide Ok, Circle, Tried;
      Follow(mem, fl, f, n);
    }

    lemma ScanHere(f: nat, j: nat, i: nat, prevp: int, p: int, n: int)
      requires Listed() && n > 0 && Scan(f, j, i, prevp, p, n)
      ensures i < |fl| && p in mem && mem[p].size == fl[i].size && Dist(i, f, |fl|) >= 0
      ensures fl[i].size >= n ==> 0 < i && j == i - 1 && Chosen(fl, freep, f, i, n)
      ensures fl[i].size < n && p == freep ==> AllLess(fl, n)
      ensures fl[i].size < n && p != freep ==> Scan(f, i, Succ(fl, i), p, mem[p].ptr, n) && Dist(Succ(fl, i), f, |fl|) < Dist(i, f, |fl|)
    {
      hide Ok, Circle, Tried;
      Follow(mem, fl, i, n);
      if fl[i].size < n {
        if p == freep {
          SamePlace(fl, i, f);
          AllTried(fl, f, n);
        } else {
          OneMore(fl, f, i, n);
        }
      }
    }

    /** morecore in malloc: the search goes on after freep, on a list with a large enough block. */
    method Grow(n: int, answer: Option<int>) returns (p: int, ghost f: nat)
      requires Valid() && freep != 0 && n > 0
      requires answer.Some? ==> answer.value > base && forall u :: u in units ==> u < answer.value
      modifies this`mem, this`freep, this`fl, this`units
      ensures Valid() && freep != 0 && (p == 0 <==> answer.None?)
      ensures answer.None? ==> units == old(units)
      ensures answer.Some? ==> p == freep && f < |fl| && fl[f].addr == freep && !AllLess(fl, n)
      ensures answer.Some? ==> units == old(units) + Span(answer.value, if n < MINUNITS then MINUNITS else n)
    {
      hide Ok, Circle, AllocOk, Partition, Insert, Span;
      ghost var fl0 := fl;
      p := Morecore(n, answer);
      f := 0;
      if p != 0 {
        ghost var t := Grown(fl0, Blk(answer.value, if n < MINUNITS then MINUNITS else n));
        f :| f < |fl| && fl[f].addr == freep;
      }
    }

    /** malloc.  calls counts the calls of morecore; answer is what sbrk says to the first one,
        and no second one is ever made.  Without it, the block is the first large enough one
        on the circle after freep. */
    method Malloc(nbytes: int, answer: Option<int>) returns (r: int, ghost calls: nat)
      requires Valid() && 0 <= nbytes < UINT
      requires answer.Some? ==> answer.value > base && forall u :: u in units ==> u < answer.value
      requires answer.Some? ==> SbrkArg(Units(nbytes)) >= Units(nbytes) * HDR
      modifies this`mem, this`freep, this`fl, this`alloc, this`units
      ensures Valid() && calls <= 1
      ensures calls == 1 <==> AllLess(old(fl), Units(nbytes))
      ensures r == 0 <==> calls == 1 && answer.None?
      ensures r == 0 ==> alloc == old(alloc)
      ensures r != 0 ==> r - 1 !in old(alloc) && alloc == old(alloc)[r - 1 := Units(nbytes)]
      ensures calls == 0 ==> exists f: nat, i: nat :: Chosen(old(fl), old(freep), f, i, Units(nbytes)) && r == Taken(old(fl), i, Units(nbytes)).addr + 1
      ensures units == old(units) + if r == 0 || calls == 0 then {} else Span(answer.value, if Units(nbytes) < MINUNITS then MINUNITS else Units(nbytes))
    {
      hide Ok, Circle, Freeable, AllocOk, Partition, Units, SbrkArg, Taken, Take, Chosen, AllLess, Scan, Succ, Dist, Span;
      var nunits := Units(nbytes);
      UnitsPositive(nbytes);
      calls := 0;
      if freep == 0 {
        Setup();
        NoneLarge(base, nunits);
      }
      ghost var fl0, freep0 := fl, freep;
      ghost var f: nat :| f < |fl| && fl[f].addr == freep;
      ghost var j: nat, i: nat := f, Succ(fl, f);
      ScanStart(f, nunits);
      var prevp := freep;
      var p := mem[prevp].ptr;
      while true
        invariant Valid() && freep != 0 && alloc == old(alloc) && calls <= 1 && Scan(f, j, i, prevp, p, nunits)
        invariant calls == 0 ==> fl == fl0 && freep == freep0 && units == old(units)
        invariant calls == 1 ==> answer.Some? && !AllLess(fl, nunits) && AllLess(fl0, nunits)
        invariant calls == 1 ==> units == old(units) + Span(answer.value, if nunits < MINUNITS then MINUNITS else nunits)
        decreases 1 - calls, Dist(i, f, |fl|)
      {
        ScanHere(f, j, i, prevp, p, nunits);
        if mem[p].size >= nunits {
          ghost var f1 := fl;
          ScanIs(f, j, i, prevp, p, nunits);
          ChosenLarge(f1, freep, f, i, nunits);
          r := Carve(prevp, p, nunits, i);
          return;
        }
        if p == freep {
          p, f := Grow(nunits, answer);
          calls := calls + 1;
          if p == 0 {
            return 0, calls;
          }
          ScanStart(f, nunits);
          i := f;
        }
        prevp := p;
        p := mem[p].ptr;
        j, i := i, Succ(fl, i);
      }
    }

    lemma ScanIs(f: nat, j: nat, i: nat, prevp: int, p: int, n: int)
      requires Scan(f, j, i, prevp, p, n)
      ensures j < |fl| && prevp == fl[j].addr && i < |fl| && p == fl[i].addr
    {}

    /** malloc's first call: a list holding only the sentinel. */
    method Setup()
      requires Valid() && freep == 0
      modifies this`mem, this`freep, this`fl
      ensures Valid() && freep != 0 && fl == [Blk(base, 0)]
    {
      mem := mem[base := Header(base, 0)];
      freep := base;
      fl := [Blk(base, 0)];
      assert fl[0].addr == freep && Points(mem, fl, 0, Succ(fl, 0));
    }
  }

  lemma Positive(fl: seq<Blk>, i: nat)
    requires Ok(fl) && 0 < i < |fl|
    ensures fl[0].addr < fl[i].addr && (i > 1 ==> fl[0].addr < fl[i - 1].addr)
  {}

  lemma Placed(fl: seq<Blk>, k: nat, b: Blk)
    requires Ok(fl) && Freeable(fl, b) && At(fl, k, b)
    ensures k < |fl| && fl[k].addr != b.addr
  {}

  lemma FreepListed(mem: Memory, fl: seq<Blk>, k: nat, b: Blk)
    requires Ok(fl) && Freeable(fl, b) && At(fl, k, b) && Circle(mem, fl)
    ensures fl[k].addr in mem
    ensures exists i :: 0 <= i < |Insert(fl, k, b)| && Insert(fl, k, b)[i].addr == fl[k].addr
  {
    assert Insert(fl, k, b)[k].addr == fl[k].addr;
  }

  lemma FreeAlloc(m: Memory, m': Memory, fl: seq<Blk>, alloc: map<int, int>, k: nat, bp: int)
    requires Ok(fl) && AllocOk(m, fl, alloc) && bp in alloc && At(fl, k, Blk(bp, alloc[bp]))
    requires forall a :: a in m && a != bp && a != fl[k].addr ==> a in m' && m'[a] == m[a]
    ensures AllocOk(m', Insert(fl, k, Blk(bp, alloc[bp])), alloc - {bp})
  {
    var b := Blk(bp, alloc[bp]);
    hide Ok, Insert, At;
    forall a | a in alloc && a != bp ensures a in m' && m'[a] == m[a] && Freeable(Insert(fl, k, b), Blk(a, alloc[a])) {
      NotListed(fl, k, Blk(a, alloc[a]));
      InsertApart(fl, k, b, Blk(a, alloc[a]));
    }
  }

  lemma NotListed(fl: seq<Blk>, k: nat, b: Blk)
    requires Ok(fl) && Freeable(fl, b) && k < |fl|
    ensures fl[k].addr != b.addr
  {
    assert k > 0 ==> Apart(fl[k], b);
  }

  lemma FreePartition(fl: seq<Blk>, fl': seq<Blk>, alloc: map<int, int>, units: set<int>, b: Blk)
    requires b.addr in alloc && alloc[b.addr] == b.size && Partition(fl, alloc, units)
    requires forall u :: Covers(fl', u) <==> Covers(fl, u) || In(b, u)
    ensures Partition(fl', alloc - {b.addr}, units)
  {
    forall u ensures AllocCovers(alloc, u) ==> In(b, u) || AllocCovers(alloc - {b.addr}, u) {
      if a :| a in alloc && a <= u < a + alloc[a] && a != b.addr { assert a in alloc - {b.addr}; }
    }
    forall u | In(b, u) ensures AllocCovers(alloc, u) {}
    forall u | AllocCovers(alloc - {b.addr}, u) ensures AllocCovers(alloc, u) {
      var a :| a in alloc - {b.addr} && a <= u < a + alloc[a];
      assert a in alloc;
    }
  }

  /** The new units lie above everything the heap holds. */
  lemma AboveAll(fl: seq<Blk>, alloc: map<int, int>, units: set<int>, hp: int)
    requires Ok(fl) && fl[0].addr < hp && Partition(fl, alloc, units) && forall u :: u in units ==> u < hp
    requires forall a :: a in alloc ==> alloc[a] > 0
    ensures forall i :: 0 <= i < |fl| ==> fl[i].addr + fl[i].size <= hp && fl[i].addr < hp
    ensures forall a :: a in alloc ==> a + alloc[a] <= hp
    ensures forall n :: n > 0 ==> Freeable(fl, Blk(hp, n))
  {
    forall i | 0 < i < |fl| ensures fl[i].addr + fl[i].size <= hp {
      assert In(fl[i], fl[i].addr + fl[i].size - 1);
      assert Covers(fl, fl[i].addr + fl[i].size - 1);
    }
    forall a | a in alloc ensures a + alloc[a] <= hp {
      assert AllocCovers(alloc, a + alloc[a] - 1);
    }
  }

  lemma NewHeader(m: Memory, m': Memory, fl: seq<Blk>, alloc: map<int, int>, hp: int)
    requires Circle(m, fl) && AllocOk(m, fl, alloc) && m'.Keys == m.Keys + {hp} && forall a :: a in m && a != hp ==> m'[a] == m[a]
    requires forall i :: 0 <= i < |fl| ==> fl[i].addr < hp
    requires forall a :: a in alloc ==> a < hp
    ensures Circle(m', fl) && AllocOk(m', fl, alloc)
  {
    hide Freeable;
    forall i | 0 <= i < |fl| ensures Points(m', fl, i, Succ(fl, i)) { assert Points(m, fl, i, Succ(fl, i)); }
  }

  lemma OnlyLast(fl: seq<Blk>, k: nat, b: Blk)
    requires Ok(fl) && At(fl, k, b) && forall i :: 0 <= i < |fl| ==> fl[i].addr < b.addr
    ensures k == |fl| - 1
  {}

  lemma GrowAlloc(m: Memory, m': Memory, fl: seq<Blk>, alloc: map<int, int>, k: nat, hp: int, nu: int)
    requires Ok(fl) && AllocOk(m, fl, alloc) && At(fl, k, Blk(hp, nu)) && Freeable(fl, Blk(hp, nu))
    requires forall a :: a in m && a != hp && a != fl[k].addr ==> a in m' && m'[a] == m[a]
    requires forall a :: a in alloc ==> a + alloc[a] <= hp
    ensures AllocOk(m', Insert(fl, k, Blk(hp, nu)), alloc)
  {
    var b := Blk(hp, nu);
    assert k < |fl|;
    hide Ok, Insert, At;
    forall a | a in alloc ensures a in m' && m'[a] == m[a] && Freeable(Insert(fl, k, b), Blk(a, alloc[a])) {
      NotListed(fl, k, Blk(a, alloc[a]));
      InsertApart(fl, k, b, Blk(a, alloc[a]));
    }
  }

  lemma GrowPartition(fl: seq<Blk>, fl': seq<Blk>, alloc: map<int, int>, units: set<int>, units': set<int>, k: nat, b: Blk)
    requires Ok(fl) && Freeable(fl, b) && At(fl, k, b) && fl' == Insert(fl, k, b) && Partition(fl, alloc, units)
    requires units' == units + Span(b.addr, b.size)
    ensures Partition(fl', alloc, units')
  {
    hide Covers, AllocCovers, Insert, Ok, Freeable, At;
    forall u ensures Covers(fl', u) <==> Covers(fl, u) || In(b, u) { InsertCovers(fl, k, b, u); }
  }

  lemma CarveAlloc(m: Memory, m': Memory, fl: seq<Blk>, alloc: map<int, int>, i: nat, n: int)
    requires Ok(fl) && AllocOk(m, fl, alloc) && 0 < i < |fl| && 0 < n <= fl[i].size
    requires var q := Taken(fl, i, n).addr;
             && q in m' && m'[q].size == n
             && forall a :: a in m && a != fl[i - 1].addr && a != fl[i].addr && a != q ==> a in m' && m'[a] == m[a]
    ensures Taken(fl, i, n).addr !in alloc && AllocOk(m', Take(fl, i, n), alloc[Taken(fl, i, n).addr := n])
  {
    var q := Taken(fl, i, n);
    TakeApart(fl, i, n);
    forall a | a in alloc ensures a != q.addr && a in m' && m'[a] == m[a] {
      assert Apart(q, Blk(a, alloc[a]));
      NotListed(fl, i, Blk(a, alloc[a]));
      NotListed(fl, i - 1, Blk(a, alloc[a]));
    }
    hide Ok, Freeable, Take;
  }

  lemma CarvePartition(fl: seq<Blk>, alloc: map<int, int>, units: set<int>, i: nat, n: int)
    requires Ok(fl) && Partition(fl, alloc, units) && 0 < i < |fl| && 0 < n <= fl[i].size && Taken(fl, i, n).addr !in alloc
    ensures Partition(Take(fl, i, n), alloc[Taken(fl, i, n).addr := n], units)
  {
    var q := Taken(fl, i, n);
    var al := alloc[q.addr := n];
    forall u ensures AllocCovers(al, u) <==> AllocCovers(alloc, u) || In(q, u) {
      if a :| a in alloc && a <= u < a + alloc[a] { assert a in al && al[a] == alloc[a]; }
      if In(q, u) { assert q.addr in al; }
    }
    hide Covers, AllocCovers, Take, Ok;
    forall u ensures Covers(Take(fl, i, n), u) <==> Covers(fl, u) && !In(q, u) { TakeCovers(fl, i, n, u); }
    forall u | In(q, u) ensures Covers(fl, u) { TakeCovers(fl, i, n, u); }
  }

  /** The blocks from f's successor up to i, i excluded, are too small. */
  ghost predicate Tried(fl: seq<Blk>, f: nat, i: nat, n: int) {
    forall x :: 0 <= x < |fl| && Dist(Succ(fl, f), x, |fl|) < Dist(Succ(fl, f), i, |fl|) ==> fl[x].size < n
  }

  /** Place i is the first on the circle after freep's with at least n units. */
  ghost predicate Chosen(fl: seq<Blk>, freep: int, f: nat, i: nat, n: int) {
    f < |fl| && 0 < i < |fl| && fl[f].addr == freep && Tried(fl, f, i, n) && 0 < n <= fl[i].size
  }

  ghost predicate AllLess(fl: seq<Blk>, n: int) {
    forall i :: 0 <= i < |fl| ==> fl[i].size < n
  }

  lemma ChosenLarge(fl: seq<Blk>, freep: int, f: nat, i: nat, n: int)
    requires Chosen(fl, freep, f, i, n)
    ensures !AllLess(fl, n) && 0 < n <= fl[i].size && 0 < i < |fl|
  {}

  /** On the list of the sentinel alone nothing is large enough, as on no list. */
  lemma NoneLarge(base: int, n: int)
    requires n > 0
    ensures AllLess([Blk(base, 0)], n) && AllLess([], n)
  {}

  lemma UnitsPositive(nbytes: int)
    requires 0 <= nbytes < UINT
    ensures Units(nbytes) > 0
  {}

  lemma SamePlace(fl: seq<Blk>, i: nat, f: nat)
    requires Ok(fl) && i < |fl| && f < |fl| && fl[i].addr == fl[f].addr
    ensures i == f
  {}

  lemma Follow(mem: Memory, fl: seq<Blk>, i: nat, n: int)
    requires Ok(fl) && Circle(mem, fl) && i < |fl| && n > 0
    ensures Points(mem, fl, i, Succ(fl, i)) && (fl[i].size >= n ==> i > 0) && Tried(fl, i, Succ(fl, i), n)
  {}

  lemma OneMore(fl: seq<Blk>, f: nat, i: nat, n: int)
    requires f < |fl| && i < |fl| && i != f && Tried(fl, f, i, n) && fl[i].size < n
    ensures Tried(fl, f, Succ(fl, i), n) && Dist(Succ(fl, i), f, |fl|) < Dist(i, f, |fl|)
  {}

  lemma AllTried(fl: seq<Blk>, f: nat, n: int)
    requires f < |fl| && Tried(fl, f, f, n) && fl[f].size < n
    ensures forall x :: 0 <= x < |fl| ==> fl[x].size < n
  {}

  /** Where the memory morecore got went. */
  lemma Grown(fl: seq<Blk>, b: Blk) returns (t: nat)
    requires Ok(fl) && b.size > 0
    ensures t < |Insert(fl, |fl| - 1, b)| && Insert(fl, |fl| - 1, b)[t].size >= b.size
    ensures t == |fl| - 1 || t == Succ(Insert(fl, |fl| - 1, b), |fl| - 1)
    ensures |fl| <= |Insert(fl, |fl| - 1, b)| && Insert(fl, |fl| - 1, b)[|fl| - 1].addr == fl[|fl| - 1].addr
  {
    t := if Down(fl, |fl| - 1, b) then |fl| - 1 else |fl|;
  }
}
