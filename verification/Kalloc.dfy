/** kalloc.c: physical pages, the free ones chained through their first word. */
module Kalloc {
  const NPTENTRIES := 1024

  /** A page as 1024 words. */
  type Page = p: seq<int> | |p| == NPTENTRIES witness seq(NPTENTRIES, _ => 0)

  function Filled(w: int): Page {
    seq(NPTENTRIES, _ => w)
  }

  /** The free pages fl, in order, hang on head; page number 0 is the null pointer. */
  ghost predicate Chain(mem: map<int, Page>, head: int, fl: seq<int>)
    decreases |fl|
  {
    if fl == [] then head == 0
    else head == fl[0] && head != 0 && head in mem && head !in fl[1..] && Chain(mem, mem[head][0], fl[1..])
  }

  /** Writing pages off the chain leaves it alone. */
  lemma {:induction false} ChainFrame(mem: map<int, Page>, mem': map<int, Page>, head: int, fl: seq<int>)
    requires Chain(mem, head, fl) && forall x :: x in fl && x in mem ==> x in mem' && mem'[x] == mem[x]
    ensures Chain(mem', head, fl)
    decreases |fl|
  {
    if fl != [] {
      assert head in fl;
      ChainFrame(mem, mem', mem[head][0], fl[1..]);
    }
  }

  lemma {:induction false} ChainIn(mem: map<int, Page>, head: int, fl: seq<int>)
    requires Chain(mem, head, fl)
    ensures forall x :: x in fl ==> x in mem && x != 0
    ensures forall i, j :: 0 <= i < j < |fl| ==> fl[i] != fl[j]
    decreases |fl|
  {
    if fl != [] {
      ChainIn(mem, mem[head][0], fl[1..]);
      assert fl == [head] + fl[1..];
    }
  }

  class Memory {
    var mem: map<int, Page>
    var freelist: int
    ghost var free: seq<int>

    ghost predicate Valid()
      reads this
    {
      Chain(mem, freelist, free)
    }

    /** A free page taken off the list, or 0 when there is none. */
    method Alloc() returns (r: int)
      requires Valid()
      modifies this`freelist, this`free
      ensures Valid() && (r == 0 <==> old(free) == [])
      ensures r == 0 ==> free == old(free)
      ensures r != 0 ==> old(free) == [r] + free && r !in free && r in mem
    {
      r := freelist;
      if r != 0 {
        freelist := mem[r][0];
        free := free[1..];
      }
    }

    /** A page given back, filled with junk.  false stands for the panic "kfree". */
    method Release(v: int) returns (ok: bool)
      requires Valid() && v !in free && v != 0
      modifies this
      ensures ok <==> v in old(mem)
      ensures !ok ==> mem == old(mem) && free == old(free)
      ensures Valid() && mem.Keys == old(mem).Keys && (ok ==> free == [v] + old(free))
      ensures forall x :: x in mem && x != v ==> mem[x] == old(mem)[x]
    {
      if v !in mem {
        return false;
      }
      var page := Filled(0x0101_0101)[0 := freelist];
      ghost var mem0 := mem;
      mem := mem[v := page];
      ChainFrame(mem0, mem, freelist, free);
      freelist := v;
      free := [v] + free;
      return true;
    }

    /** Every whole page between two addresses becomes free. */
    method Freerange(vstart: nat, vend: nat) returns (ok: bool)
      requires Valid() && vstart > 0 && forall v :: Within(v, vstart, vend) ==> v in mem && v !in free
      modifies this
      ensures ok && Valid() && mem.Keys == old(mem).Keys
      ensures forall v :: v in free <==> v in old(free) || Within(v, vstart, vend)
    {
      var p := (vstart + 4095) / 4096;
      ghost var p0 := p;
      while (p + 1) * 4096 <= vend
        invariant p0 <= p && (p == p0 || p * 4096 <= vend) && Valid() && mem.Keys == old(mem).Keys
        invariant forall v :: v in free <==> v in old(free) || p0 <= v < p
        decreases vend - p * 4096
      {
        assert Within(p, vstart, vend);
        ok := Release(p);
        if !ok {
          return;
        }
        p := p + 1;
      }
      forall v ensures Within(v, vstart, vend) <==> p0 <= v < p {}
      ok := true;
    }
  }

  /** Page v lies between the two addresses. */
  predicate Within(v: int, vstart: int, vend: int) {
    vstart <= v * 4096 && (v + 1) * 4096 <= vend
  }
}
