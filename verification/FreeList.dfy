/** The free list of umalloc.c as a value: blocks in address order, the sentinel
    `base` (size 0) first.  Addresses and sizes are in units of sizeof(Header). */
module FreeList {

  datatype Blk = Blk(addr: int, size: int)

  /** Address-ordered, disjoint and fully coalesced: neighbours never touch. */
  ghost predicate Ok(fl: seq<Blk>) {
    && fl != [] && fl[0].size == 0
    && (forall i :: 0 < i < |fl| ==> fl[i].size > 0)
    && (forall i, j :: 0 <= i < j < |fl| ==> fl[i].addr + fl[i].size < fl[j].addr)
  }

  ghost predicate In(b: Blk, u: int) {
    b.addr <= u < b.addr + b.size
  }

  /** Unit u is free. */
  ghost predicate Covers(fl: seq<Blk>, u: int) {
    exists i :: 0 <= i < |fl| && In(fl[i], u)
  }

  ghost predicate Apart(b: Blk, c: Blk) {
    b.addr + b.size <= c.addr || c.addr + c.size <= b.addr
  }

  /** b can be freed: above the sentinel and apart from every free block. */
  ghost predicate Freeable(fl: seq<Blk>, b: Blk) {
    b.size > 0 && fl != [] && fl[0].addr < b.addr && forall i :: 0 < i < |fl| ==> Apart(fl[i], b)
  }

  /** k is the list position after which b belongs. */
  predicate At(fl: seq<Blk>, k: nat, b: Blk) {
    k < |fl| && fl[k].addr < b.addr && (k + 1 < |fl| ==> b.addr < fl[k + 1].addr)
  }

  /** b touches the block after place k. */
  predicate Up(fl: seq<Blk>, k: nat, b: Blk)
    requires k < |fl|
  {
    k + 1 < |fl| && b.addr + b.size == fl[k + 1].addr
  }

  /** b touches the block at place k. */
  predicate Down(fl: seq<Blk>, k: nat, b: Blk)
    requires k < |fl|
  {
    fl[k].addr + fl[k].size == b.addr
  }

  /** b joined with the neighbours it touches. */
  function Joined(fl: seq<Blk>, k: nat, b: Blk): Blk
    requires k < |fl|
  {
    Blk(if Down(fl, k, b) then fl[k].addr else b.addr,
        b.size + (if Down(fl, k, b) then fl[k].size else 0) + (if Up(fl, k, b) then fl[k + 1].size else 0))
  }

  /** What free makes of the list. */
  function Insert(fl: seq<Blk>, k: nat, b: Blk): (r: seq<Blk>)
    requires k < |fl|
  {
    fl[..if Down(fl, k, b) then k else k + 1] + [Joined(fl, k, b)] + fl[if Up(fl, k, b) then k + 2 else k + 1..]
  }

  /** The joined block lies strictly between what stays on its left and on its right. */
  lemma JoinedFits(fl: seq<Blk>, k: nat, b: Blk, i: nat)
    requires Ok(fl) && Freeable(fl, b) && At(fl, k, b) && i < |fl|
    ensures (i < k || (i == k && !Down(fl, k, b))) ==> fl[i].addr + fl[i].size < Joined(fl, k, b).addr
    ensures (i > k + 1 || (i == k + 1 && !Up(fl, k, b))) ==> Joined(fl, k, b).addr + Joined(fl, k, b).size < fl[i].addr
    ensures Joined(fl, k, b).size > 0 && !Down(fl, 0, b)
  {
    assert k > 0 ==> Apart(fl[k], b);
    assert k + 1 < |fl| ==> Apart(fl[k + 1], b);
  }

  lemma InsertOk(fl: seq<Blk>, k: nat, b: Blk)
    requires Ok(fl) && Freeable(fl, b) && At(fl, k, b)
    ensures Ok(Insert(fl, k, b)) && Insert(fl, k, b)[0] == fl[0]
  {
    var r := Insert(fl, k, b);
    var c := if Down(fl, k, b) then k else k + 1;
    var d := if Up(fl, k, b) then k + 2 else k + 1;
    forall i | 0 <= i < |fl| ensures
        && (i < c ==> fl[i].addr + fl[i].size < Joined(fl, k, b).addr)
        && (i >= d ==> Joined(fl, k, b).addr + Joined(fl, k, b).size < fl[i].addr)
        && Joined(fl, k, b).size > 0 && c > 0
    {
      JoinedFits(fl, k, b, i);
    }
    hide Down, Up, Joined, Insert;
    Spliced(fl, c, Joined(fl, k, b), d);
  }

  lemma Spliced(fl: seq<Blk>, c: nat, b: Blk, d: nat)
    requires Ok(fl) && 0 < c <= d <= |fl| && b.size > 0
    requires forall i :: 0 <= i < c ==> fl[i].addr + fl[i].size < b.addr
    requires forall i :: d <= i < |fl| ==> b.addr + b.size < fl[i].addr
    ensures Ok(fl[..c] + [b] + fl[d..]) && (fl[..c] + [b] + fl[d..])[0] == fl[0]
  {}

  /** Freeing adds exactly the units of b. */
  lemma InsertCovers(fl: seq<Blk>, k: nat, b: Blk, u: int)
    requires Ok(fl) && Freeable(fl, b) && At(fl, k, b)
    ensures Covers(Insert(fl, k, b), u) <==> Covers(fl, u) || In(b, u)
  {
    var c := if Down(fl, k, b) then k else k + 1;
    var d := if Up(fl, k, b) then k + 2 else k + 1;
    SplicedCovers(fl, c, Joined(fl, k, b), d, u);
    forall i | c <= i < d && In(fl[i], u) ensures In(Joined(fl, k, b), u) {}
    if In(Joined(fl, k, b), u) && !In(b, u) {
      assert In(fl[if u < b.addr then k else k + 1], u);
    }
  }

  lemma SplicedCovers(fl: seq<Blk>, c: nat, b: Blk, d: nat, u: int)
    requires c <= d <= |fl|
    ensures Covers(fl[..c] + [b] + fl[d..], u) <==>
              In(b, u) || exists i :: (0 <= i < c || d <= i < |fl|) && In(fl[i], u)
  {
    var r := fl[..c] + [b] + fl[d..];
    if In(b, u) { assert In(r[c], u); }
    if i :| (0 <= i < c || d <= i < |fl|) && In(fl[i], u) { assert In(r[if i < c then i else i - d + c + 1], u); }
    if i :| 0 <= i < |r| && In(r[i], u) && i != c { assert In(fl[if i < c then i else i - c - 1 + d], u); }
  }

  lemma JoinedApart(fl: seq<Blk>, k: nat, b: Blk, x: Blk)
    requires Ok(fl) && Freeable(fl, b) && At(fl, k, b) && Freeable(fl, x) && Apart(b, x)
    ensures Apart(Joined(fl, k, b), x) && !Down(fl, 0, b)
  {
    assert k > 0 ==> Apart(fl[k], x);
    assert k + 1 < |fl| ==> Apart(fl[k + 1], x);
  }

  lemma SplicedApart(fl: seq<Blk>, c: nat, b: Blk, d: nat, x: Blk)
    requires 0 < c <= d <= |fl| && Freeable(fl, x) && Apart(b, x)
    ensures Freeable(fl[..c] + [b] + fl[d..], x)
  {
    var r := fl[..c] + [b] + fl[d..];
    forall i | 0 < i < |r| ensures Apart(r[i], x) {
      if i < c { assert r[i] == fl[i]; } else if i > c { assert r[i] == fl[i - c - 1 + d]; }
    }
  }

  /** A block apart from the free ones and from b stays apart when b is freed. */
  lemma InsertApart(fl: seq<Blk>, k: nat, b: Blk, x: Blk)
    requires Ok(fl) && Freeable(fl, b) && At(fl, k, b) && Freeable(fl, x) && Apart(b, x)
    ensures Freeable(Insert(fl, k, b), x)
  {
    JoinedApart(fl, k, b, x);
    SplicedApart(fl, if Down(fl, k, b) then k else k + 1, Joined(fl, k, b), if Up(fl, k, b) then k + 2 else k + 1, x);
  }

  /** What malloc makes of the list: block j unlinked, or its tail cut off. */
  function Take(fl: seq<Blk>, j: nat, n: int): (r: seq<Blk>)
    requires j < |fl|
  {
    if fl[j].size == n then fl[..j] + fl[j + 1..]
    else fl[j := Blk(fl[j].addr, fl[j].size - n)]
  }

  /** The block malloc hands out. */
  function Taken(fl: seq<Blk>, j: nat, n: int): Blk
    requires j < |fl|
  {
    Blk(fl[j].addr + fl[j].size - n, n)
  }

  lemma TakeOk(fl: seq<Blk>, j: nat, n: int)
    requires Ok(fl) && 0 < j < |fl| && 0 < n <= fl[j].size
    ensures Ok(Take(fl, j, n)) && Take(fl, j, n)[0] == fl[0]
  {
    var r := Take(fl, j, n);
    if fl[j].size == n {
      assert forall i :: j <= i < |r| ==> r[i] == fl[i + 1];
      assert forall i :: 0 <= i < j ==> r[i] == fl[i];
    }
  }

  /** Allocating removes exactly the units handed out, which were free. */
  lemma TakeCovers(fl: seq<Blk>, j: nat, n: int, u: int)
    requires Ok(fl) && 0 < j < |fl| && 0 < n <= fl[j].size
    ensures Covers(Take(fl, j, n), u) <==> Covers(fl, u) && !In(Taken(fl, j, n), u)
    ensures In(Taken(fl, j, n), u) ==> Covers(fl, u)
  {
    var r := Take(fl, j, n);
    if In(Taken(fl, j, n), u) { assert In(fl[j], u); }
    if i :| 0 <= i < |fl| && In(fl[i], u) {
      if !In(Taken(fl, j, n), u) {
        assert r[if fl[j].size == n && i > j then i - 1 else i] == if i == j then Blk(fl[j].addr, fl[j].size - n) else fl[i];
      }
    }
    if i :| 0 <= i < |r| && In(r[i], u) {
      var i' := if fl[j].size == n && i >= j then i + 1 else i;
      assert In(fl[i'], u);
    }
  }

  /** The block handed out is apart from the free ones, and what was apart from them stays so, also from it. */
  lemma TakeApart(fl: seq<Blk>, j: nat, n: int)
    requires Ok(fl) && 0 < j < |fl| && 0 < n <= fl[j].size
    ensures Freeable(Take(fl, j, n), Taken(fl, j, n))
    ensures forall x :: Freeable(fl, x) ==> Freeable(Take(fl, j, n), x) && Apart(Taken(fl, j, n), x)
  {
    var r := Take(fl, j, n);
    assert forall i :: 0 <= i < |r| ==> r[i].addr == fl[if fl[j].size == n && i >= j then i + 1 else i].addr;
    forall x | Freeable(fl, x) ensures Freeable(r, x) && Apart(Taken(fl, j, n), x) {
      assert Apart(fl[j], x);
      forall i | 0 < i < |r| ensures Apart(r[i], x) {
        assert Apart(fl[if fl[j].size == n && i >= j then i + 1 else i], x);
      }
    }
  }
}
