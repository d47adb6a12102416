/** bio.c as written: a circular doubly linked list of buffer objects through a
    sentinel, updated in place.  Every method is proved against the value-level
    operation of the same name in module BufferCache. */
module Bio {
  import opened Blocks
  import opened MemDisk
  import BufferCache

  /** struct buf: the links, and the rest of the record in `buf`. */
  class Node {
    var buf: Buf
    var prev: Node
    var next: Node

    constructor (id: nat)
      ensures prev == this && next == this && buf == Fresh(id)
    {
      buf := Fresh(id);
      prev, next := this, this;
    }
  }

  function Fresh(id: nat): Buf {
    Buf(id, BufferCache.NODEV, 0, false, false, false, ZeroBlock())
  }

  /** What binit leaves: the last buffer first. */
  ghost function FreshBufs(n: nat): (v: seq<Buf>)
    ensures |v| == n && forall i :: 0 <= i < n ==> v[i] == Fresh(n - 1 - i)
  {
    seq(n, i requires 0 <= i < n => Fresh(n - 1 - i))
  }

  datatype Status = Ok | Asleep | Panic

  /** The list s in order between head and head. */
  ghost predicate Linked(head: Node, s: seq<Node>)
    reads {head}`prev, {head}`next, s`prev, s`next
  {
    && head !in s
    && (forall i, j :: 0 <= i < j < |s| ==> s[i] != s[j])
    && (forall i, j :: 0 <= i < j < |s| && j == i + 1 ==> s[i].next == s[j] && s[j].prev == s[i])
    && (if s == [] then head.next == head && head.prev == head
        else head.next == s[0] && s[0].prev == head && head.prev == s[|s| - 1] && s[|s| - 1].next == head)
  }

  /** v is what the buffers of the list hold, in order. */
  ghost predicate Shows(s: seq<Node>, v: seq<Buf>)
    reads s`buf
  {
    |v| == |s| && forall k :: 0 <= k < |s| ==> s[k].buf == v[k]
  }

  lemma ShowsMoved(s: seq<Node>, v: seq<Buf>, i: nat)
    requires Shows(s, v) && i < |s|
    ensures Shows([s[i]] + (s[..i] + s[i + 1..]), [v[i]] + v[..i] + v[i + 1..])
  {}

  /** Take b out of the list (bio.c:131-132). */
  method Unlink(head: Node, ghost s: seq<Node>, b: Node, ghost i: nat)
    requires Linked(head, s) && i < |s| && s[i] == b
    modifies {head}`prev, {head}`next, s`prev, s`next
    ensures Linked(head, s[..i] + s[i + 1..])
  {
    assert b.next == (if i + 1 < |s| then s[i + 1] else head);
    assert b.prev == (if i > 0 then s[i - 1] else head);
    ghost var t := s[..i] + s[i + 1..];
    assert forall k :: 0 <= k < |t| ==> t[k] == s[if k < i then k else k + 1];
    b.next.prev := b.prev;
    b.prev.next := b.next;
  }

  /** Put b in front (bio.c:133-136, and the body of binit's loop). */
  method PushFront(head: Node, ghost s: seq<Node>, b: Node)
    requires Linked(head, s) && b !in s && b != head
    modifies b`prev, b`next, {head}`prev, {head}`next, s`prev, s`next
    ensures Linked(head, [b] + s)
  {
    b.next := head.next;
    b.prev := head;
    head.next.prev := b;
    head.next := b;
  }

  /** brelse's move of buffer i to the front. */
  method MoveToFront(head: Node, ghost s: seq<Node>, b: Node, ghost i: nat)
    requires Linked(head, s) && i < |s| && s[i] == b
    modifies {head}`prev, {head}`next, s`prev, s`next
    ensures Linked(head, [b] + (s[..i] + s[i + 1..]))
  {
    Unlink(head, s, b, i);
    PushFront(head, s[..i] + s[i + 1..], b);
  }

  /** The body of binit's loop. */
  method AddBuf(head: Node, ghost s: seq<Node>, id: nat) returns (b: Node)
    requires Linked(head, s)
    modifies {head}`prev, {head}`next, s`prev, s`next
    ensures fresh(b) && b.buf == Fresh(id) && Linked(head, [b] + s)
  {
    b := new Node(id);
    PushFront(head, s, b);
  }

  /** The buffers in order of initialisation, the last one first. */
  ghost predicate Counted(s: seq<Node>)
    reads s`buf
  {
    forall i :: 0 <= i < |s| ==> s[i].buf == Fresh(|s| - 1 - i)
  }

  lemma LinkedNone(head: Node)
    requires head.next == head && head.prev == head
    ensures Linked(head, []) && Counted([])
  {}

  lemma CountedMore(b: Node, s: seq<Node>)
    requires Counted(s) && b.buf == Fresh(|s|)
    ensures Counted([b] + s)
  {
    hide Fresh;
  }

  lemma CountedShows(s: seq<Node>)
    requires Counted(s)
    ensures Shows(s, FreshBufs(|s|))
  {
    hide Fresh;
  }

  /** binit */
  method Binit(n: nat) returns (head: Node, ghost lru: seq<Node>)
    ensures fresh(head) && fresh(lru) && Linked(head, lru)
    ensures Shows(lru, FreshBufs(n))
  {
    hide Linked, Counted, Shows, Fresh, FreshBufs;
    head := new Node(n);
    lru := [];
    LinkedNone(head);
    var k := 0;
    while k < n
      invariant 0 <= k <= n && |lru| == k && fresh(head) && fresh(lru) && Linked(head, lru) && Counted(lru)
    {
      var b := AddBuf(head, lru, k);
      CountedMore(b, lru);
      lru := [b] + lru;
      k := k + 1;
    }
    CountedShows(lru);
  }

  /** The forward scan of bget. */
  method Lookup(head: Node, ghost s: seq<Node>, ghost v: seq<Buf>, a: Addr) returns (b: Node)
    requires Linked(head, s) && Shows(s, v)
    ensures var k := BufferCache.Find(v, a); b == if k < |s| then s[k] else head
  {
    b := head.next;
    ghost var k := 0;
    while b != head && !(b.buf.dev == a.0 && b.buf.blockno == a.1)
      invariant 0 <= k <= |s| && b == (if k < |s| then s[k] else head)
      invariant forall j :: 0 <= j < k ==> Key(v[j]) != a
      decreases |s| - k
    {
      b := b.next;
      k := k + 1;
    }
    FoundAt(v, a, k);
  }

  /** The backward scan of bget. */
  method Scan(head: Node, ghost s: seq<Node>, ghost v: seq<Buf>) returns (b: Node)
    requires Linked(head, s) && Shows(s, v)
    ensures var k := BufferCache.Victim(v); b == if k >= 0 then s[k] else head
  {
    b := head.prev;
    ghost var k := |s| - 1;
    while b != head && (b.buf.busy || b.buf.dirty)
      invariant -1 <= k < |s| && b == (if k >= 0 then s[k] else head)
      invariant forall j :: k < j < |s| ==> !BufferCache.Idle(v[j])
      decreases k
    {
      b := b.prev;
      k := k - 1;
    }
    VictimAt(v, k);
  }

  class Bcache {
    const head: Node
    var disk: Disk
    ghost var lru: seq<Node>
    ghost var vals: seq<Buf>

    ghost predicate Valid()
      reads this`lru, this`vals, {head}`prev, {head}`next, lru`prev, lru`next, lru`buf
    {
      Linked(head, lru) && Shows(lru, vals)
    }

    ghost function Abs(): BufferCache.Cache
      reads this`vals, this`disk
    {
      BufferCache.Cache(vals, disk)
    }

    constructor (d: Disk)
      ensures Valid() && fresh(head) && fresh(lru) && disk == d
      ensures vals == FreshBufs(NBUF)
    {
      hide Linked, Shows, FreshBufs;
      var h, l := Binit(NBUF);
      head, lru, disk := h, l, d;
      vals := FreshBufs(NBUF);
    }

    /** Assign the fields of buffer b, which is at place i. */
    method Store(b: Node, ghost i: nat, v: Buf)
      requires Valid() && i < |lru| && lru[i] == b
      modifies this`vals, b`buf
      ensures Valid() && b.buf == v && vals == old(vals)[i := v]
    {
      b.buf := v;
      vals := vals[i := v];
    }

    /** One pass of bget under bcache.lock. */
    method Bget(a: Addr) returns (r: Status, b: Node)
      requires Valid()
      modifies this`vals, lru`buf
      ensures Valid()
      ensures match BufferCache.Bget(old(Abs()), a)
              case Got(c, i) => r == Ok && Abs() == c && i < |lru| && b == lru[i]
              case Sleep => r == Asleep && Abs() == old(Abs())
              case NoBuffers => r == Panic && Abs() == old(Abs())
              case IoPanic => false
    {
      b := Lookup(head, lru, vals, a);
      if b != head {
        if b.buf.busy {
          return Asleep, b;
        }
        Store(b, BufferCache.Find(vals, a), b.buf.(busy := true));
        return Ok, b;
      }
      b := Scan(head, lru, vals);
      if b == head {
        return Panic, b;
      }
      Store(b, BufferCache.Victim(vals), b.buf.(dev := a.0, blockno := a.1, busy := true, valid := false, dirty := false));
      return Ok, b;
    }

    /** iderw, the disk answering at once (memide.c). */
    method Sync(b: Node, ghost i: nat) returns (r: Status)
      requires Valid() && i < |lru| && lru[i] == b
      modifies this`disk, this`vals, b`buf
      ensures Valid()
      ensures match Iderw(old(vals)[i], old(disk))
              case None => r == Panic && Abs() == old(Abs())
              case Some((v, d)) => r == Ok && Abs() == BufferCache.Cache(old(vals)[i := v], d)
    {
      if !b.buf.busy || (b.buf.valid && !b.buf.dirty) || Key(b.buf) !in disk {
        return Panic;
      }
      if b.buf.dirty {
        disk := disk[Key(b.buf) := b.buf.data];
        Store(b, i, b.buf.(dirty := false, valid := true));
      } else {
        Store(b, i, b.buf.(data := disk[Key(b.buf)], valid := true));
      }
      return Ok;
    }

    method Bread(a: Addr) returns (r: Status, b: Node)
      requires Valid()
      modifies this`disk, this`vals, lru`buf
      ensures Valid()
      ensures match BufferCache.Bread(old(Abs()), a)
              case Got(c, i) => r == Ok && Abs() == c && i < |lru| && b == lru[i]
              case Sleep => r == Asleep && Abs() == old(Abs())
              case NoBuffers => r == Panic && Abs() == old(Abs())
              case IoPanic => r == Panic
    {
      r, b := Bget(a);
      if r == Ok && !b.buf.valid {
        r := Sync(b, BufferCache.Bget(old(Abs()), a).i);
      }
    }

    method Bwrite(b: Node, ghost i: nat) returns (r: Status)
      requires Valid() && i < |lru| && lru[i] == b
      modifies this`disk, this`vals, b`buf
      ensures Valid()
      ensures match BufferCache.Bwrite(old(Abs()), i, old(b.buf.data))
              case Some(c) => r == Ok && Abs() == c
              case None => r == Panic
    {
      if !b.buf.busy {
        return Panic;
      }
      Store(b, i, b.buf.(dirty := true));
      r := Sync(b, i);
    }

    method ToFront(b: Node, ghost i: nat)
      requires Valid() && i < |lru| && lru[i] == b
      modifies this`lru, this`vals, lru`prev, lru`next, head`prev, head`next
      ensures Valid()
      ensures vals == [old(vals)[i]] + old(vals)[..i] + old(vals)[i + 1..]
    {
      ghost var s, v := lru, vals;
      MoveToFront(head, s, b, i);
      ShowsMoved(s, v, i);
      lru := [b] + (s[..i] + s[i + 1..]);
      vals := [v[i]] + v[..i] + v[i + 1..];
    }

    method Brelse(b: Node, ghost i: nat) returns (r: Status)
      requires Valid() && i < |lru| && lru[i] == b
      modifies this`lru, this`vals, b`buf, lru`prev, lru`next, head`prev, head`next
      ensures Valid()
      ensures r == (if old(b.buf.busy) then Ok else Panic)
      ensures Abs() == if r == Ok then BufferCache.Brelse(old(Abs()), i) else old(Abs())
    {
      if !b.buf.busy {
        return Panic;
      }
      Store(b, i, b.buf.(busy := false));
      ToFront(b, i);
      return Ok;
    }
  }

  lemma FoundAt(bufs: seq<Buf>, a: Addr, k: nat)
    requires k <= |bufs| && (k < |bufs| ==> Key(bufs[k]) == a) && forall j :: 0 <= j < k ==> Key(bufs[j]) != a
    ensures BufferCache.Find(bufs, a) == k
  {}

  lemma VictimAt(bufs: seq<Buf>, k: int)
    requires -1 <= k < |bufs| && (k >= 0 ==> BufferCache.Idle(bufs[k]))
    requires forall j :: k < j < |bufs| ==> !BufferCache.Idle(bufs[j])
    ensures BufferCache.Victim(bufs) == k
  {}
}
