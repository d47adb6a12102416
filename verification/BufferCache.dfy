/** bio.c on values: the cache is the list of its buffers, most recently
    released first, together with the disk below it. */
module BufferCache {
  import opened Blocks
  import opened MemDisk
  import opened Options

  /** binit gives every buffer this device number; no caller asks for it. */
  const NODEV := -1

  datatype Cache = Cache(bufs: seq<Buf>, disk: Disk)

  datatype Got = Got(c: Cache, i: nat) | Sleep | NoBuffers | IoPanic

  /** Index of the first buffer for address a, or |bufs|. */
  function Find(bufs: seq<Buf>, a: Addr): (i: nat)
    ensures i <= |bufs|
    ensures i < |bufs| ==> Key(bufs[i]) == a
    ensures forall k :: 0 <= k < i ==> Key(bufs[k]) != a
  {
    if bufs == [] || Key(bufs[0]) == a then 0 else 1 + Find(bufs[1..], a)
  }

  predicate Idle(b: Buf) {
    !b.busy && !b.dirty
  }

  /** Index of the last idle clean buffer, or -1: the backward scan of bget. */
  function Victim(bufs: seq<Buf>): (i: int)
    ensures -1 <= i < |bufs|
    ensures i >= 0 ==> Idle(bufs[i])
    ensures forall k :: i < k < |bufs| ==> !Idle(bufs[k])
  {
    if bufs == [] then -1
    else if Idle(bufs[|bufs| - 1]) then |bufs| - 1
    else Victim(bufs[..|bufs| - 1])
  }

  /** One pass of bget under bcache.lock; Sleep means the pass ended in sleep(). */
  function Bget(c: Cache, a: Addr): Got {
    var i := Find(c.bufs, a);
    if i < |c.bufs| then
      if c.bufs[i].busy then Sleep
      else Got(c.(bufs := c.bufs[i := c.bufs[i].(busy := true)]), i)
    else
      var v := Victim(c.bufs);
      if v < 0 then NoBuffers
      else Got(c.(bufs := c.bufs[v := c.bufs[v].(dev := a.0, blockno := a.1, busy := true, valid := false, dirty := false)]), v)
  }

  /** The tail of bread: fill the buffer from the disk unless it is valid. */
  function Fill(c: Cache, i: nat): Got
    requires i < |c.bufs|
  {
    if c.bufs[i].valid then Got(c, i)
    else match Iderw(c.bufs[i], c.disk)
      case None => IoPanic
      case Some((b, d)) => Got(Cache(c.bufs[i := b], d), i)
  }

  function Bread(c: Cache, a: Addr): Got {
    match Bget(c, a)
    case Got(c', i) => Fill(c', i)
    case r => r
  }

  /** Store data in a held buffer and mark it dirty, as log_write's callers do. */
  function Pin(c: Cache, i: nat, data: Block): (r: Cache)
    requires i < |c.bufs|
  {
    c.(bufs := c.bufs[i := c.bufs[i].(data := data, dirty := true)])
  }

  /** Store data in a held buffer and bwrite it. */
  function Bwrite(c: Cache, i: nat, data: Block): (r: Option<Cache>)
    requires i < |c.bufs|
  {
    match Iderw(c.bufs[i].(data := data, dirty := true), c.disk)
    case None => None
    case Some((b, d)) => Some(Cache(c.bufs[i := b], d))
  }

  /** brelse: clear B_BUSY and move to the front of the list. */
  function Brelse(c: Cache, i: nat): (r: Cache)
    requires i < |c.bufs|
  {
    c.(bufs := [c.bufs[i].(busy := false)] + c.bufs[..i] + c.bufs[i + 1..])
  }

  // ----- coherence -----

  ghost predicate Unique(bufs: seq<Buf>) {
    forall i, j :: 0 <= i < j < |bufs| && bufs[i].dev != NODEV ==> Key(bufs[i]) != Key(bufs[j])
  }

  ghost predicate BufOk(b: Buf, d: Disk) {
    && (b.dirty ==> b.valid)
    && (b.busy || b.valid ==> b.dev != NODEV)
    && (b.valid ==> Key(b) in d && (!b.dirty ==> b.data == d[Key(b)]))
  }

  ghost predicate Inv(c: Cache) {
    Unique(c.bufs) && forall i :: 0 <= i < |c.bufs| ==> BufOk(c.bufs[i], c.disk)
  }

  /** The contents the rest of the kernel sees at address a: the valid buffer if there is one. */
  function Latest(c: Cache, a: Addr): Block
    requires a in c.disk
  {
    var i := Find(c.bufs, a);
    if i < |c.bufs| && c.bufs[i].valid then c.bufs[i].data else c.disk[a]
  }

  ghost function View(c: Cache): Disk {
    map a | a in c.disk :: Latest(c, a)
  }

  /** The addresses of dirty buffers: what recycling must not touch. */
  ghost function Pinned(c: Cache): set<Addr> {
    set i | 0 <= i < |c.bufs| && c.bufs[i].dirty :: Key(c.bufs[i])
  }

  ghost function Held(c: Cache): set<Addr> {
    set i | 0 <= i < |c.bufs| && c.bufs[i].busy :: Key(c.bufs[i])
  }

  lemma FindUnique(bufs: seq<Buf>, i: nat)
    requires i < |bufs| && bufs[i].dev != NODEV && Unique(bufs)
    ensures Find(bufs, Key(bufs[i])) == i
  {}

  lemma LatestAt(c: Cache, i: nat)
    requires Inv(c) && i < |c.bufs| && c.bufs[i].valid
    ensures Key(c.bufs[i]) in c.disk && Latest(c, Key(c.bufs[i])) == c.bufs[i].data
  {
    FindUnique(c.bufs, i);
  }

  lemma LatestMiss(c: Cache, a: Addr)
    requires a in c.disk && forall k :: 0 <= k < |c.bufs| && Key(c.bufs[k]) == a ==> !c.bufs[k].valid
    ensures Latest(c, a) == c.disk[a]
  {}

  /** Only buffer i changed, from an idle or a same-address one. */
  ghost predicate OneSlot(c: Cache, c': Cache, i: nat) {
    && i < |c.bufs| == |c'.bufs| && c'.bufs == c.bufs[i := c'.bufs[i]] && c'.bufs[i].dev != NODEV
    && (Idle(c.bufs[i]) || Key(c.bufs[i]) == Key(c'.bufs[i]))
    && c'.disk.Keys == c.disk.Keys
    && (forall b :: b in c.disk && b != Key(c'.bufs[i]) ==> c'.disk[b] == c.disk[b])
  }

  /** Changing one buffer changes what is seen at the address it now holds, and nowhere else. */
  lemma LatestElsewhere(c: Cache, c': Cache, i: nat, b: Addr)
    requires Inv(c) && Inv(c') && OneSlot(c, c', i) && b in c.disk && b != Key(c'.bufs[i])
    ensures Latest(c', b) == Latest(c, b)
  {
    if k :| 0 <= k < |c.bufs| && Key(c.bufs[k]) == b && c.bufs[k].valid {
      LatestAt(c, k);
      if k == i { LatestMiss(c', b); } else { LatestAt(c', k); }
    } else {
      LatestMiss(c, b);
      LatestMiss(c', b);
    }
  }

  lemma ViewAfter(c: Cache, c': Cache, i: nat)
    requires Inv(c) && Inv(c') && OneSlot(c, c', i) && c'.bufs[i].valid
    ensures Key(c'.bufs[i]) in c.disk && View(c') == View(c)[Key(c'.bufs[i]) := c'.bufs[i].data]
  {
    LatestAt(c', i);
    forall b | b in c.disk && b != Key(c'.bufs[i]) ensures Latest(c', b) == Latest(c, b) {
      LatestElsewhere(c, c', i, b);
    }
  }

  /** What a successful bread did: only buffer i changed, and it was idle or already for a. */
  ghost predicate Took(c: Cache, a: Addr, c': Cache, i: nat) {
    && i < |c.bufs| == |c'.bufs| && c'.disk == c.disk && a in c.disk && a.0 != NODEV
    && c'.bufs == c.bufs[i := c'.bufs[i]]
    && Key(c'.bufs[i]) == a && c'.bufs[i].busy && c'.bufs[i].valid && !c.bufs[i].busy
    && (if Key(c.bufs[i]) == a && c.bufs[i].valid
        then c'.bufs[i] == c.bufs[i].(busy := true)
        else !c.bufs[i].dirty && !c'.bufs[i].dirty && c'.bufs[i].data == c.disk[a]
             && forall k :: 0 <= k < |c.bufs| && k != i ==> Key(c.bufs[k]) != a)
  }

  lemma BreadTook(c: Cache, a: Addr)
    requires Inv(c) && a.0 != NODEV && a in c.disk
    ensures match Bread(c, a)
            case Got(c', i) => Took(c, a, c', i)
            case Sleep => a in Held(c)
            case NoBuffers => (forall k :: 0 <= k < |c.bufs| ==> Key(c.bufs[k]) != a && !Idle(c.bufs[k]))
            case IoPanic => false
  {
    var f := Find(c.bufs, a);
    if f < |c.bufs| && c.bufs[f].busy {
      assert a in Held(c);
    } else if Bread(c, a).Got? {
      var i := Bread(c, a).i;
      assert i == if f < |c.bufs| then f else Victim(c.bufs);
      forall k | 0 <= k < |c.bufs| && k != i ensures Key(c.bufs[k]) != a {}
    }
  }

  lemma TookInv(c: Cache, a: Addr, c': Cache, i: nat)
    requires Inv(c) && Took(c, a, c', i)
    ensures Inv(c')
  {
    forall k | 0 <= k < |c.bufs| && k != i ensures c'.bufs[k] == c.bufs[k] && Key(c.bufs[k]) != a {}
  }

  lemma TookView(c: Cache, a: Addr, c': Cache, i: nat)
    requires Inv(c) && Took(c, a, c', i) && Inv(c')
    ensures View(c') == View(c) && c'.bufs[i].data == Latest(c, a)
  {
    ViewAfter(c, c', i);
    if Key(c.bufs[i]) == a && c.bufs[i].valid { LatestAt(c, i); } else { LatestMiss(c, a); }
  }

  /** bread: the caller gets the latest contents, exclusively; nothing else is disturbed. */
  lemma BreadSpec(c: Cache, a: Addr)
    requires Inv(c) && a.0 != NODEV && a in c.disk
    ensures match Bread(c, a)
            case Got(c', i) =>
              && Inv(c') && Took(c, a, c', i)
              && c'.bufs[i].data == Latest(c, a) && View(c') == View(c)
              && Pinned(c') == Pinned(c) && Held(c') == Held(c) + {a} && a !in Held(c)
            case Sleep => a in Held(c)
            case NoBuffers => (forall k :: 0 <= k < |c.bufs| ==> Key(c.bufs[k]) != a && !Idle(c.bufs[k]))
            case IoPanic => false
  {
    BreadTook(c, a);
    match Bread(c, a)
    case Got(c', i) =>
      TookInv(c, a, c', i);
      TookView(c, a, c', i);
      SetsAfter(c, c', i);
      NotHeld(c, a, c', i);
    case _ =>
  }

  lemma NotHeld(c: Cache, a: Addr, c': Cache, i: nat)
    requires Inv(c) && Took(c, a, c', i)
    ensures a !in Held(c) && (c'.bufs[i].dirty <==> a in Pinned(c))
  {}

  /** The pinned and held addresses after one buffer changed. */
  lemma SetsAfter(c: Cache, c': Cache, i: nat)
    requires OneSlot(c, c', i) && Unique(c'.bufs)
    ensures Pinned(c') == if c'.bufs[i].dirty then Pinned(c) + {Key(c'.bufs[i])} else Pinned(c) - {Key(c'.bufs[i])}
    ensures Held(c') == if c'.bufs[i].busy then Held(c) + {Key(c'.bufs[i])} else Held(c) - {Key(c'.bufs[i])}
  {
    var a := Key(c'.bufs[i]);
    forall k | 0 <= k < |c.bufs| && k != i ensures c'.bufs[k] == c.bufs[k] && Key(c.bufs[k]) != a {
      assert Key(c'.bufs[k]) != a;
    }
    forall x | x in Pinned(c) && x != a ensures x in Pinned(c') {
      var k :| 0 <= k < |c.bufs| && c.bufs[k].dirty && Key(c.bufs[k]) == x;
      assert c'.bufs[k] == c.bufs[k];
    }
    forall x | x in Held(c) && x != a ensures x in Held(c') {
      var k :| 0 <= k < |c.bufs| && c.bufs[k].busy && Key(c.bufs[k]) == x;
      assert c'.bufs[k] == c.bufs[k];
    }
  }

  lemma OneSlotInv(c: Cache, c': Cache, i: nat)
    requires Inv(c) && OneSlot(c, c', i) && BufOk(c'.bufs[i], c'.disk)
    requires forall k :: 0 <= k < |c.bufs| && k != i ==> Key(c.bufs[k]) != Key(c'.bufs[i])
    ensures Inv(c')
  {
    forall k | 0 <= k < |c.bufs| && k != i ensures c'.bufs[k] == c.bufs[k] && BufOk(c'.bufs[k], c'.disk) {}
  }

  /** log_write after a change of a held buffer: seen at once, pinned, not on disk. */
  lemma PinSpec(c: Cache, i: nat, data: Block)
    requires Inv(c) && i < |c.bufs| && c.bufs[i].busy && c.bufs[i].valid
    ensures var c' := Pin(c, i, data); var a := Key(c.bufs[i]);
            && Inv(c') && c'.disk == c.disk && a in c.disk
            && View(c') == View(c)[a := data] && Pinned(c') == Pinned(c) + {a} && Held(c') == Held(c)
  {
    var c' := Pin(c, i, data);
    OneSlotInv(c, c', i);
    ViewAfter(c, c', i);
    SetsAfter(c, c', i);
  }

  /** bwrite of a held buffer: seen at once, on disk, no longer pinned. */
  lemma BwriteSpec(c: Cache, i: nat, data: Block)
    requires Inv(c) && i < |c.bufs| && c.bufs[i].busy && Key(c.bufs[i]) in c.disk
    ensures Bwrite(c, i, data).Some?
    ensures var c' := Bwrite(c, i, data).value; var a := Key(c.bufs[i]);
            && Inv(c') && |c'.bufs| == |c.bufs| && Key(c'.bufs[i]) == a && c'.bufs[i].busy && c'.bufs[i].valid
            && c'.disk == c.disk[a := data]
            && View(c') == View(c)[a := data] && Pinned(c') == Pinned(c) - {a} && Held(c') == Held(c)
  {
    var c' := Bwrite(c, i, data).value;
    OneSlotInv(c, c', i);
    ViewAfter(c, c', i);
    SetsAfter(c, c', i);
  }

  /** Where the buffer at place k of the list was before buffer i moved to the front. */
  function Before(i: nat, k: nat): nat {
    if k == 0 then i else if k <= i then k - 1 else k
  }

  lemma BrelseInv(c: Cache, i: nat)
    requires Inv(c) && i < |c.bufs|
    ensures var c' := Brelse(c, i); Inv(c') && |c'.bufs| == |c.bufs|
    ensures forall k :: 0 <= k < |c.bufs| ==>
              Brelse(c, i).bufs[k] == if k == 0 then c.bufs[i].(busy := false) else c.bufs[Before(i, k)]
  {
    var c' := Brelse(c, i);
    forall k | 0 <= k < |c.bufs| ensures BufOk(c'.bufs[k], c'.disk) && Key(c'.bufs[k]) == Key(c.bufs[Before(i, k)]) {}
  }

  lemma BrelseLatest(c: Cache, i: nat, a: Addr)
    requires Inv(c) && i < |c.bufs| && a in c.disk
    ensures Latest(Brelse(c, i), a) == Latest(c, a)
  {
    var c' := Brelse(c, i);
    BrelseInv(c, i);
    if k :| 0 <= k < |c.bufs| && Key(c.bufs[k]) == a && c.bufs[k].valid {
      LatestAt(c, k);
      LatestAt(c', After(i, k));
    } else {
      LatestMiss(c, a);
      forall k | 0 <= k < |c.bufs| && Key(c'.bufs[k]) == a ensures !c'.bufs[k].valid {
        assert Key(c.bufs[Before(i, k)]) == a;
      }
      LatestMiss(c', a);
    }
  }

  /** brelse: nothing is lost, only the hold ends. */
  lemma BrelseSpec(c: Cache, i: nat)
    requires Inv(c) && i < |c.bufs| && c.bufs[i].busy
    ensures var c' := Brelse(c, i);
            && Inv(c') && c'.disk == c.disk && |c'.bufs| == |c.bufs|
            && View(c') == View(c) && Pinned(c') == Pinned(c) && Held(c') == Held(c) - {Key(c.bufs[i])}
  {
    BrelseInv(c, i);
    forall a | a in c.disk ensures Latest(Brelse(c, i), a) == Latest(c, a) { BrelseLatest(c, i, a); }
    BrelsePinned(c, i);
    BrelseHeld(c, i);
  }

  function After(i: nat, k: nat): nat {
    if k == i then 0 else if k < i then k + 1 else k
  }

  lemma BrelsePinned(c: Cache, i: nat)
    requires Inv(c) && i < |c.bufs|
    ensures Pinned(Brelse(c, i)) == Pinned(c)
  {
    var c' := Brelse(c, i);
    BrelseInv(c, i);
    hide Inv, Brelse;
    forall x | x in Pinned(c) ensures x in Pinned(c') {
      var k :| 0 <= k < |c.bufs| && c.bufs[k].dirty && Key(c.bufs[k]) == x;
      assert c'.bufs[After(i, k)].dirty;
    }
    forall x | x in Pinned(c') ensures x in Pinned(c) {
      var k :| 0 <= k < |c.bufs| && c'.bufs[k].dirty && Key(c'.bufs[k]) == x;
      assert c.bufs[Before(i, k)].dirty;
    }
  }

  lemma BrelseHeld(c: Cache, i: nat)
    requires Inv(c) && i < |c.bufs| && c.bufs[i].busy
    ensures Held(Brelse(c, i)) == Held(c) - {Key(c.bufs[i])}
  {
    var c' := Brelse(c, i);
    BrelseInv(c, i);
    hide BufOk;
    forall x | x in Held(c) && x != Key(c.bufs[i]) ensures x in Held(c') {
      var k :| 0 <= k < |c.bufs| && c.bufs[k].busy && Key(c.bufs[k]) == x;
      assert c'.bufs[After(i, k)].busy;
    }
    forall x | x in Held(c') ensures x in Held(c) && x != Key(c.bufs[i]) {
      var k :| 0 <= k < |c.bufs| && c'.bufs[k].busy && Key(c'.bufs[k]) == x;
      assert k > 0 && c.bufs[Before(i, k)].busy;
      OtherKey(c, i, Before(i, k));
    }
  }

  lemma OtherKey(c: Cache, i: nat, k: nat)
    requires Inv(c) && i < |c.bufs| && k < |c.bufs| && k != i && c.bufs[i].busy
    ensures Key(c.bufs[k]) != Key(c.bufs[i])
  {
    assert BufOk(c.bufs[i], c.disk);
  }
}
