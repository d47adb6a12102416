/** bio.c over whole runs: any interleaving of any number of processes, each step
    being one action under bcache.lock or one action of a buffer's holder. */
module CacheRuns {
  import opened Blocks
  import opened MemDisk
  import opened Options
  import opened BufferCache

  datatype Op =
    | Get(a: Addr)                    // bget returned
    | Load(a: Addr)                   // the iderw of bread returned
    | Update(a: Addr, data: Block)    // the holder changed the block and called log_write
    | Write(a: Addr, data: Block)     // the holder changed the block and called bwrite
    | Release(a: Addr)                // brelse

  /** None: the caller would sleep, panic, or does not hold the buffer. */
  function Step(c: Cache, op: Op): (r: Option<Cache>) {
    var i := Find(c.bufs, op.a);
    var held := i < |c.bufs| && c.bufs[i].busy;
    match op
    case Get(a) =>
      if a !in c.disk || a.0 == NODEV then None
      else (match Bget(c, a) case Got(c', _) => Some(c') case _ => None)
    case Load(a) =>
      if !held || a !in c.disk then None
      else (match Fill(c, i) case Got(c', _) => Some(c') case _ => None)
    case Update(a, data) => if held && c.bufs[i].valid then Some(Pin(c, i, data)) else None
    case Write(a, data) => if held && a in c.disk then Bwrite(c, i, data) else None
    case Release(a) => if held then Some(Brelse(c, i)) else None
  }

  function Exec(c: Cache, ops: seq<Op>): (r: Option<Cache>)
    decreases |ops|
  {
    if ops == [] then Some(c)
    else match Step(c, ops[0])
      case None => None
      case Some(c') => Exec(c', ops[1..])
  }

  /** The specification: the block contents after the changes in ops, in order. */
  function Writes(v: Disk, ops: seq<Op>): (w: Disk)
    decreases |ops|
  {
    if ops == [] then v
    else Writes(if ops[0].Update? || ops[0].Write? then v[ops[0].a := ops[0].data] else v, ops[1..])
  }

  /** binit: every buffer inserted at the front, none for a real device. */
  function Init(n: nat, d: Disk): (c: Cache) {
    Cache(seq(n, i requires 0 <= i < n => Buf(n - 1 - i, NODEV, 0, false, false, false, ZeroBlock())), d)
  }

  lemma InitInv(n: nat, d: Disk)
    ensures Inv(Init(n, d)) && View(Init(n, d)) == d && Pinned(Init(n, d)) == Held(Init(n, d)) == {}
  {
    forall a | a in d ensures Latest(Init(n, d), a) == d[a] { LatestMiss(Init(n, d), a); }
  }

  /** A buffer just taken, before it is filled: nothing visible changed. */
  lemma GetView(c: Cache, a: Addr)
    requires Inv(c) && a in c.disk && a.0 != NODEV && Bget(c, a).Got?
    ensures var c' := Bget(c, a).c; Inv(c') && View(c') == View(c) && c'.disk == c.disk
  {
    var c', i := Bget(c, a).c, Bget(c, a).i;
    assert OneSlot(c, c', i);
    OneSlotInv(c, c', i);
    forall b | b in c.disk ensures Latest(c', b) == Latest(c, b) {
      if b != a {
        LatestElsewhere(c, c', i, b);
      } else if c'.bufs[i].valid {
        LatestAt(c', i);
        LatestAt(c, i);
      } else {
        LatestMiss(c', b);
        LatestMiss(c, b);
      }
    }
  }

  lemma LoadView(c: Cache, i: nat)
    requires Inv(c) && i < |c.bufs| && c.bufs[i].busy && Key(c.bufs[i]) in c.disk
    ensures Fill(c, i).Got? && var c' := Fill(c, i).c; Inv(c') && View(c') == View(c) && c'.disk == c.disk
    ensures Fill(c, i).c.bufs[i].data == View(c)[Key(c.bufs[i])]
  {
    var c' := Fill(c, i).c;
    assert OneSlot(c, c', i);
    OneSlotInv(c, c', i);
    ViewAfter(c, c', i);
    if c.bufs[i].valid { LatestAt(c, i); } else { LatestMiss(c, Key(c.bufs[i])); }
  }

  lemma StepView(c: Cache, op: Op)
    requires Inv(c) && Step(c, op).Some?
    ensures var c' := Step(c, op).value; Inv(c') && View(c') == Writes(View(c), [op]) && c'.disk.Keys == c.disk.Keys
  {
    var i := Find(c.bufs, op.a);
    match op
    case Get(a) => GetView(c, a);
    case Load(a) => LoadView(c, i);
    case Update(_, data) => PinSpec(c, i, data);
    case Write(_, data) => BwriteSpec(c, i, data);
    case Release(_) => BrelseSpec(c, i);
  }

  /** In every run the cache stays coherent, with at most one buffer per real block, and
      shows exactly the changes made so far, in order. */
  lemma {:induction false} RunShowsWrites(c: Cache, ops: seq<Op>)
    requires Inv(c) && Exec(c, ops).Some?
    ensures Inv(Exec(c, ops).value) && Exec(c, ops).value.disk.Keys == c.disk.Keys
    ensures View(Exec(c, ops).value) == Writes(View(c), ops)
    decreases |ops|
  {
    if ops != [] {
      StepView(c, ops[0]);
      RunShowsWrites(Step(c, ops[0]).value, ops[1..]);
      assert Writes(View(c), ops) == Writes(Writes(View(c), [ops[0]]), ops[1..]);
    }
  }

  /** bread after any run from boot returns the last contents written at that address. */
  lemma ReadsLatest(n: nat, d: Disk, ops: seq<Op>, a: Addr)
    requires a in d && a.0 != NODEV && Exec(Init(n, d), ops).Some?
    requires Bread(Exec(Init(n, d), ops).value, a).Got?
    ensures a in Writes(d, ops)
    ensures var g := Bread(Exec(Init(n, d), ops).value, a);
            g.i < |g.c.bufs| && Key(g.c.bufs[g.i]) == a && g.c.bufs[g.i].data == Writes(d, ops)[a]
  {
    InitInv(n, d);
    RunShowsWrites(Init(n, d), ops);
    BreadSpec(Exec(Init(n, d), ops).value, a);
  }

  // ----- recency -----

  /** The ids of the buffers released by a run, in order. */
  function Released(c: Cache, ops: seq<Op>): (ids: seq<nat>)
    decreases |ops|
  {
    if ops == [] || Step(c, ops[0]).None? then []
    else
      var rest := Released(Step(c, ops[0]).value, ops[1..]);
      if ops[0].Release? then [c.bufs[Find(c.bufs, ops[0].a)].id] + rest else rest
  }

  /** Position of the last release of a buffer, -1 if it was never released. */
  function Last(rel: seq<nat>, id: nat): (k: int)
    ensures -1 <= k < |rel|
  {
    if rel == [] then -1
    else if rel[|rel| - 1] == id then |rel| - 1
    else Last(rel[..|rel| - 1], id)
  }

  ghost predicate Distinct(bufs: seq<Buf>) {
    forall i, j :: 0 <= i < j < |bufs| ==> bufs[i].id != bufs[j].id
  }

  /** Earlier in the list means released later (or neither was released). */
  ghost predicate ByRecency(bufs: seq<Buf>, rel: seq<nat>) {
    forall i, j :: 0 <= i < j < |bufs| ==>
      Last(rel, bufs[i].id) > Last(rel, bufs[j].id) || Last(rel, bufs[i].id) == Last(rel, bufs[j].id) == -1
  }

  lemma SameIds(c: Cache, op: Op)
    requires Step(c, op).Some? && !op.Release?
    ensures |Step(c, op).value.bufs| == |c.bufs|
    ensures forall k :: 0 <= k < |c.bufs| ==> Step(c, op).value.bufs[k].id == c.bufs[k].id
  {}

  lemma LastSnoc(rel: seq<nat>, x: nat, id: nat)
    ensures Last(rel + [x], id) == if id == x then |rel| else Last(rel, id)
  {
    assert (rel + [x])[..|rel|] == rel;
  }

  lemma BeforeIs(i: nat, j: nat, k: nat)
    requires j < k
    ensures Before(i, j) != Before(i, k) && Before(i, k) != i && (0 < j ==> Before(i, j) < Before(i, k))
  {}

  lemma ReleaseIds(c: Cache, i: nat, k: nat)
    requires i < |c.bufs| && k < |c.bufs|
    ensures |Brelse(c, i).bufs| == |c.bufs| && Before(i, k) < |c.bufs| && Brelse(c, i).bufs[k].id == c.bufs[Before(i, k)].id
  {}

  lemma ReleaseRecency(c: Cache, i: nat, rel: seq<nat>)
    requires Distinct(c.bufs) && ByRecency(c.bufs, rel) && i < |c.bufs|
    ensures var c' := Brelse(c, i); Distinct(c'.bufs) && ByRecency(c'.bufs, rel + [c.bufs[i].id])
  {
    hide Brelse, Last, Before;
    var c', x := Brelse(c, i), c.bufs[i].id;
    var rel' := rel + [x];
    ReleaseIds(c, i, 0);
    forall j, k | 0 <= j < k < |c'.bufs|
      ensures c'.bufs[j].id != c'.bufs[k].id
      ensures Last(rel', c'.bufs[j].id) > Last(rel', c'.bufs[k].id) || Last(rel', c'.bufs[j].id) == Last(rel', c'.bufs[k].id) == -1
    {
      ReleasedPair(c, i, rel, j, k);
    }
  }

  lemma ReleasedPair(c: Cache, i: nat, rel: seq<nat>, j: nat, k: nat)
    requires Distinct(c.bufs) && ByRecency(c.bufs, rel) && i < |c.bufs| && j < k < |c.bufs|
    ensures var c', rel' := Brelse(c, i), rel + [c.bufs[i].id];
            && |c'.bufs| == |c.bufs| && c'.bufs[j].id != c'.bufs[k].id
            && (Last(rel', c'.bufs[j].id) > Last(rel', c'.bufs[k].id) || Last(rel', c'.bufs[j].id) == Last(rel', c'.bufs[k].id) == -1)
  {
    hide Brelse, Last;
    var x := c.bufs[i].id;
    ReleaseIds(c, i, j);
    ReleaseIds(c, i, k);
    BeforeIs(i, j, k);
    LastSnoc(rel, x, c.bufs[Before(i, j)].id);
    LastSnoc(rel, x, c.bufs[Before(i, k)].id);
  }

  lemma {:induction false} RunRecency(c: Cache, ops: seq<Op>, rel: seq<nat>)
    requires Exec(c, ops).Some? && Distinct(c.bufs) && ByRecency(c.bufs, rel)
    ensures var c' := Exec(c, ops).value; Distinct(c'.bufs) && ByRecency(c'.bufs, rel + Released(c, ops))
    decreases |ops|
  {
    if ops == [] {
      assert rel + [] == rel;
    } else {
      var c1 := Step(c, ops[0]).value;
      if ops[0].Release? {
        var i := Find(c.bufs, ops[0].a);
        ReleaseRecency(c, i, rel);
        RunRecency(c1, ops[1..], rel + [c.bufs[i].id]);
        assert rel + [c.bufs[i].id] + Released(c1, ops[1..]) == rel + Released(c, ops);
      } else {
        SameIds(c, ops[0]);
        RunRecency(c1, ops[1..], rel);
      }
    }
  }

  /** After any run from boot the list is in most-recently-released order, and a miss
      recycles the idle clean buffer that was released longest ago. */
  lemma RecyclesLeastRecentlyReleased(n: nat, d: Disk, ops: seq<Op>, a: Addr)
    requires Exec(Init(n, d), ops).Some?
    ensures var c := Exec(Init(n, d), ops).value; var rel := Released(Init(n, d), ops);
            && ByRecency(c.bufs, rel)
            && (Find(c.bufs, a) == |c.bufs| && Bget(c, a).Got? ==>
                  var v := Bget(c, a).i;
                  && v < |c.bufs| && Idle(c.bufs[v])
                  && (forall k :: 0 <= k < |c.bufs| && Idle(c.bufs[k]) ==> Last(rel, c.bufs[v].id) <= Last(rel, c.bufs[k].id)))
  {
    RunRecency(Init(n, d), ops, []);
    assert [] + Released(Init(n, d), ops) == Released(Init(n, d), ops);
  }

  // ----- capacity -----

  ghost function Keys(bufs: seq<Buf>): set<Addr> {
    if bufs == [] then {} else Keys(bufs[..|bufs| - 1]) + {Key(bufs[|bufs| - 1])}
  }

  lemma {:induction false} InKeys(bufs: seq<Buf>, x: Addr)
    ensures x in Keys(bufs) <==> exists i :: 0 <= i < |bufs| && Key(bufs[i]) == x
  {
    if bufs != [] {
      InKeys(bufs[..|bufs| - 1], x);
    }
  }

  lemma {:induction false} KeysCount(bufs: seq<Buf>)
    requires Unique(bufs) && forall i :: 0 <= i < |bufs| ==> bufs[i].dev != NODEV
    ensures |Keys(bufs)| == |bufs|
  {
    if bufs != [] {
      KeysCount(bufs[..|bufs| - 1]);
      InKeys(bufs[..|bufs| - 1], Key(bufs[|bufs| - 1]));
    }
  }

  lemma PinnedOrHeld(c: Cache, x: Addr)
    requires forall i :: 0 <= i < |c.bufs| ==> !Idle(c.bufs[i])
    ensures x in Keys(c.bufs) <==> x in Pinned(c) + Held(c)
  {
    InKeys(c.bufs, x);
    if i :| 0 <= i < |c.bufs| && Key(c.bufs[i]) == x {
      assert c.bufs[i].dirty || c.bufs[i].busy;
    }
  }

  /** bget panics only when pinned and held blocks fill the whole cache. */
  lemma NoBuffersMeansFull(c: Cache, a: Addr)
    requires Inv(c) && Bget(c, a).NoBuffers?
    ensures |Pinned(c) + Held(c)| == |c.bufs| && a !in Pinned(c) + Held(c)
  {
    forall i | 0 <= i < |c.bufs| ensures c.bufs[i].dev != NODEV {}
    KeysCount(c.bufs);
    InKeys(c.bufs, a);
    forall x ensures x in Keys(c.bufs) <==> x in Pinned(c) + Held(c) { PinnedOrHeld(c, x); }
    assert Keys(c.bufs) == Pinned(c) + Held(c);
  }
}
