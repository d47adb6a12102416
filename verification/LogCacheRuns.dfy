/** log.c above bio.c: the log protocol with every block read and written through the buffer
    cache, interleaved with any number of processes that get, load and release buffers. */
module LogCacheRuns {
  import opened Blocks
  import opened MemDisk
  import opened Options
  import opened BufferCache
  import opened LogSpec
  import CacheRuns
  import Journal = LogRuns
  import Log

  datatype State = State(log: Journal.State, c: Cache)

  datatype Event =
    | Bio(op: CacheRuns.Op)          // bget, bread's iderw or brelse, by anybody
    | Step(e: Journal.Event)         // a step of the log

  function At(w: Disk, a: Addr): Block {
    if a in w then w[a] else ZeroBlock()
  }

  /** write_head into a block that holds b. */
  function HeadBlock(b: Block, bs: seq<int>): Block {
    if |bs| <= LOGSIZE && (forall i :: 0 <= i < |bs| ==> 0 <= bs[i] < UINT) then Filled(b, bs, |bs|) else b
  }

  /** The list recovery read. */
  function HeadOf(g: Geo, d: Disk): seq<int> {
    if Formatted(g, d) && Word(d[HeadAddr(g)], 0) <= LOGSIZE then Head(g, d) else []
  }

  /** The bwrite that is iteration t of install_trans, or the write_head after it; w is what
      the cache shows. */
  function InstallWrite(g: Geo, bs: seq<int>, t: nat, w: Disk): (Addr, Block) {
    if t < |bs| then (HomeAddr(bs[t]), At(w, LogAddr(g, t))) else (HeadAddr(g), HeadBlock(At(w, HeadAddr(g)), []))
  }

  /** The next bwrite of commit or recovery: where, and what the code has read for it. */
  function Next(g: Geo, s: Journal.State, w: Disk): (Addr, Block) {
    match s.phase
    case Running => (HeadAddr(g), ZeroBlock())
    case Committing(j) =>
      if j < |s.lh| then (LogAddr(g, j), At(w, HomeAddr(s.lh[j])))
      else if j == |s.lh| then (HeadAddr(g), HeadBlock(At(w, HeadAddr(g)), s.lh))
      else InstallWrite(g, s.lh, j - |s.lh| - 1, w)
    case Booting(j) => InstallWrite(g, HeadOf(g, s.base), j, w)
  }

  /** The cache operation that belongs to a step of the log, if any. */
  ghost function Access(g: Geo, s: State, e: Journal.Event): Option<CacheRuns.Op> {
    if e.LogWrite? then Some(CacheRuns.Update(HomeAddr(e.b), e.data))
    else if e.DiskWrite? then var (a, data) := Next(g, s.log, View(s.c)); Some(CacheRuns.Write(a, data))
    else None
  }

  ghost function Do(g: Geo, s: State, e: Event): (r: Option<State>) {
    match e
    case Bio(op) =>
      if op.Update? || op.Write? then None
      else (match CacheRuns.Step(s.c, op) case None => None case Some(c) => Some(s.(c := c)))
    case Step(e) =>
      (match Journal.Step(g, s.log, e)
       case None => None
       case Some(t) =>
         if e.Crash? then Some(State(t, CacheRuns.Init(|s.c.bufs|, s.c.disk)))
         else (match Access(g, s, e)
               case None => Some(State(t, s.c))
               case Some(op) => match CacheRuns.Step(s.c, op) case None => None case Some(c) => Some(State(t, c))))
  }

  /** The blocks that are pinned: the listed ones that are not installed yet. */
  function Left(s: Journal.State): seq<int> {
    match s.phase
    case Running => s.lh
    case Committing(j) => if j <= |s.lh| + 1 then s.lh else if j <= 2 * |s.lh| + 1 then s.lh[j - |s.lh| - 1..] else []
    case Booting(_) => []
  }

  ghost predicate Inv(g: Geo, s: State) {
    && Journal.Inv(g, s.log) && BufferCache.Inv(s.c) && s.c.disk == s.log.disk && Pinned(s.c) == Log.Homes(Left(s.log))
    && (!s.log.phase.Booting? ==> Home(g, View(s.c)) == Home(g, s.log.cur))
  }

  // ----- steps of the cache alone -----

  lemma GetPins(c: Cache, a: Addr)
    requires BufferCache.Inv(c) && a in c.disk && a.0 != NODEV && Bget(c, a).Got?
    ensures Pinned(Bget(c, a).c) == Pinned(c)
  {
    var c', i := Bget(c, a).c, Bget(c, a).i;
    CacheRuns.GetView(c, a);
    assert OneSlot(c, c', i);
    SetsAfter(c, c', i);
    if c'.bufs[i].dirty { assert a in Pinned(c); }
  }

  lemma LoadPins(c: Cache, i: nat)
    requires BufferCache.Inv(c) && i < |c.bufs| && c.bufs[i].busy && Key(c.bufs[i]) in c.disk
    ensures Fill(c, i).Got? && Pinned(Fill(c, i).c) == Pinned(c)
  {
    var c' := Fill(c, i).c;
    CacheRuns.LoadView(c, i);
    hide View;
    if !c.bufs[i].valid {
      assert OneSlot(c, c', i);
      SetsAfter(c, c', i);
      var a := Key(c.bufs[i]);
      if a in Pinned(c) {
        var k :| 0 <= k < |c.bufs| && c.bufs[k].dirty && Key(c.bufs[k]) == a;
        FindUnique(c.bufs, k);
        FindUnique(c.bufs, i);
      }
    }
  }

  lemma BioPins(c: Cache, op: CacheRuns.Op)
    requires BufferCache.Inv(c) && !op.Update? && !op.Write? && CacheRuns.Step(c, op).Some?
    ensures var c' := CacheRuns.Step(c, op).value;
            BufferCache.Inv(c') && View(c') == View(c) && c'.disk == c.disk && Pinned(c') == Pinned(c)
  {
    hide BufferCache.Inv, View, Pinned, Bget, Fill, Brelse;
    var i := Find(c.bufs, op.a);
    match op
    case Get(a) =>
      CacheRuns.GetView(c, a);
      GetPins(c, a);
    case Load(a) =>
      CacheRuns.LoadView(c, i);
      LoadPins(c, i);
    case Release(a) => BrelseSpec(c, i);
    case _ =>
  }

  // ----- steps of the log -----

  /** One more write of install_trans or recovery is what the cache's bwrite does. */
  lemma BootNext(g: Geo, d: Disk, bs: seq<int>, t: nat, w: Disk)
    requires Formatted(g, d) && Fits(g, d, bs) && t <= |bs| && w.Keys == d.Keys
    requires forall a :: a in d && InLog(g, a) ==> w[a] == Boot(g, d, bs, t)[a]
    ensures var (a, data) := InstallWrite(g, bs, t, w);
            a in d && Boot(g, d, bs, t + 1) == Boot(g, d, bs, t)[a := data] && (t < |bs| ==> data == d[LogAddr(g, t)])
  {
    hide Filled;
    assert InLog(g, HeadAddr(g)) && HeadAddr(g) in d;
    if t < |bs| { assert InLog(g, LogAddr(g, t)) && LogAddr(g, t) in d; }
  }

  /** The same for write_log, and for the header write that commits. */
  lemma PutOne(g: Geo, d: Disk, v: Disk, bs: seq<int>, j: nat)
    requires Formatted(g, d) && Fits(g, d, bs) && v.Keys == d.Keys && j < |bs|
    ensures HomeAddr(bs[j]) in d && PutLog(g, d, v, bs, j + 1) == PutLog(g, d, v, bs, j)[LogAddr(g, j) := v[HomeAddr(bs[j])]]
  {
    hide Home, Formatted;
  }

  lemma PutLast(g: Geo, d: Disk, v: Disk, bs: seq<int>)
    requires Formatted(g, d) && Fits(g, d, bs) && v.Keys == d.Keys
    ensures var e := PutLog(g, d, v, bs, |bs|); HeadAddr(g) in e && PutHead(g, d, v, bs) == e[HeadAddr(g) := HeadBlock(e[HeadAddr(g)], bs)]
  {
    hide PutLog, Filled, Home;
    AddrsIn(g, d, bs);
  }

  lemma CommitNext(g: Geo, d: Disk, v: Disk, bs: seq<int>, j: nat, w: Disk, s: Journal.State)
    requires Formatted(g, d) && Fits(g, d, bs) && v.Keys == d.Keys == w.Keys && j < 2 * |bs| + 2
    requires s.phase == Journal.Committing(j) && s.lh == bs
    requires forall a :: a in d && InLog(g, a) ==> a in Commit(g, d, v, bs, j) && w[a] == Commit(g, d, v, bs, j)[a]
    requires Home(g, w) == Home(g, v)
    ensures var (a, data) := Next(g, s, w);
            && a in d && Commit(g, d, v, bs, j + 1) == Commit(g, d, v, bs, j)[a := data]
            && (j > |bs| && j < 2 * |bs| + 1 ==> a == HomeAddr(bs[j - |bs| - 1]) && data == v[a])
            && (j <= |bs| || j == 2 * |bs| + 1 ==> InLog(g, a))
  {
    hide Filled, Install, Boot, Fits, Formatted, PutLog, PutHead, Home, HeadBlock;
    PutHeadReadable(g, d, v, bs);
    AddrsIn(g, d, bs);
    if j < |bs| {
      PutOne(g, d, v, bs, j);
      HomeAt(g, w, v, HomeAddr(bs[j]));
    } else if j == |bs| {
      PutLast(g, d, v, bs);
      BootNone(g, PutHead(g, d, v, bs), bs);
    } else {
      BootNext(g, PutHead(g, d, v, bs), bs, j - |bs| - 1, w);
    }
  }

  lemma AddrsIn(g: Geo, d: Disk, bs: seq<int>)
    requires Formatted(g, d) && Fits(g, d, bs)
    ensures HeadAddr(g) in d && InLog(g, HeadAddr(g)) && |bs| <= LOGSIZE
    ensures forall i :: 0 <= i < |bs| ==>
              0 <= bs[i] < UINT && HomeAddr(bs[i]) in d && !InLog(g, HomeAddr(bs[i])) && LogAddr(g, i) in d && InLog(g, LogAddr(g, i))
  {}

  lemma BootNone(g: Geo, d: Disk, bs: seq<int>)
    requires Formatted(g, d) && Fits(g, d, bs)
    ensures Boot(g, d, bs, 0) == d
  {}

  /** The cache shows what is on disk outside the pinned blocks, so in the log region. */
  lemma LogShown(g: Geo, s: State, a: Addr)
    requires Inv(g, s) && a in s.c.disk && InLog(g, a) && Fits(g, s.c.disk, Left(s.log))
    ensures View(s.c)[a] == s.c.disk[a]
  {
    hide Journal.Inv, Home, BufferCache.Inv, Latest;
    Log.InHomes(Left(s.log), a);
    Log.Clean(s.c, a);
  }

  lemma HomeSame(g: Geo, w: Disk, a: Addr, data: Block)
    requires a in w && (InLog(g, a) || w[a] == data)
    ensures Home(g, w[a := data]) == Home(g, w)
  {}

  lemma HomeAt(g: Geo, w: Disk, v: Disk, a: Addr)
    requires Home(g, w) == Home(g, v) && a in w && a in v && !InLog(g, a)
    ensures w[a] == v[a]
  {
    assert a in Home(g, w);
  }

  /** bwrite of a held buffer. */
  lemma WriteIs(c: Cache, a: Addr, data: Block)
    requires BufferCache.Inv(c) && CacheRuns.Step(c, CacheRuns.Write(a, data)).Some?
    ensures var c' := CacheRuns.Step(c, CacheRuns.Write(a, data)).value;
            BufferCache.Inv(c') && c'.disk == c.disk[a := data] && View(c') == View(c)[a := data] && Pinned(c') == Pinned(c) - {a}
  {
    hide View, Pinned, BufferCache.Inv, Bwrite;
    BwriteSpec(c, Find(c.bufs, a), data);
  }

  lemma {:induction false} HomesRest(bs: seq<int>, t: nat, x: Addr)
    requires Journal.Distinct(bs) && t < |bs|
    ensures x in Log.Homes(bs[t + 1..]) <==> x in Log.Homes(bs[t..]) && x != HomeAddr(bs[t])
  {
    hide Log.Homes;
    Log.InHomes(bs[t..], x);
    Log.InHomes(bs[t + 1..], x);
    if x in Log.Homes(bs[t + 1..]) {
      var i :| 0 <= i < |bs[t + 1..]| && HomeAddr(bs[t + 1..][i]) == x;
      assert bs[t..][i + 1] == bs[t + 1..][i] == bs[t + 1 + i];
    }
    if i :| 0 <= i < |bs[t..]| && HomeAddr(bs[t..][i]) == x && x != HomeAddr(bs[t]) {
      assert i > 0 && bs[t + 1..][i - 1] == bs[t..][i];
    }
  }

  /** What stays pinned when the write at a is done. */
  lemma LeftNext(g: Geo, d: Disk, s: Journal.State, a: Addr)
    requires s.phase.Committing? && s.phase.j < 2 * |s.lh| + 2 && Journal.Distinct(s.lh) && Fits(g, d, s.lh)
    requires if |s.lh| < s.phase.j < 2 * |s.lh| + 1 then a == HomeAddr(s.lh[s.phase.j - |s.lh| - 1]) else InLog(g, a)
    ensures var j := s.phase.j;
            Log.Homes(Left(s)) - {a} == if j + 1 == 2 * |s.lh| + 2 then {} else Log.Homes(Left(s.(phase := Journal.Committing(j + 1))))
  {
    hide Log.Homes;
    var j, n := s.phase.j, |s.lh|;
    if n < j < 2 * n + 1 {
      var t := j - n - 1;
      assert t == 0 ==> s.lh[t..] == s.lh;
      forall x ensures x in Log.Homes(s.lh[t + 1..]) <==> x in Log.Homes(s.lh[t..]) && x != a { HomesRest(s.lh, t, x); }
    } else {
      Log.InHomes(Left(s), a);
      if j == 2 * n + 1 {
        assert n > 0 ==> s.lh[n..] == [];
        HomesEmpty();
      }
    }
  }

  lemma HomesEmpty()
    ensures Log.Homes([]) == {}
  {}

  /** The blocks of a list that fits are homes, none of them in the log. */
  lemma LeftFits(g: Geo, s: Journal.State)
    requires Journal.Inv(g, s)
    ensures Formatted(g, s.disk) && Fits(g, s.disk, Left(s))
  {
    hide Recovered, Home, Head, Install, PutLog, PutHead, Filled, LogSpec.Pending;
    Journal.Progress(g, s);
    if s.phase.Committing? {
      CommitDefined(g, s.base, s.cur, s.lh);
      CommitKeys(g, s.base, s.cur, s.lh, s.phase.j);
      FitsToo(g, s.base, s.disk, s.lh);
    }
  }

  lemma CommitKeys(g: Geo, d: Disk, v: Disk, bs: seq<int>, j: nat)
    requires Formatted(g, d) && Fits(g, d, bs) && v.Keys == d.Keys && j <= 2 * |bs| + 2
    ensures Commit(g, d, v, bs, j).Keys == d.Keys
  {
    hide Install, PutLog, Filled, Boot, PutHead;
    if j > |bs| {
      PutHeadReadable(g, d, v, bs);
      BootKeys(g, PutHead(g, d, v, bs), bs, j - |bs| - 1);
    }
  }

  /** The next write of commit, as computed from what the cache shows, is the protocol's. */
  lemma CommitWrite(g: Geo, s: State)
    requires Inv(g, s) && s.log.phase.Committing?
    ensures var (a, data) := Next(g, s.log, View(s.c));
            && a in View(s.c) && (InLog(g, a) || View(s.c)[a] == data)
            && Journal.Step(g, s.log, Journal.DiskWrite).Some? && Journal.Step(g, s.log, Journal.DiskWrite).value.disk == s.c.disk[a := data]
            && Log.Homes(Left(s.log)) - {a} == Log.Homes(Left(Journal.Step(g, s.log, Journal.DiskWrite).value))
  {
    hide Commit, Home, View, Pinned, Log.Homes, BufferCache.Inv, LogSpec.Pending, Fits, Formatted, InLog, Left, Journal.Distinct, Next;
    var j, w := s.log.phase.j, View(s.c);
    var (a, data) := Next(g, s.log, w);
    Journal.Progress(g, s.log);
    LeftFits(g, s.log);
    CommitDefined(g, s.log.base, s.log.cur, s.log.lh);
    CommitKeys(g, s.log.base, s.log.cur, s.log.lh, j);
    ViewKeys(s.c);
    forall x | x in s.log.base && InLog(g, x) ensures w[x] == s.c.disk[x] { LogShown(g, s, x); }
    CommitNext(g, s.log.base, s.log.cur, s.log.lh, j, w, s.log);
    if !InLog(g, a) { HomeAt(g, w, s.log.cur, a); }
    LeftNext(g, s.log.base, s.log, a);
    LeftRuns(g, s.log);
  }

  lemma CommitStepInv(g: Geo, s: State)
    requires Inv(g, s) && s.log.phase.Committing? && Do(g, s, Step(Journal.DiskWrite)).Some?
    ensures Inv(g, Do(g, s, Step(Journal.DiskWrite)).value)
  {
    hide Home, View, Pinned, Log.Homes, BufferCache.Inv, CacheRuns.Step, Journal.Step, Journal.Inv, Next, Left, InLog;
    var (a, data) := Next(g, s.log, View(s.c));
    CommitWrite(g, s);
    WriteIs(s.c, a, data);
    HomeSame(g, View(s.c), a, data);
    Journal.StepCommit(g, s.log);
  }

  /** What is left after the write, in the two cases of the next phase. */
  lemma LeftRuns(g: Geo, s: Journal.State)
    requires s.phase.Committing? && Journal.Step(g, s, Journal.DiskWrite).Some?
    ensures var t := Journal.Step(g, s, Journal.DiskWrite).value;
            Log.Homes(Left(t)) == if s.phase.j + 1 == 2 * |s.lh| + 2 then {} else Log.Homes(Left(s.(phase := Journal.Committing(s.phase.j + 1))))
  {
    hide Commit, Fits, Formatted;
    HomesEmpty();
  }

  lemma ViewKeys(c: Cache)
    ensures View(c).Keys == c.disk.Keys
  {}

  lemma AllShown(c: Cache)
    requires BufferCache.Inv(c) && Pinned(c) == {}
    ensures View(c) == c.disk
  {
    forall a | a in c.disk ensures View(c)[a] == c.disk[a] { Log.Clean(c, a); }
  }

  lemma BootStepInv(g: Geo, s: State)
    requires Inv(g, s) && s.log.phase.Booting? && Do(g, s, Step(Journal.DiskWrite)).Some?
    ensures Inv(g, Do(g, s, Step(Journal.DiskWrite)).value)
  {
    hide Commit, Home, View, Pinned, Log.Homes, BufferCache.Inv, CacheRuns.Step, LogSpec.Pending, Fits, Formatted, InLog, Journal.Distinct, Boot, InstallWrite, Head;
    var j, w, bs := s.log.phase.j, View(s.c), Head(g, s.log.base);
    var (a, data) := Next(g, s.log, w);
    HomesEmpty();
    AllShown(s.c);
    BootKeys(g, s.log.base, bs, j);
    BootNext(g, s.log.base, bs, j, w);
    WriteIs(s.c, a, data);
    Journal.StepBoot(g, s.log);
    Gone(s.c, a);
  }

  lemma Gone(c: Cache, a: Addr)
    requires Pinned(c) == {}
    ensures Pinned(c) - {a} == {}
  {
    hide Pinned;
  }

  lemma LogWriteInv(g: Geo, s: State, p: int, b: int, data: Block)
    requires Inv(g, s) && Do(g, s, Step(Journal.LogWrite(p, b, data))).Some?
    ensures Inv(g, Do(g, s, Step(Journal.LogWrite(p, b, data))).value)
  {
    hide Commit, View, Pinned, Log.Homes, BufferCache.Inv, LogSpec.Pending, Fits, Formatted, Home, Journal.Inv, Pin;
    PinSpec(s.c, Find(s.c.bufs, HomeAddr(b)), data);
    Journal.StepLogWrite(g, s.log, p, b, data);
    ViewKeys(s.c);
    HomeSet(g, View(s.c), HomeAddr(b), data);
    HomesMore(s.log.lh, b);
  }

  lemma HomeSet(g: Geo, w: Disk, a: Addr, data: Block)
    requires a in w
    ensures !InLog(g, a) ==> Home(g, w[a := data]) == Home(g, w)[a := data]
  {}

  lemma HomesMore(bs: seq<int>, b: int)
    ensures Log.Homes(bs + [b]) == Log.Homes(bs) + {HomeAddr(b)}
    ensures b in bs ==> HomeAddr(b) in Log.Homes(bs)
  {
    assert (bs + [b])[..|bs|] == bs;
    Log.InHomes(bs, HomeAddr(b));
    if b in bs {
      var i :| 0 <= i < |bs| && bs[i] == b;
      assert HomeAddr(bs[i]) == HomeAddr(b);
    }
  }

  lemma QuietInv(g: Geo, s: State, e: Journal.Event)
    requires Inv(g, s) && (e.Begin? || e.End? || e.Crash?) && Do(g, s, Step(e)).Some?
    ensures Inv(g, Do(g, s, Step(e)).value)
  {
    hide Commit, View, Pinned, Log.Homes, BufferCache.Inv, LogSpec.Pending, Fits, Formatted, Home, Journal.Inv, CacheRuns.Init;
    Journal.StepRefines(g, s.log, e);
    HomesEmpty();
    CacheRuns.InitInv(|s.c.bufs|, s.c.disk);
    InitDisk(|s.c.bufs|, s.c.disk);
  }

  lemma InitDisk(n: nat, d: Disk)
    ensures CacheRuns.Init(n, d).disk == d
  {}

  lemma BioInv(g: Geo, s: State, op: CacheRuns.Op)
    requires Inv(g, s) && Do(g, s, Bio(op)).Some?
    ensures Inv(g, Do(g, s, Bio(op)).value)
  {
    hide Journal.Inv, BufferCache.Inv, Home, View, Pinned, Log.Homes, Left, CacheRuns.Step;
    BioPins(s.c, op);
  }

  lemma StepInv(g: Geo, s: State, e: Event)
    requires Inv(g, s) && Do(g, s, e).Some?
    ensures Inv(g, Do(g, s, e).value)
  {
    hide Inv, Do;
    match e
    case Bio(op) => BioInv(g, s, op);
    case Step(LogWrite(p, b, data)) => LogWriteInv(g, s, p, b, data);
    case Step(DiskWrite) =>
      WritesThen(g, s);
      if s.log.phase.Committing? { CommitStepInv(g, s); } else { BootStepInv(g, s); }
    case Step(e') => QuietInv(g, s, e');
  }

  lemma WritesThen(g: Geo, s: State)
    requires Do(g, s, Step(Journal.DiskWrite)).Some?
    ensures !s.log.phase.Running?
  {}

  // ----- runs -----

  ghost function Run(g: Geo, s: State, es: seq<Event>): (r: Option<State>)
    decreases |es|
  {
    if es == [] then Some(s)
    else match Do(g, s, es[0])
      case None => None
      case Some(t) => Run(g, t, es[1..])
  }

  lemma {:induction false} RunInv(g: Geo, s: State, es: seq<Event>)
    requires Inv(g, s) && Run(g, s, es).Some?
    ensures Inv(g, Run(g, s, es).value)
    decreases |es|
  {
    hide Inv, Do;
    if es != [] {
      StepInv(g, s, es[0]);
      RunInv(g, Do(g, s, es[0]).value, es[1..]);
    }
  }

  /** The log's part of a run. */
  function Journaled(es: seq<Event>): seq<Journal.Event>
    decreases |es|
  {
    if es == [] then [] else (if es[0].Step? then [es[0].e] else []) + Journaled(es[1..])
  }

  /** A run is a run of the log protocol. */
  lemma {:induction false} RunProjects(g: Geo, s: State, es: seq<Event>)
    requires Run(g, s, es).Some?
    ensures Journal.Run(g, s.log, Journaled(es)) == Some(Run(g, s, es).value.log)
    decreases |es|
  {
    if es != [] {
      var t := Do(g, s, es[0]).value;
      RunProjects(g, t, es[1..]);
      StepProjects(g, s, es[0]);
      hide Do;
      if es[0].Step? { assert ([es[0].e] + Journaled(es[1..]))[1..] == Journaled(es[1..]); }
      else { assert [] + Journaled(es[1..]) == Journaled(es[1..]); }
    }
  }

  lemma StepProjects(g: Geo, s: State, e: Event)
    requires Do(g, s, e).Some?
    ensures if e.Step? then Journal.Step(g, s.log, e.e) == Some(Do(g, s, e).value.log) else Do(g, s, e).value.log == s.log
  {
    hide Journal.Step, CacheRuns.Step, Access, CacheRuns.Init;
  }

  /** A machine switched on: an empty cache of n buffers, recovery at its beginning. */
  function Boots(n: nat, d: Disk): State {
    State(Journal.State(d, d, [], map[], Journal.Booting(0), d), CacheRuns.Init(n, d))
  }

  lemma BootInv(g: Geo, n: nat, d: Disk)
    requires Readable(g, d)
    ensures Inv(g, Boots(n, d))
  {
    hide Home, Recovered, View, Pinned, CacheRuns.Init, BufferCache.Inv;
    Journal.AtBoot(g, d);
    HomesEmpty();
    CacheRuns.InitInv(n, d);
    InitDisk(n, d);
  }

  /** Along every run from a machine switched on over a readable disk, with every process
      reading as it likes and a crash anywhere: the disk below the cache is the log protocol's;
      exactly the listed blocks not yet installed are pinned; outside recovery the cache shows
      the protocol's current file system; and recovery of that disk yields the file system of
      the last committed group. */
  lemma CacheCarriesLog(g: Geo, n: nat, d: Disk, es: seq<Event>)
    requires Readable(g, d) && Run(g, Boots(n, d), es).Some?
    ensures var s := Run(g, Boots(n, d), es).value;
            && s.c.disk == s.log.disk && Pinned(s.c) == Log.Homes(Left(s.log))
            && (!s.log.phase.Booting? ==> Home(g, View(s.c)) == Home(g, s.log.cur))
            && Readable(g, s.c.disk) && Recovered(g, s.c.disk) == Journal.LastOr(Recovered(g, d), Journal.Groups(g, Boots(n, d).log, Journaled(es)))
  {
    hide Run, Home, Recovered, View, Pinned, BufferCache.Inv, Journal.Run, Journal.Groups, Readable, CacheRuns.Init, Journaled;
    BootInv(g, n, d);
    RunInv(g, Boots(n, d), es);
    RunProjects(g, Boots(n, d), es);
    var s := Run(g, Boots(n, d), es).value;
    hide Journal.Inv;
    Journal.CrashAtomicity(g, Boots(n, d).log, Journaled(es));
    Journal.Progress(g, s.log);
  }
}
