/** The space begin_op reserves, and whether log_write's "too big a transaction" panic can be
    reached by operations that each add at most m entries to the header. */
module LogPanic {
  import opened Blocks
  import opened Options
  import opened LogSpec
  import opened LogRuns
  import opened Sums

  /** An operation adds at most m entries; rewriting a listed block is always allowed.
      (param.h states the discipline for m == MAXOPBLOCKS.) */
  predicate Budgeted(s: State, e: Event, m: nat) {
    e.LogWrite? && e.p in s.ops && e.b !in s.lh ==> s.ops[e.p] < m
  }

  predicate AllBudgeted(g: Geo, s: State, es: seq<Event>, m: nat)
    decreases |es|
  {
    es == [] || Step(g, s, es[0]).None? ||
    (Budgeted(s, es[0], m) && AllBudgeted(g, Step(g, s, es[0]).value, es[1..], m))
  }

  // ----- the reservation -----

  /** The most entries a group of operations with budget m can add: begin_op admits the second
      of two at MAXOPBLOCKS entries, and both may still have their whole budget. */
  function Peak(m: nat): int {
    LOGSIZE - 2 * MAXOPBLOCKS + 2 * m
  }

  /** Entries plus the unused budgets of the outstanding operations stay within the peak. */
  ghost predicate Reserved(s: State, m: nat) {
    && (forall p :: p in s.ops ==> s.ops[p] <= m)
    && |s.lh| + m * |s.ops| - Sum(s.ops) <= Peak(m)
    && (s.phase.Running? && s.ops == map[] ==> s.lh == [])
  }

  /** begin_op reserves MAXOPBLOCKS for each operation, of which m can be used. */
  lemma Admitted(n: nat, k: nat, m: nat)
    requires m <= MAXOPBLOCKS && k + (n + 1) * MAXOPBLOCKS <= LOGSIZE && (n == 0 ==> k == 0)
    ensures k + m * (n + 1) <= Peak(m)
  {
    if n == 0 {
    } else if n == 1 {
    } else {
      assert n == 2;
    }
  }

  lemma BeginReserved(s: State, p: int, m: nat)
    requires m <= MAXOPBLOCKS && s.phase.Running?
    requires Reserved(s, m) && p !in s.ops && |s.lh| + (|s.ops| + 1) * MAXOPBLOCKS <= LOGSIZE
    ensures Reserved(s.(ops := s.ops[p := 0]), m)
  {
    hide Sum, Peak;
    var t := s.ops[p := 0];
    var n := |s.ops|;
    CountAdd(s.ops, p);
    assert n == 0 ==> |s.lh| == 0;
    Admitted(n, |s.lh|, m);
    assert m * |t| == m * (n + 1);
    assert p in t;
  }

  lemma CountAdd(ops: map<int, nat>, p: int)
    requires p !in ops
    ensures |ops[p := 0]| == |ops| + 1 && (|ops| == 0 ==> ops == map[])
  {
    CountRemove(ops[p := 0], p);
    assert ops[p := 0] - {p} == ops;
  }

  lemma WriteReserved(s: State, p: int, b: int, m: nat)
    requires Reserved(s, m) && p in s.ops && s.ops[p] < m
    ensures Reserved(s.(lh := s.lh + [b], ops := s.ops[p := s.ops[p] + 1]), m)
  {
    hide Sum, Peak;
    SumAt(s.ops, p);
    SumSet(s.ops, p, s.ops[p] + 1);
    var t := s.ops[p := s.ops[p] + 1];
    assert t.Keys == s.ops.Keys && |t| == |s.ops|;
    assert p in t;
  }

  lemma EndReserved(s: State, p: int, m: nat)
    requires Reserved(s, m) && p in s.ops
    ensures |s.lh| + m * |s.ops - {p}| - Sum(s.ops - {p}) <= Peak(m)
  {
    hide Sum, Peak;
    SumAt(s.ops, p);
    CountRemove(s.ops, p);
    assert m * |s.ops - {p}| == m * |s.ops| - m;
  }

  lemma StillReserved(s: State, t: State, m: nat)
    requires Reserved(s, m) && t.ops == s.ops && (|t.lh| <= |s.lh|) && (t.phase.Running? ==> s.phase.Running? || t.lh == [])
    ensures Reserved(t, m)
  {
    hide Sum, Peak;
  }

  lemma WriteKeeps(g: Geo, s: State)
    requires Step(g, s, DiskWrite).Some? && (s.phase.Booting? ==> s.lh == [])
    ensures var t := Step(g, s, DiskWrite).value; t.ops == s.ops && |t.lh| <= |s.lh| && (t.phase.Running? || t.phase.Booting? ==> t.lh == [])
  {
    hide Commit, Boot, Head, Fits, Formatted;
  }

  lemma StepReserved(g: Geo, s: State, e: Event, m: nat)
    requires m <= MAXOPBLOCKS && (s.phase.Booting? ==> s.lh == [])
    requires Reserved(s, m) && Budgeted(s, e, m) && Step(g, s, e).Some?
    ensures Reserved(Step(g, s, e).value, m) && (Step(g, s, e).value.phase.Booting? ==> Step(g, s, e).value.lh == [])
  {
    hide CommitStep, BootStep, IsHome, Reserved;
    var t := Step(g, s, e).value;
    match e
    case Begin(p) =>
      BeginReserved(s, p, m);
    case LogWrite(p, b, _) =>
      if b !in s.lh {
        WriteReserved(s, p, b, m);
        StillReserved(s.(lh := s.lh + [b], ops := s.ops[p := s.ops[p] + 1]), t, m);
      } else {
        StillReserved(s, t, m);
      }
    case End(p) =>
      EndIs(g, s, p, m);
    case DiskWrite =>
      WriteKeeps(g, s);
      StillReserved(s, t, m);
    case Crash =>
      NothingReserved(t, m);
  }

  lemma EndIs(g: Geo, s: State, p: int, m: nat)
    requires Reserved(s, m) && Step(g, s, End(p)).Some?
    ensures Reserved(Step(g, s, End(p)).value, m)
  {
    hide Sum, Peak;
    EndReserved(s, p, m);
  }

  lemma NothingReserved(t: State, m: nat)
    requires t.ops == map[] && t.lh == []
    ensures m <= MAXOPBLOCKS ==> Reserved(t, m)
  {}

  /** In every run of budgeted operations the reservation holds. */
  lemma {:induction false} RunReserved(g: Geo, s: State, es: seq<Event>, m: nat)
    requires m <= MAXOPBLOCKS && (s.phase.Booting? ==> s.lh == [])
    requires Reserved(s, m) && Run(g, s, es).Some? && AllBudgeted(g, s, es, m)
    ensures Reserved(Run(g, s, es).value, m)
    decreases |es|
  {
    hide Reserved, Step;
    if es != [] {
      StepReserved(g, s, es[0], m);
      RunReserved(g, Step(g, s, es[0]).value, es[1..], m);
    }
  }

  /** So the header never has more entries than the peak. */
  lemma ReservedFits(s: State, m: nat)
    requires Reserved(s, m)
    ensures |s.lh| <= Peak(m)
  {
    hide Sum, Peak;
    SumBound(s.ops, m);
  }

  // ----- the panic -----

  lemma {:induction false} RunSnoc(g: Geo, s: State, es: seq<Event>, e: Event, m: nat)
    ensures Run(g, s, es + [e]) == match Run(g, s, es) case None => None case Some(t) => Step(g, t, e)
    ensures Run(g, s, es).Some? && AllBudgeted(g, s, es, m) && Budgeted(Run(g, s, es).value, e, m) ==> AllBudgeted(g, s, es + [e], m)
    decreases |es|
  {
    hide Step;
    if es == [] {
      assert [e][1..] == [];
      assert es + [e] == [e];
      if Step(g, s, e).Some? { assert Run(g, Step(g, s, e).value, []) == Step(g, s, e); }
    } else {
      assert (es + [e])[1..] == es[1..] + [e];
      if Step(g, s, es[0]).Some? { RunSnoc(g, Step(g, s, es[0]).value, es[1..], e, m); }
    }
  }

  /** e is a log_write of a home block by an outstanding operation within its budget. */
  ghost predicate Writes(g: Geo, s: State, e: Event, m: nat) {
    e.LogWrite? && s.phase.Running? && e.p in s.ops && IsHome(g, s.disk, e.b) && Budgeted(s, e, m)
  }

  /** A budgeted run from s after which a budgeted log_write panics. */
  ghost predicate Panics(g: Geo, s: State, es: seq<Event>, e: Event, m: nat) {
    Run(g, s, es).Some? && AllBudgeted(g, s, es, m) && Writes(g, Run(g, s, es).value, e, m) && TooBig(g, Run(g, s, es).value)
  }

  /** The start of a run: nothing logged, nobody in a call. */
  ghost predicate Quiet(g: Geo, s: State) {
    Inv(g, s) && s.phase.Running? && s.lh == [] && s.ops == map[]
  }

  /** Enough different home blocks to fill the header with. */
  ghost predicate Supply(g: Geo, s: State, hb: seq<int>) {
    Distinct(hb) && |hb| >= LOGSIZE && forall i :: 0 <= i < |hb| ==> IsHome(g, s.disk, hb[i])
  }

  function Share(k: int, m: nat): nat {
    if k < 0 then 0 else if k < m then k else m
  }

  /** The outstanding operations of the worst run when k blocks are listed.  Operation 0 begins
      first and stays.  The first MAXOPBLOCKS entries are made one each by short operations;
      then operation 1 is still admitted, uses its budget, and operation 0 uses its own. */
  function Worst(k: nat, m: nat): map<int, nat> {
    if k <= MAXOPBLOCKS then map[0 := 0]
    else map[0 := Share(k - MAXOPBLOCKS - m, m), 1 := Share(k - MAXOPBLOCKS, m)]
  }

  ghost predicate Loaded(s: State, hb: seq<int>, k: nat, ops: map<int, nat>, t: State) {
    k <= |hb| && t.phase.Running? && t.disk == s.disk && t.lh == hb[..k] && t.ops == ops
  }

  lemma Start(g: Geo, s: State, hb: seq<int>, m: nat) returns (es: seq<Event>)
    requires Quiet(g, s)
    ensures Run(g, s, es).Some? && AllBudgeted(g, s, es, m) && Loaded(s, hb, 0, Worst(0, m), Run(g, s, es).value)
  {
    hide Commit, Boot, Head, Fits, Formatted, IsHome;
    assert Run(g, s, []) == Some(s);
    RunSnoc(g, s, [], Begin(0), m);
    es := [] + [Begin(0)];
  }

  /** begin_op of operation 1 while operation 0 is in its call. */
  lemma SecondBegin(g: Geo, s: State, hb: seq<int>, k: nat, t: State)
    requires Loaded(s, hb, k, map[0 := 0], t) && k <= MAXOPBLOCKS
    ensures Step(g, t, Begin(1)).Some? && Loaded(s, hb, k, map[0 := 0, 1 := 0], Step(g, t, Begin(1)).value)
  {
    assert |t.ops| == 1;
    assert t.ops[1 := 0] == map[0 := 0, 1 := 0];
  }

  lemma OneMore(g: Geo, s: State, hb: seq<int>, k: nat, ops: map<int, nat>, p: int, m: nat, t: State)
    requires Supply(g, s, hb) && Loaded(s, hb, k, ops, t) && k < LOGSIZE && k < g.size - 1 && p in ops && ops[p] < m
    ensures var e := LogWrite(p, hb[k], ZeroBlock());
            Budgeted(t, e, m) && Step(g, t, e).Some? && Loaded(s, hb, k + 1, ops[p := ops[p] + 1], Step(g, t, e).value)
  {
    hide IsHome, Commit, Boot, Head, Fits, Formatted;
    assert hb[k] !in hb[..k];
  }

  lemma ShortEnd(g: Geo, s: State, hb: seq<int>, k: nat, t: State)
    requires Loaded(s, hb, k, map[0 := 0, 1 := 1], t)
    ensures Step(g, t, End(1)).Some? && Loaded(s, hb, k, map[0 := 0], Step(g, t, End(1)).value)
  {
    assert t.ops - {1} == map[0 := 0];
    assert 0 in t.ops - {1};
  }

  lemma WorstNext(k: nat, m: nat)
    requires 1 <= m && k < Peak(m)
    ensures k > MAXOPBLOCKS ==>
              var p := if k - MAXOPBLOCKS < m then 1 else 0;
              p in Worst(k, m) && Worst(k, m)[p] < m && Worst(k, m)[p := Worst(k, m)[p] + 1] == Worst(k + 1, m)
    ensures k == MAXOPBLOCKS ==> map[0 := 0, 1 := 1] == Worst(k + 1, m)
  {}

  lemma {:induction false} Load(g: Geo, s: State, hb: seq<int>, k: nat, m: nat) returns (es: seq<Event>)
    requires Quiet(g, s) && Supply(g, s, hb) && 1 <= m && k <= Peak(m) && k <= LOGSIZE && k <= g.size - 1
    ensures Run(g, s, es).Some? && AllBudgeted(g, s, es, m) && Loaded(s, hb, k, Worst(k, m), Run(g, s, es).value)
  {
    hide *;
    if k == 0 {
      es := Start(g, s, hb, m);
    } else {
      var es1 := Load(g, s, hb, k - 1, m);
      es := LoadNext(g, s, hb, k - 1, m, es1);
    }
  }

  lemma LoadNext(g: Geo, s: State, hb: seq<int>, k: nat, m: nat, es: seq<Event>) returns (es': seq<Event>)
    requires Quiet(g, s) && Supply(g, s, hb) && 1 <= m && k < Peak(m) && k < LOGSIZE && k < g.size - 1
    requires Run(g, s, es).Some? && AllBudgeted(g, s, es, m) && Loaded(s, hb, k, Worst(k, m), Run(g, s, es).value)
    ensures Run(g, s, es').Some? && AllBudgeted(g, s, es', m) && Loaded(s, hb, k + 1, Worst(k + 1, m), Run(g, s, es').value)
  {
    hide Run, AllBudgeted, Step, Loaded, Supply, Quiet, Share, Peak;
    var t := Run(g, s, es).value;
    SupplySize(g, s, hb);
    WorstNext(k, m);
    if k > MAXOPBLOCKS {
      var p := if k - MAXOPBLOCKS < m then 1 else 0;
      var e := LogWrite(p, hb[k], ZeroBlock());
      OneMore(g, s, hb, k, Worst(k, m), p, m, t);
      RunSnoc(g, s, es, e, m);
      es' := es + [e];
    } else {
      var e := LogWrite(1, hb[k], ZeroBlock());
      SecondBegin(g, s, hb, k, t);
      RunSnoc(g, s, es, Begin(1), m);
      var t1 := Step(g, t, Begin(1)).value;
      OneMore(g, s, hb, k, map[0 := 0, 1 := 0], 1, m, t1);
      assert map[0 := 0, 1 := 0][1 := 1] == map[0 := 0, 1 := 1];
      RunSnoc(g, s, es + [Begin(1)], e, m);
      es' := es + [Begin(1)] + [e];
      if k < MAXOPBLOCKS {
        ShortEnd(g, s, hb, k + 1, Step(g, t1, e).value);
        RunSnoc(g, s, es', End(1), m);
        es' := es' + [End(1)];
      }
    }
  }

  /** In a loaded state at which the header is full, operation 0 logging the first block (again,
      if it is listed) panics. */
  lemma LastWrite(g: Geo, s: State, hb: seq<int>, k: nat, ops: map<int, nat>, m: nat, t: State)
    requires Supply(g, s, hb) && Loaded(s, hb, k, ops, t) && (k == LOGSIZE || k == g.size - 1) && 0 in ops && (k == 0 ==> ops[0] < m)
    ensures Writes(g, t, LogWrite(0, hb[0], ZeroBlock()), m) && TooBig(g, t)
    ensures k > 0 ==> hb[0] in t.lh
  {
    hide IsHome;
    if k > 0 { assert t.lh[0] == hb[0]; }
  }

  lemma SizeOk(g: Geo, s: State)
    requires Inv(g, s) && s.phase.Running?
    ensures g.size >= 1
  {}

  /** The panic is out of reach of operations that add at most m entries each exactly when the
      peak of their entries stays below LOGSIZE and below the region's size less its header.
      (With m == MAXOPBLOCKS the peak is LOGSIZE, so no region is large enough; in the region
      of LOGSIZE blocks that mkfs makes, m must be below MAXOPBLOCKS.) */
  lemma PanicIff(g: Geo, s: State, hb: seq<int>, m: nat)
    requires Quiet(g, s) && Supply(g, s, hb) && 1 <= m
    ensures (forall es, e :: !Panics(g, s, es, e, m)) <==> Peak(m) < LOGSIZE && Peak(m) < g.size - 1
  {
    hide Run, AllBudgeted, Reserved, Supply, Inv, Loaded, Writes;
    if Peak(m) < LOGSIZE && Peak(m) < g.size - 1 {
      forall es, e ensures !Panics(g, s, es, e, m) {
        if Panics(g, s, es, e, m) {
          NothingReserved(s, m);
          RunReserved(g, s, es, m);
          ReservedFits(Run(g, s, es).value, m);
        }
      }
    } else {
      SizeOk(g, s);
      SupplySize(g, s, hb);
      var k := if g.size - 1 <= LOGSIZE then g.size - 1 else LOGSIZE;
      var es := Load(g, s, hb, k, m);
      LastWrite(g, s, hb, k, Worst(k, m), m, Run(g, s, es).value);
      assert Panics(g, s, es, LogWrite(0, hb[0], ZeroBlock()), m);
    }
  }

  // ----- three operations of m entries each -----

  /** Three operations, k blocks logged between them in order, m each. */
  function Shares(k: nat, m: nat): map<int, nat> {
    map[0 := Share(k, m), 1 := Share(k - m, m), 2 := Share(k - 2 * m, m)]
  }

  /** The operation that logs block k. */
  function Writer(k: nat, m: nat): int {
    if k < m then 0 else if k < 2 * m then 1 else 2
  }

  /** The three begin, and log the first k blocks of hb. */
  function Script(hb: seq<int>, k: nat, m: nat): seq<Event>
    requires k <= |hb|
  {
    if k == 0 then [Begin(0), Begin(1), Begin(2)] else Script(hb, k - 1, m) + [LogWrite(Writer(k - 1, m), hb[k - 1], ZeroBlock())]
  }

  lemma ThreeBegin(g: Geo, s: State, hb: seq<int>, m: nat)
    requires Quiet(g, s)
    ensures var es := Script(hb, 0, m); Run(g, s, es).Some? && AllBudgeted(g, s, es, m) && Loaded(s, hb, 0, Shares(0, m), Run(g, s, es).value)
  {
    hide Commit, Boot, Head, Fits, Formatted, IsHome;
    var s1, s2, s3 := s.(ops := map[0 := 0]), s.(ops := map[0 := 0, 1 := 0]), s.(ops := map[0 := 0, 1 := 0, 2 := 0]);
    assert Run(g, s, []) == Some(s);
    assert s.ops[0 := 0] == s1.ops && s1.ops[1 := 0] == s2.ops && s2.ops[2 := 0] == s3.ops == Shares(0, m);
    assert |s1.ops| == 1 && |s2.ops| == 2;
    RunSnoc(g, s, [], Begin(0), m);
    RunSnoc(g, s, [] + [Begin(0)], Begin(1), m);
    RunSnoc(g, s, [] + [Begin(0)] + [Begin(1)], Begin(2), m);
    assert [] + [Begin(0)] + [Begin(1)] + [Begin(2)] == Script(hb, 0, m);
  }

  lemma SharesNext(k: nat, m: nat)
    requires k < 3 * m
    ensures var p := Writer(k, m); p in Shares(k, m) && Shares(k, m)[p] < m && Shares(k, m)[p := Shares(k, m)[p] + 1] == Shares(k + 1, m)
  {}

  lemma {:induction false} LoadThree(g: Geo, s: State, hb: seq<int>, k: nat, m: nat)
    requires Quiet(g, s) && Supply(g, s, hb) && k <= 3 * m && k <= LOGSIZE && k <= g.size - 1 && k <= |hb|
    ensures var es := Script(hb, k, m); Run(g, s, es).Some? && AllBudgeted(g, s, es, m) && Loaded(s, hb, k, Shares(k, m), Run(g, s, es).value)
  {
    hide Run, AllBudgeted, Supply, Loaded, Shares, Writer, Quiet, Step;
    if k == 0 {
      ThreeBegin(g, s, hb, m);
    } else {
      LoadThree(g, s, hb, k - 1, m);
      SharesNext(k - 1, m);
      var es, p := Script(hb, k - 1, m), Writer(k - 1, m);
      OneMore(g, s, hb, k - 1, Shares(k - 1, m), p, m, Run(g, s, es).value);
      RunSnoc(g, s, es, LogWrite(p, hb[k - 1], ZeroBlock()), m);
    }
  }

  lemma SupplySize(g: Geo, s: State, hb: seq<int>)
    requires Supply(g, s, hb)
    ensures |hb| >= LOGSIZE
  {}

  /** In any region with room for LOGSIZE blocks: three operations log MAXOPBLOCKS different
      blocks each, then the first of them logs its first block again.  The test for space comes
      before the search for the block, so the write that needs no space panics. */
  lemma RewritePanics(g: Geo, s: State, hb: seq<int>)
    requires Quiet(g, s) && Supply(g, s, hb) && g.size > LOGSIZE
    ensures var e := LogWrite(0, hb[0], ZeroBlock()); var es := Script(hb, LOGSIZE, MAXOPBLOCKS);
            Panics(g, s, es, e, MAXOPBLOCKS) && e.b in Run(g, s, es).value.lh
  {
    hide Run, AllBudgeted, Reserved, Supply, Inv, Loaded, Writes, Script;
    SupplySize(g, s, hb);
    LoadThree(g, s, hb, LOGSIZE, MAXOPBLOCKS);
    LastWrite(g, s, hb, LOGSIZE, Shares(LOGSIZE, MAXOPBLOCKS), MAXOPBLOCKS, Run(g, s, Script(hb, LOGSIZE, MAXOPBLOCKS)).value);
  }

  /** If each of the three goes on with its own m blocks, and together they are more than fit,
      the first write that does not fit panics. */
  lemma NextPanics(g: Geo, s: State, hb: seq<int>, k: nat, m: nat)
    requires Quiet(g, s) && Supply(g, s, hb) && k < 3 * m && k < |hb| && k == (if g.size - 1 <= LOGSIZE then g.size - 1 else LOGSIZE)
    ensures var e := LogWrite(Writer(k, m), hb[k], ZeroBlock());
            Panics(g, s, Script(hb, k, m), e, m) && e.b !in Run(g, s, Script(hb, k, m)).value.lh
  {
    hide Run, AllBudgeted, Reserved, Supply, Inv, Loaded, Script;
    LoadThree(g, s, hb, k, m);
    SharesNext(k, m);
    NewWrite(g, s, hb, k, m, Run(g, s, Script(hb, k, m)).value);
  }

  /** A write that does need space, of a block that is not listed, panics in some budgeted run
      exactly when the region has at most LOGSIZE blocks (mkfs makes LOGSIZE). */
  lemma NewBlockPanicIff(g: Geo, s: State, hb: seq<int>)
    requires Quiet(g, s) && Supply(g, s, hb)
    ensures (forall es, e :: !(Panics(g, s, es, e, MAXOPBLOCKS) && e.b !in Run(g, s, es).value.lh)) <==> g.size > LOGSIZE
  {
    hide Run, AllBudgeted, Reserved, Supply, Inv, Loaded, IsHome, Script;
    if g.size > LOGSIZE {
      forall es, e ensures !(Panics(g, s, es, e, MAXOPBLOCKS) && e.b !in Run(g, s, es).value.lh) {
        if Panics(g, s, es, e, MAXOPBLOCKS) && e.b !in Run(g, s, es).value.lh {
          NothingReserved(s, MAXOPBLOCKS);
          RunReserved(g, s, es, MAXOPBLOCKS);
          NewBlockFits(Run(g, s, es).value, e.p, MAXOPBLOCKS);
        }
      }
    } else {
      SizeOk(g, s);
      SupplySize(g, s, hb);
      NextPanics(g, s, hb, g.size - 1, MAXOPBLOCKS);
    }
  }

  lemma NewBlockFits(s: State, p: int, m: nat)
    requires Reserved(s, m) && p in s.ops && s.ops[p] < m
    ensures |s.lh| < Peak(m)
  {
    hide Sum, Peak;
    SumAt(s.ops, p);
    CountRemove(s.ops, p);
    SumBound(s.ops - {p}, m);
    assert m * |s.ops - {p}| == m * |s.ops| - m;
  }

  lemma NewWrite(g: Geo, s: State, hb: seq<int>, k: nat, m: nat, t: State)
    requires Supply(g, s, hb) && Loaded(s, hb, k, Shares(k, m), t) && k < |hb| && k < 3 * m && (k == LOGSIZE || k == g.size - 1)
    ensures Writes(g, t, LogWrite(Writer(k, m), hb[k], ZeroBlock()), m) && TooBig(g, t) && hb[k] !in t.lh
  {
    hide IsHome, Shares, Writer;
    SharesNext(k, m);
    assert hb[k] !in hb[..k];
  }
}
