/** log.c as a protocol: any number of file-system calls, commit and recovery one
    disk write at a time, and a crash between any two writes. */
module LogRuns {
  import opened Blocks
  import opened Options
  import opened LogSpec

  /** Committing(j) and Booting(j): j writes of commit / recover_from_log are done. */
  datatype Phase = Running | Committing(j: nat) | Booting(j: nat)

  /** cur is what the buffer cache shows, lh the in-memory header, ops maps each outstanding
      call to the number of header entries it added, base the disk when the phase began. */
  datatype State = State(disk: Disk, cur: Disk, lh: seq<int>, ops: map<int, nat>, phase: Phase, base: Disk)

  datatype Event =
    | Begin(p: int)                             // begin_op returns
    | LogWrite(p: int, b: int, data: Block)     // log_write of a changed block
    | End(p: int)                               // end_op
    | DiskWrite                                 // the next bwrite of commit or recovery
    | Crash

  /** The panic test of log_write. */
  predicate TooBig(g: Geo, s: State) {
    |s.lh| >= LOGSIZE || |s.lh| >= g.size - 1
  }

  /** The next write of commit.  (In a reachable state the guard holds.) */
  function CommitStep(g: Geo, s: State, j: nat): (r: Option<State>) {
    if !(Formatted(g, s.base) && Fits(g, s.base, s.lh) && s.cur.Keys == s.base.Keys && j + 1 <= 2 * |s.lh| + 2) then None
    else
      var d := Commit(g, s.base, s.cur, s.lh, j + 1);
      Some(if j + 1 == 2 * |s.lh| + 2 then s.(disk := d, lh := [], phase := Running)
           else s.(disk := d, phase := Committing(j + 1)))
  }

  /** The next write of recover_from_log.  (In a reachable state the guard holds.) */
  function BootStep(g: Geo, s: State, j: nat): (r: Option<State>) {
    if !(Formatted(g, s.base) && Word(s.base[HeadAddr(g)], 0) <= LOGSIZE && Fits(g, s.base, Head(g, s.base))
         && j <= |Head(g, s.base)|) then None
    else
      var bs := Head(g, s.base);
      var d := Boot(g, s.base, bs, j + 1);
      Some(if j == |bs| then s.(disk := d, cur := d, phase := Running)
           else s.(disk := d, phase := Booting(j + 1)))
  }

  /** None: the event is not possible now (begin_op sleeps, log_write panics, ...). */
  function Step(g: Geo, s: State, e: Event): (r: Option<State>) {
    match e
    case Begin(p) =>
      if !s.phase.Running? || p in s.ops || |s.lh| + (|s.ops| + 1) * MAXOPBLOCKS > LOGSIZE then None
      else Some(s.(ops := s.ops[p := 0]))
    case LogWrite(p, b, data) =>
      if !s.phase.Running? || p !in s.ops || !IsHome(g, s.disk, b) || TooBig(g, s) then None
      else
        var t := s.(cur := s.cur[HomeAddr(b) := data]);
        Some(if b in s.lh then t else t.(lh := s.lh + [b], ops := s.ops[p := s.ops[p] + 1]))
    case End(p) =>
      if !s.phase.Running? || p !in s.ops then None
      else
        var t := s.(ops := s.ops - {p});
        Some(if t.ops == map[] && s.lh != [] then t.(phase := Committing(0), base := s.disk) else t)
    case DiskWrite =>
      (match s.phase
       case Running => None
       case Committing(j) => CommitStep(g, s, j)
       case Booting(j) => BootStep(g, s, j))
    case Crash => Some(State(s.disk, s.disk, [], map[], Booting(0), s.disk))
  }

  ghost predicate Distinct(bs: seq<int>) {
    forall i, j :: 0 <= i < j < |bs| ==> bs[i] != bs[j]
  }

  ghost predicate RunningOk(g: Geo, s: State) {
    && Readable(g, s.disk) && Head(g, s.disk) == []
    && Fits(g, s.disk, s.lh) && Distinct(s.lh) && Pending(g, s.disk, s.cur, s.lh)
  }

  ghost predicate CommittingOk(g: Geo, s: State, j: nat) {
    && s.ops == map[] && s.lh != [] && Distinct(s.lh) && j < 2 * |s.lh| + 2
    && Readable(g, s.base) && Head(g, s.base) == [] && Fits(g, s.base, s.lh) && Pending(g, s.base, s.cur, s.lh)
    && s.disk == Commit(g, s.base, s.cur, s.lh, j)
  }

  ghost predicate BootingOk(g: Geo, s: State, j: nat) {
    && s.ops == map[] && s.lh == []
    && Readable(g, s.base) && j <= |Head(g, s.base)| && s.disk == Boot(g, s.base, Head(g, s.base), j)
  }

  ghost predicate Inv(g: Geo, s: State) {
    match s.phase
    case Running => RunningOk(g, s)
    case Committing(j) => CommittingOk(g, s, j)
    case Booting(j) => BootingOk(g, s, j)
  }

  /** Recovery can always read the log, and commit and recovery can always go on. */
  lemma Progress(g: Geo, s: State)
    requires Inv(g, s)
    ensures Readable(g, s.disk) && (!s.phase.Running? ==> Step(g, s, DiskWrite).Some?)
  {
    hide Recovered, Home, Fits, Head, Install, PutLog, PutHead, Boot, LogSpec.Commit, Pending;
    match s.phase
    case Running =>
    case Committing(j) =>
      CommitDefined(g, s.base, s.cur, s.lh);
      CommitCrash(g, s.base, s.cur, s.lh, j);
    case Booting(j) => BootCrash(g, s.base, j);
  }

  /** The write that makes a group durable: the header write of write_head in commit. */
  predicate CommitPoint(s: State, e: Event) {
    e.DiskWrite? && s.phase.Committing? && s.phase.j == |s.lh|
  }

  /** The file system recovery would produce now. */
  ghost function Durable(g: Geo, s: State): Disk
    requires Inv(g, s)
  {
    Progress(g, s);
    Recovered(g, s.disk)
  }

  /** The file system users see: what the cache shows, or what recovery will produce. */
  ghost function Current(g: Geo, s: State): Disk
    requires Inv(g, s)
  {
    if s.phase.Booting? then Durable(g, s) else Home(g, s.cur)
  }

  lemma StepLogWrite(g: Geo, s: State, p: int, b: int, data: Block)
    requires Inv(g, s) && Step(g, s, LogWrite(p, b, data)).Some?
    ensures var t := Step(g, s, LogWrite(p, b, data)).value;
            Inv(g, t) && t.disk == s.disk && t.phase == s.phase && Home(g, t.cur) == Home(g, s.cur)[HomeAddr(b) := data]
  {
    hide Readable, Head, Listed;
    var t := Step(g, s, LogWrite(p, b, data)).value;
    forall a | a in s.disk && !InLog(g, a) && (forall i :: 0 <= i < |t.lh| ==> HomeAddr(t.lh[i]) != a)
      ensures t.cur[a] == s.disk[a]
    {
      assert a != HomeAddr(b) by {
        var i :| 0 <= i < |t.lh| && t.lh[i] == b;
      }
      forall i | 0 <= i < |s.lh| ensures HomeAddr(s.lh[i]) != a {
        assert t.lh[i] == s.lh[i];
      }
    }
  }

  lemma StepCommit(g: Geo, s: State)
    requires Inv(g, s) && s.phase.Committing? && Step(g, s, DiskWrite).Some?
    ensures var t := Step(g, s, DiskWrite).value;
            && Inv(g, t) && t.cur == s.cur && !t.phase.Booting?
            && Durable(g, t) == (if s.phase.j == |s.lh| then Home(g, s.cur) else Durable(g, s))
  {
    hide Commit, Boot, Install, PutLog, PutHead, Recovered, Head, Home, Pending, Fits, Formatted;
    CommitCrash(g, s.base, s.cur, s.lh, s.phase.j);
    CommitCrash(g, s.base, s.cur, s.lh, s.phase.j + 1);
    if s.phase.j + 1 == 2 * |s.lh| + 2 {
      Settled(g, Commit(g, s.base, s.cur, s.lh, s.phase.j + 1), s.cur);
    }
  }

  lemma Settled(g: Geo, d: Disk, v: Disk)
    requires Formatted(g, d) && v.Keys == d.Keys && Home(g, d) == Home(g, v)
    ensures Pending(g, d, v, []) && Fits(g, d, [])
  {
    forall a | a in d && !InLog(g, a) ensures v[a] == d[a] {
      assert a in Home(g, d);
    }
  }

  lemma StepBoot(g: Geo, s: State)
    requires Inv(g, s) && s.phase.Booting? && Step(g, s, DiskWrite).Some?
    ensures var t := Step(g, s, DiskWrite).value;
            Inv(g, t) && Durable(g, t) == Durable(g, s) && Current(g, t) == Durable(g, s)
  {
    hide Boot, Install, Pending, Fits, Formatted;
    BootCrash(g, s.base, s.phase.j);
    BootCrash(g, s.base, s.phase.j + 1);
    var d := Boot(g, s.base, Head(g, s.base), s.phase.j + 1);
    Settled(g, d, d);
  }

  lemma StepEnd(g: Geo, s: State, p: int)
    requires Inv(g, s) && Step(g, s, End(p)).Some?
    ensures var t := Step(g, s, End(p)).value; Inv(g, t) && Durable(g, t) == Durable(g, s) && Current(g, t) == Current(g, s)
  {}

  lemma StepCrash(g: Geo, s: State)
    requires Inv(g, s)
    ensures var t := Step(g, s, Crash).value; Inv(g, t) && Durable(g, t) == Durable(g, s)
  {
    Progress(g, s);
  }

  /** What one step does to the durable and the visible file system. */
  ghost predicate Refines(g: Geo, s: State, e: Event, t: State)
    requires Inv(g, s) && Inv(g, t)
  {
    && Durable(g, t) == (if CommitPoint(s, e) then Current(g, s) else Durable(g, s))
    && (CommitPoint(s, e) ==> s.ops == map[])
    && Current(g, t) == (if e.Crash? then Durable(g, s)
                         else if e.LogWrite? then Current(g, s)[HomeAddr(e.b) := e.data]
                         else Current(g, s))
  }

  /** One step keeps the invariant; the durable file system changes at the commit point only,
      to what users saw, with no call outstanding; users see their writes, and a crash takes
      them back to the durable file system. */
  lemma StepRefines(g: Geo, s: State, e: Event)
    requires Inv(g, s) && Step(g, s, e).Some?
    ensures Inv(g, Step(g, s, e).value) && Refines(g, s, e, Step(g, s, e).value)
  {
    hide Commit, Boot, Install, PutLog, PutHead, Recovered, Head, Home, Pending, Fits, Formatted;
    match e
    case Begin(_) =>
    case End(p) => StepEnd(g, s, p);
    case LogWrite(p, b, data) => StepLogWrite(g, s, p, b, data);
    case DiskWrite => if s.phase.Committing? { StepCommit(g, s); } else { StepBoot(g, s); }
    case Crash => StepCrash(g, s);
  }

  // ----- runs -----

  function Run(g: Geo, s: State, es: seq<Event>): (r: Option<State>)
    decreases |es|
  {
    if es == [] then Some(s)
    else match Step(g, s, es[0])
      case None => None
      case Some(t) => Run(g, t, es[1..])
  }

  lemma {:induction false} RunInv(g: Geo, s: State, es: seq<Event>)
    requires Inv(g, s) && Run(g, s, es).Some?
    ensures Inv(g, Run(g, s, es).value)
    decreases |es|
  {
    if es != [] {
      StepRefines(g, s, es[0]);
      RunInv(g, Step(g, s, es[0]).value, es[1..]);
    }
  }

  /** The file systems committed along a run: what the cache showed when each header was written. */
  function Groups(g: Geo, s: State, es: seq<Event>): seq<Disk>
    decreases |es|
  {
    if es == [] || Step(g, s, es[0]).None? then []
    else
      var rest := Groups(g, Step(g, s, es[0]).value, es[1..]);
      if CommitPoint(s, es[0]) then [Home(g, s.cur)] + rest else rest
  }

  ghost function LastOr(d: Disk, gs: seq<Disk>): Disk {
    if gs == [] then d else gs[|gs| - 1]
  }

  /** Crash atomicity: at every moment of every run, with crashes anywhere, also inside recovery,
      recovery yields the file system after a whole number of committed groups. */
  lemma {:induction false} CrashAtomicity(g: Geo, s: State, es: seq<Event>)
    requires Inv(g, s) && Run(g, s, es).Some?
    ensures Inv(g, Run(g, s, es).value)
    ensures Durable(g, Run(g, s, es).value) == LastOr(Durable(g, s), Groups(g, s, es))
    decreases |es|
  {
    if es != [] {
      StepRefines(g, s, es[0]);
      CrashAtomicity(g, Step(g, s, es[0]).value, es[1..]);
    }
  }

  /** A machine switched on over a readable disk, at the beginning of recovery. */
  lemma AtBoot(g: Geo, d: Disk)
    requires Readable(g, d)
    ensures var s := State(d, d, [], map[], Booting(0), d); Inv(g, s) && Durable(g, s) == Recovered(g, d)
  {
    NoInstall(g, d, Head(g, d));
  }

  /** The writes users made since the last crash, on top of what that crash left. */
  ghost function Seen(g: Geo, s: State, es: seq<Event>, base: Disk): Disk
    requires Inv(g, s)
    decreases |es|
  {
    if es == [] || Step(g, s, es[0]).None? then base
    else
      StepRefines(g, s, es[0]);
      Seen(g, Step(g, s, es[0]).value, es[1..],
           if es[0].Crash? then Durable(g, s)
           else if es[0].LogWrite? then base[HomeAddr(es[0].b) := es[0].data] else base)
  }

  /** What users see along every run: their writes in order, and after a crash the durable file system. */
  lemma {:induction false} UsersSee(g: Geo, s: State, es: seq<Event>)
    requires Inv(g, s) && Run(g, s, es).Some?
    ensures Inv(g, Run(g, s, es).value)
    ensures Current(g, Run(g, s, es).value) == Seen(g, s, es, Current(g, s))
    decreases |es|
  {
    if es != [] {
      StepRefines(g, s, es[0]);
      UsersSee(g, Step(g, s, es[0]).value, es[1..]);
    }
  }

  /** Whenever no call is outstanding along the run, outside recovery, what users see has P. */
  ghost predicate QuietlyHas(g: Geo, s: State, es: seq<Event>, P: Disk -> bool)
    requires Inv(g, s)
    decreases |es|
  {
    && (s.ops == map[] && !s.phase.Booting? ==> P(Current(g, s)))
    && (if es == [] || Step(g, s, es[0]).None? then true
        else
          StepRefines(g, s, es[0]);
          QuietlyHas(g, Step(g, s, es[0]).value, es[1..], P))
  }

  /** What the calls keep true of the file system whenever none of them is outstanding, every
      crash and recovery keeps too. */
  lemma {:induction false} CrashKeeps(g: Geo, s: State, es: seq<Event>, P: Disk -> bool)
    requires Inv(g, s) && Run(g, s, es).Some? && P(Durable(g, s)) && QuietlyHas(g, s, es, P)
    ensures Inv(g, Run(g, s, es).value) && P(Durable(g, Run(g, s, es).value))
    decreases |es|
  {
    hide Inv, Step, Durable, Current;
    if es != [] {
      StepRefines(g, s, es[0]);
      CrashKeeps(g, Step(g, s, es[0]).value, es[1..], P);
    }
  }
}
