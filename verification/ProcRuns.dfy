/** The process table as a state machine, for a table of any size and no threads.  A step is
    what a process does while it holds ptable.lock, or one of fork's writes outside it. */
module ProcRuns {
  datatype Status = UNUSED | EMBRYO | SLEEPING | RUNNABLE | RUNNING | ZOMBIE

  /** What a process sleeps on: a process's address, or something outside proc.c. */
  datatype Chan = Nowhere | OfProc(k: int) | Other(x: int)

  /** Where a process is: outside proc.c, in fork with slot np (linked: np.parent is set), in wait. */
  datatype Place = Out | Forking(np: int, linked: bool) | Waiting

  /** parent is an index into the table, -1 for none. */
  datatype Proc = Proc(state: Status, pid: int, parent: int, chan: Chan, killed: bool, isThread: bool, pgdir: int, place: Place)

  datatype State = State(ps: seq<Proc>, nextpid: int, init: nat)

  datatype Event =
    | Alloc(i: int) | Fail(i: int) | Link(i: int, pgdir: int) | Publish(i: int)
    | Exit(i: int) | Wait(i: int)
    | Dispatch(i: int) | Yield(i: int) | Block(i: int, x: int) | Wakeup(x: int) | Kill(pid: int) | Exec(i: int, pgdir: int)

  /** userinit has made the first process; the other slots are free. */
  function Boot(n: nat, pgdir: int): State
    requires n > 0
  {
    var free := Proc(UNUSED, 0, -1, Nowhere, false, false, 0, Out);
    State(seq(n, k => if k == 0 then free.(state := RUNNABLE, pid := 1, pgdir := pgdir) else free), 2, 0)
  }

  predicate Live(p: Proc) {
    p.state == SLEEPING || p.state == RUNNABLE || p.state == RUNNING
  }

  predicate Made(p: Proc) {
    Live(p) || p.state == ZOMBIE
  }

  /** The process has a page directory of its own. */
  predicate HasPages(p: Proc) {
    Made(p) || (p.state == EMBRYO && p.parent != -1)
  }

  function WakeOne(p: Proc, chan: Chan): Proc {
    if p.state == SLEEPING && p.chan == chan then p.(state := RUNNABLE) else p
  }

  /** wakeup1 */
  function WakeAll(ps: seq<Proc>, chan: Chan): (r: seq<Proc>)
    ensures |r| == |ps| && forall k :: 0 <= k < |ps| ==> r[k] == WakeOne(ps[k], chan)
  {
    seq(|ps|, k requires 0 <= k < |ps| => WakeOne(ps[k], chan))
  }

  predicate ZombieOf(p: Proc, i: int) {
    p.parent == i && p.state == ZOMBIE
  }

  predicate HasZombie(ps: seq<Proc>, i: int) {
    exists c :: 0 <= c < |ps| && ZombieOf(ps[c], i)
  }

  predicate HasKids(ps: seq<Proc>, i: int) {
    exists c :: 0 <= c < |ps| && ps[c].parent == i
  }

  /** Process k after exit of process i. */
  function ExitOne(ps: seq<Proc>, i: int, init: int, k: int): Proc
    requires 0 <= i < |ps| && 0 <= k < |ps|
  {
    var p := ps[k];
    var p1 := if p.parent == i then p.(parent := init) else p;
    if k == i then p1.(state := ZOMBIE)
    else if HasZombie(ps, i) then WakeOne(WakeOne(p1, OfProc(ps[i].parent)), OfProc(init))
    else WakeOne(p1, OfProc(ps[i].parent))
  }

  function ExitOn(ps: seq<Proc>, i: int, init: int): (r: seq<Proc>)
    requires 0 <= i < |ps|
    ensures |r| == |ps| && forall k :: 0 <= k < |ps| ==> r[k] == ExitOne(ps, i, init, k)
  {
    seq(|ps|, k requires 0 <= k < |ps| => ExitOne(ps, i, init, k))
  }

  /** The least index from k on whose process is a zombie child of i, or |ps|. */
  function FirstZombie(ps: seq<Proc>, i: int, k: nat): (z: nat)
    requires k <= |ps|
    ensures k <= z <= |ps| && (z < |ps| ==> ZombieOf(ps[z], i)) && forall c :: k <= c < z ==> !ZombieOf(ps[c], i)
    decreases |ps| - k
  {
    if k == |ps| || ZombieOf(ps[k], i) then k else FirstZombie(ps, i, k + 1)
  }

  function Free(p: Proc): Proc {
    p.(state := UNUSED, pid := 0, parent := -1, killed := false)
  }

  /** One round of wait by process i, and what it returns: a pid, -1, or 0 when it sleeps. */
  function WaitOn(ps: seq<Proc>, i: int): (r: (seq<Proc>, int))
    requires 0 <= i < |ps|
    ensures |r.0| == |ps|
  {
    var z := FirstZombie(ps, i, 0);
    var out := ps[i].(place := Out);
    if z < |ps| then (ps[i := out][z := Free(if z == i then out else ps[z])], ps[z].pid)
    else if !HasKids(ps, i) || ps[i].killed then (ps[i := out], -1)
    else (ps[i := ps[i].(state := SLEEPING, chan := OfProc(i), place := Waiting)], 0)
  }

  /** The least index from k on of a free slot, or |ps|. */
  function FirstFree(ps: seq<Proc>, k: nat): (z: nat)
    requires k <= |ps|
    ensures k <= z <= |ps| && (z < |ps| ==> ps[z].state == UNUSED) && forall c :: k <= c < z ==> ps[c].state != UNUSED
    decreases |ps| - k
  {
    if k == |ps| || ps[k].state == UNUSED then k else FirstFree(ps, k + 1)
  }

  function FirstPid(ps: seq<Proc>, pid: int, k: nat): (z: nat)
    requires k <= |ps|
    ensures k <= z <= |ps| && (z < |ps| ==> ps[z].pid == pid) && forall c :: k <= c < z ==> ps[c].pid != pid
    decreases |ps| - k
  {
    if k == |ps| || ps[k].pid == pid then k else FirstPid(ps, pid, k + 1)
  }

  /** The part of allocproc under the lock. */
  function AllocOn(s: State, i: int): State
    requires 0 <= i < |s.ps|
  {
    var np := FirstFree(s.ps, 0);
    if np == |s.ps| then s
    else
      var p := s.ps[np].(state := EMBRYO, pid := s.nextpid, isThread := false);
      State(s.ps[np := p][i := (if np == i then p else s.ps[i]).(place := Forking(np, false))], s.nextpid + 1, s.init)
  }

  function KillOn(ps: seq<Proc>, pid: int): (r: seq<Proc>)
    ensures |r| == |ps|
  {
    var z := FirstPid(ps, pid, 0);
    if z == |ps| then ps
    else ps[z := ps[z].(killed := true, state := if ps[z].state == SLEEPING then RUNNABLE else ps[z].state)]
  }

  /** A running process i at place `place`. */
  predicate At(s: State, i: int, place: Place) {
    0 <= i < |s.ps| && s.ps[i].state == RUNNING && s.ps[i].place == place
  }

  predicate InFork(s: State, i: int, linked: bool) {
    0 <= i < |s.ps| && s.ps[i].state == RUNNING && s.ps[i].place.Forking? && s.ps[i].place.linked == linked &&
    0 <= s.ps[i].place.np < |s.ps|
  }

  /** No process uses the page directory. */
  predicate Unused(s: State, pgdir: int) {
    forall k :: 0 <= k < |s.ps| && HasPages(s.ps[k]) ==> s.ps[k].pgdir != pgdir
  }

  predicate Enabled(s: State, e: Event) {
    match e
    case Alloc(i) => At(s, i, Out)
    case Fail(i) => InFork(s, i, false)
    case Link(i, pgdir) => InFork(s, i, false) && Unused(s, pgdir)
    case Publish(i) => InFork(s, i, true)
    case Exit(i) => At(s, i, Out) && i != s.init
    case Wait(i) => At(s, i, Out)
    case Dispatch(i) => 0 <= i < |s.ps| && s.ps[i].state == RUNNABLE
    case Yield(i) => 0 <= i < |s.ps| && s.ps[i].state == RUNNING
    case Block(i, x) => 0 <= i < |s.ps| && s.ps[i].state == RUNNING
    case Wakeup(x) => true
    case Kill(pid) => true
    case Exec(i, pgdir) => At(s, i, Out) && Unused(s, pgdir)
  }

  /** What a step returns to a caller: nothing, or the value of wait. */
  datatype Result = Nothing | Waited(pid: int)

  function Step(s: State, e: Event): (State, Result)
    requires Enabled(s, e)
  {
    match e
    case Alloc(i) => (AllocOn(s, i), Nothing)
    case Fail(i) =>
      var np := s.ps[i].place.np;
      var ps1 := s.ps[np := s.ps[np].(state := UNUSED)];
      (s.(ps := ps1[i := ps1[i].(place := Out)]), Nothing)
    case Link(i, pgdir) =>
      var np := s.ps[i].place.np;
      var ps1 := s.ps[np := s.ps[np].(parent := i, pgdir := pgdir, isThread := s.ps[i].isThread)];
      (s.(ps := ps1[i := ps1[i].(place := Forking(np, true))]), Nothing)
    case Publish(i) =>
      var np := s.ps[i].place.np;
      var ps1 := s.ps[np := s.ps[np].(state := RUNNABLE)];
      (s.(ps := ps1[i := ps1[i].(place := Out)]), Nothing)
    case Exit(i) => (s.(ps := ExitOn(s.ps, i, s.init)), Nothing)
    case Wait(i) =>
      var (ps', r) := WaitOn(s.ps, i);
      (s.(ps := ps'), Waited(r))
    case Dispatch(i) =>
      var ps1 := s.ps[i := s.ps[i].(state := RUNNING, chan := Nowhere)];
      if s.ps[i].place == Waiting then
        var (ps', r) := WaitOn(ps1, i);
        (s.(ps := ps'), Waited(r))
      else (s.(ps := ps1), Nothing)
    case Yield(i) => (s.(ps := s.ps[i := s.ps[i].(state := RUNNABLE)]), Nothing)
    case Block(i, x) => (s.(ps := s.ps[i := s.ps[i].(state := SLEEPING, chan := Other(x))]), Nothing)
    case Wakeup(x) => (s.(ps := WakeAll(s.ps, Other(x))), Nothing)
    case Kill(pid) => (s.(ps := KillOn(s.ps, pid)), Nothing)
    case Exec(i, pgdir) => (s.(ps := s.ps[i := s.ps[i].(pgdir := pgdir)]), Nothing)
  }

  /** A free slot has no parent; every process but the first has a live one; a slot being
      filled has none yet or the process that is filling it. */
  predicate ParentOk(s: State, k: int)
    requires 0 <= k < |s.ps|
  {
    var p := s.ps[k];
    && (p.state == UNUSED ==> p.parent == -1)
    && (p.state == EMBRYO ==> p.parent == -1 || (0 <= p.parent < |s.ps| && s.ps[p.parent].place == Forking(k, true)))
    && (Made(p) && k != s.init ==> 0 <= p.parent < |s.ps| && p.parent != k && Live(s.ps[p.parent]))
    && (k == s.init ==> Live(p) && p.parent == -1)
  }

  /** A process sleeping in wait has children and none of them is a zombie. */
  predicate SleepOk(s: State, k: int)
    requires 0 <= k < |s.ps|
  {
    var p := s.ps[k];
    && (p.chan != Nowhere ==> p.state == SLEEPING || p.state == RUNNABLE)
    && (p.state == SLEEPING ==> p.chan != Nowhere)
    && (p.chan.OfProc? ==> p.chan.k == k)
    && (p.place == Waiting <==> p.chan.OfProc?)
    && (p.state == SLEEPING && p.place == Waiting ==> HasKids(s.ps, k) && !HasZombie(s.ps, k))
  }

  predicate ForkOk(s: State, k: int)
    requires 0 <= k < |s.ps|
  {
    var p := s.ps[k];
    && (p.place != Out ==> Live(p))
    && (p.place.Forking? ==>
          && 0 <= p.place.np < |s.ps| && p.place.np != k && s.ps[p.place.np].state == EMBRYO
          && s.ps[p.place.np].parent == if p.place.linked then k else -1)
    && !p.isThread
  }

  /** Process ids and page directories are not shared; no two forks fill one slot. */
  predicate PairOk(s: State, j: int, k: int)
    requires 0 <= j < |s.ps| && 0 <= k < |s.ps|
  {
    var p, q := s.ps[j], s.ps[k];
    && (p.state != UNUSED && q.state != UNUSED ==> p.pid != q.pid)
    && (HasPages(p) && HasPages(q) ==> p.pgdir != q.pgdir)
    && (p.place.Forking? && q.place.Forking? ==> p.place.np != q.place.np)
  }

  predicate PidOk(s: State, k: int)
    requires 0 <= k < |s.ps|
  {
    (s.ps[k].state != UNUSED ==> 0 < s.ps[k].pid) && s.ps[k].pid < s.nextpid
  }

  predicate EachOk(s: State, k: int)
    requires 0 <= k < |s.ps|
  {
    ParentOk(s, k) && SleepOk(s, k) && ForkOk(s, k) && PidOk(s, k)
  }

  predicate Inv(s: State) {
    && s.init < |s.ps| && s.nextpid > 0
    && (forall k :: 0 <= k < |s.ps| ==> EachOk(s, k))
    && (forall j, k :: 0 <= j < |s.ps| && 0 <= k < |s.ps| && j != k ==> PairOk(s, j, k))
  }

  lemma BootInv(n: nat, pgdir: int)
    requires n > 0
    ensures Inv(Boot(n, pgdir))
  {}

  /** Only scheduling changed: states of live processes, and what they sleep on. */
  predicate Mild(p: Proc, p': Proc) {
    && p' == p.(state := p'.state, chan := p'.chan, killed := p'.killed)
    && (if Live(p) then Live(p') else p'.state == p.state)
    && (p'.chan != Nowhere ==> p'.state == SLEEPING || p'.state == RUNNABLE)
    && (p'.state == SLEEPING ==> p'.chan != Nowhere)
    && (p'.chan != p.chan ==> !p'.chan.OfProc? && !p.chan.OfProc?)
    && (p'.state == SLEEPING && p.place == Waiting ==> p.state == SLEEPING)
  }

  lemma MildInv(s: State, s': State)
    requires Inv(s) && s' == s.(ps := s'.ps) && |s'.ps| == |s.ps|
    requires forall k :: 0 <= k < |s.ps| ==> Mild(s.ps[k], s'.ps[k])
    ensures Inv(s')
  {
    forall k | 0 <= k < |s.ps| ensures EachOk(s', k) { MildEach(s, s', k); }
    forall j, k | 0 <= j < |s.ps| && 0 <= k < |s.ps| && j != k ensures PairOk(s', j, k) { assert PairOk(s, j, k); }
  }

  lemma MildEach(s: State, s': State, k: int)
    requires Inv(s) && s' == s.(ps := s'.ps) && |s'.ps| == |s.ps| && 0 <= k < |s.ps|
    requires forall k :: 0 <= k < |s.ps| ==> Mild(s.ps[k], s'.ps[k])
    ensures EachOk(s', k)
  {
    assert EachOk(s, k);
    assert HasKids(s.ps, k) ==> HasKids(s'.ps, k) by {
      if c :| 0 <= c < |s.ps| && s.ps[c].parent == k { assert s'.ps[c].parent == k; }
    }
    assert HasZombie(s'.ps, k) ==> HasZombie(s.ps, k) by {
      if c :| 0 <= c < |s.ps| && ZombieOf(s'.ps[c], k) { assert ZombieOf(s.ps[c], k); }
    }
  }

  lemma YieldInv(s: State, i: int)
    requires Inv(s) && Enabled(s, Yield(i))
    ensures Inv(Step(s, Yield(i)).0)
  {
    var s' := Step(s, Yield(i)).0;
    forall k | 0 <= k < |s.ps| ensures Mild(s.ps[k], s'.ps[k]) { assert EachOk(s, k); }
    MildInv(s, s');
  }

  lemma BlockInv(s: State, i: int, x: int)
    requires Inv(s) && Enabled(s, Block(i, x))
    ensures Inv(Step(s, Block(i, x)).0)
  {
    var s' := Step(s, Block(i, x)).0;
    forall k | 0 <= k < |s.ps| ensures Mild(s.ps[k], s'.ps[k]) { assert EachOk(s, k); }
    MildInv(s, s');
  }

  lemma WakeupInv(s: State, x: int)
    requires Inv(s)
    ensures Inv(Step(s, Wakeup(x)).0)
  {
    var s' := Step(s, Wakeup(x)).0;
    forall k | 0 <= k < |s.ps| ensures Mild(s.ps[k], s'.ps[k]) { assert EachOk(s, k); }
    MildInv(s, s');
  }

  lemma KillInv(s: State, pid: int)
    requires Inv(s)
    ensures Inv(Step(s, Kill(pid)).0)
  {
    var s' := Step(s, Kill(pid)).0;
    forall k | 0 <= k < |s.ps| ensures Mild(s.ps[k], s'.ps[k]) { assert EachOk(s, k); }
    MildInv(s, s');
  }

  lemma ExecInv(s: State, i: int, pgdir: int)
    requires Inv(s) && Enabled(s, Exec(i, pgdir))
    ensures Inv(Step(s, Exec(i, pgdir)).0)
  {
    var s' := Step(s, Exec(i, pgdir)).0;
    forall k | 0 <= k < |s.ps| ensures EachOk(s', k) {
      assert EachOk(s, k);
      SameKids(s.ps, s'.ps, k);
    }
    forall j, k | 0 <= j < |s.ps| && 0 <= k < |s.ps| && j != k ensures PairOk(s', j, k) { assert PairOk(s, j, k); }
  }

  lemma SameKids(ps: seq<Proc>, ps': seq<Proc>, k: int)
    requires |ps'| == |ps|
    requires forall c :: 0 <= c < |ps| ==> (ps'[c].parent == k <==> ps[c].parent == k) && (ZombieOf(ps'[c], k) <==> ZombieOf(ps[c], k))
    ensures HasKids(ps', k) <==> HasKids(ps, k)
    ensures HasZombie(ps', k) <==> HasZombie(ps, k)
  {
    if HasKids(ps, k) { var c :| 0 <= c < |ps| && ps[c].parent == k; assert ps'[c].parent == k; }
    if HasZombie(ps, k) { var c :| 0 <= c < |ps| && ZombieOf(ps[c], k); assert ZombieOf(ps'[c], k); }
  }

  lemma AllocInv(s: State, i: int)
    requires Inv(s) && Enabled(s, Alloc(i))
    ensures Inv(Step(s, Alloc(i)).0)
  {
    hide EachOk, PairOk;
    var s' := AllocOn(s, i);
    if FirstFree(s.ps, 0) < |s.ps| {
      forall k | 0 <= k < |s.ps| ensures EachOk(s', k) { AllocEach(s, i, k); }
      forall j, k | 0 <= j < |s.ps| && 0 <= k < |s.ps| && j != k ensures PairOk(s', j, k) { AllocPair(s, i, j, k); }
    }
  }

  lemma AllocEach(s: State, i: int, k: int)
    requires Inv(s) && Enabled(s, Alloc(i)) && FirstFree(s.ps, 0) < |s.ps| && 0 <= k < |s.ps|
    ensures EachOk(AllocOn(s, i), k)
  {
    hide Inv, HasKids, HasZombie, FirstFree;
    var np := FirstFree(s.ps, 0);
    var s' := AllocOn(s, i);
    InitIn(s);
    Show(s, k);
    Show(s, i);
    Show(s, np);
    AllocShape(s, i);
    hide AllocOn;
    SameKids(s.ps, s'.ps, k);
    assert ParentOk(s', k) && SleepOk(s', k);
    assert ForkOk(s', k);
  }

  lemma AllocShape(s: State, i: int)
    requires Enabled(s, Alloc(i)) && FirstFree(s.ps, 0) < |s.ps|
    ensures var (s', np) := (AllocOn(s, i), FirstFree(s.ps, 0));
            && |s'.ps| == |s.ps| && s'.init == s.init && s'.nextpid == s.nextpid + 1 && np != i && s.ps[np].state == UNUSED
            && s'.ps[np] == s.ps[np].(state := EMBRYO, pid := s.nextpid, isThread := false)
            && s'.ps[i] == s.ps[i].(place := Forking(np, false))
            && forall k :: 0 <= k < |s.ps| && k != np && k != i ==> s'.ps[k] == s.ps[k]
  {
    hide FirstFree;
  }

  lemma AllocPair(s: State, i: int, j: int, k: int)
    requires Inv(s) && Enabled(s, Alloc(i)) && FirstFree(s.ps, 0) < |s.ps| && 0 <= j < |s.ps| && 0 <= k < |s.ps| && j != k
    ensures PairOk(AllocOn(s, i), j, k)
  {
    hide Inv, FirstFree;
    Show(s, j);
    Show(s, k);
    Show(s, i);
    ShowPair(s, j, k);
  }

  lemma Show(s: State, k: int)
    requires Inv(s) && 0 <= k < |s.ps|
    ensures EachOk(s, k)
  {}

  lemma FailInv(s: State, i: int)
    requires Inv(s) && Enabled(s, Fail(i))
    ensures Inv(Step(s, Fail(i)).0)
  {
    hide EachOk, PairOk;
    var s' := Step(s, Fail(i)).0;
    forall k | 0 <= k < |s.ps| ensures EachOk(s', k) { FailEach(s, i, k); }
    forall j, k | 0 <= j < |s.ps| && 0 <= k < |s.ps| && j != k ensures PairOk(s', j, k) { FailPair(s, i, j, k); }
  }

  lemma FailEach(s: State, i: int, k: int)
    requires Inv(s) && Enabled(s, Fail(i)) && 0 <= k < |s.ps|
    ensures EachOk(Step(s, Fail(i)).0, k)
  {
    hide Inv, HasKids, HasZombie;
    InitIn(s);
    Show(s, s.ps[i].place.np);
    Show(s, i);
    Show(s, k);
    if k != i { ShowPair(s, i, k); }
    SameKids(s.ps, Step(s, Fail(i)).0.ps, k);
  }

  lemma FailPair(s: State, i: int, j: int, k: int)
    requires Inv(s) && Enabled(s, Fail(i)) && 0 <= j < |s.ps| && 0 <= k < |s.ps| && j != k
    ensures PairOk(Step(s, Fail(i)).0, j, k)
  {
    hide Inv;
    Show(s, s.ps[i].place.np);
    Show(s, i);
    ShowPair(s, j, k);
  }

  lemma LinkInv(s: State, i: int, pgdir: int)
    requires Inv(s) && Enabled(s, Link(i, pgdir))
    ensures Inv(Step(s, Link(i, pgdir)).0)
  {
    hide EachOk, PairOk;
    var s' := Step(s, Link(i, pgdir)).0;
    forall k | 0 <= k < |s.ps| ensures EachOk(s', k) { LinkEach(s, i, pgdir, k); }
    forall j, k | 0 <= j < |s.ps| && 0 <= k < |s.ps| && j != k ensures PairOk(s', j, k) { LinkPair(s, i, pgdir, j, k); }
  }

  lemma LinkEach(s: State, i: int, pgdir: int, k: int)
    requires Inv(s) && Enabled(s, Link(i, pgdir)) && 0 <= k < |s.ps|
    ensures EachOk(Step(s, Link(i, pgdir)).0, k)
  {
    hide Inv, HasKids, HasZombie, Unused;
    InitIn(s);
    Show(s, s.ps[i].place.np);
    Show(s, i);
    Show(s, k);
    if k != i {
      ShowPair(s, i, k);
      SameKids(s.ps, Step(s, Link(i, pgdir)).0.ps, k);
    }
  }

  lemma LinkPair(s: State, i: int, pgdir: int, j: int, k: int)
    requires Inv(s) && Enabled(s, Link(i, pgdir)) && 0 <= j < |s.ps| && 0 <= k < |s.ps| && j != k
    ensures PairOk(Step(s, Link(i, pgdir)).0, j, k)
  {
    hide Inv;
    Show(s, s.ps[i].place.np);
    Show(s, i);
    ShowPair(s, j, k);
  }

  lemma PublishInv(s: State, i: int)
    requires Inv(s) && Enabled(s, Publish(i))
    ensures Inv(Step(s, Publish(i)).0)
  {
    hide EachOk, PairOk;
    var s' := Step(s, Publish(i)).0;
    forall k | 0 <= k < |s.ps| ensures EachOk(s', k) { PublishEach(s, i, k); }
    forall j, k | 0 <= j < |s.ps| && 0 <= k < |s.ps| && j != k ensures PairOk(s', j, k) { PublishPair(s, i, j, k); }
  }

  lemma PublishEach(s: State, i: int, k: int)
    requires Inv(s) && Enabled(s, Publish(i)) && 0 <= k < |s.ps|
    ensures EachOk(Step(s, Publish(i)).0, k)
  {
    hide Inv, HasKids, HasZombie;
    InitIn(s);
    Show(s, s.ps[i].place.np);
    Show(s, i);
    Show(s, k);
    if k != i { ShowPair(s, i, k); }
    SameKids(s.ps, Step(s, Publish(i)).0.ps, k);
  }

  lemma PublishPair(s: State, i: int, j: int, k: int)
    requires Inv(s) && Enabled(s, Publish(i)) && 0 <= j < |s.ps| && 0 <= k < |s.ps| && j != k
    ensures PairOk(Step(s, Publish(i)).0, j, k)
  {
    hide Inv;
    Show(s, s.ps[i].place.np);
    Show(s, i);
    ShowPair(s, j, k);
  }

  lemma ExitInv(s: State, i: int)
    requires Inv(s) && Enabled(s, Exit(i))
    ensures Inv(Step(s, Exit(i)).0)
  {
    hide EachOk, PairOk;
    var s' := Step(s, Exit(i)).0;
    forall k | 0 <= k < |s.ps| ensures EachOk(s', k) { ExitEach(s, i, s', k); }
    forall j, k | 0 <= j < |s.ps| && 0 <= k < |s.ps| && j != k ensures PairOk(s', j, k) { ExitPair(s, i, s', j, k); }
  }

  lemma ExitPair(s: State, i: int, s': State, j: int, k: int)
    requires Inv(s) && Enabled(s, Exit(i)) && s' == Step(s, Exit(i)).0 && 0 <= j < |s.ps| && 0 <= k < |s.ps| && j != k
    ensures PairOk(s', j, k)
  {
    ShowPair(s, j, k);
    hide Inv, HasZombie, Step;
    InitIn(s);
    Show(s, s.init);
    Show(s, i);
    Show(s, j);
    Show(s, k);
    ExitShape(s, i, s', j);
    ExitShape(s, i, s', k);
  }

  lemma InitIn(s: State)
    requires Inv(s)
    ensures s.init < |s.ps| && s.nextpid > 0
  {}

  lemma ShowPair(s: State, j: int, k: int)
    requires Inv(s) && 0 <= j < |s.ps| && 0 <= k < |s.ps| && j != k
    ensures PairOk(s, j, k)
  {}

  /** What exit of i does to process k. */
  lemma ExitShape(s: State, i: int, s': State, k: int)
    requires Enabled(s, Exit(i)) && s' == Step(s, Exit(i)).0 && 0 <= k < |s.ps|
    ensures |s'.ps| == |s.ps| && s'.init == s.init && s'.nextpid == s.nextpid
    ensures var p, p' := s.ps[k], s'.ps[k];
            && p' == p.(state := p'.state, parent := p'.parent)
            && p'.parent == (if p.parent == i then s.init else p.parent)
            && (if k == i then p'.state == ZOMBIE else p'.state == p.state || (p.state == SLEEPING && p'.state == RUNNABLE))
            && (k != i && p.state == SLEEPING ==>
                  (p'.state == RUNNABLE <==> p.chan == OfProc(s.ps[i].parent) || (HasZombie(s.ps, i) && p.chan == OfProc(s.init))))
  {
    hide HasZombie;
  }

  lemma ExitEach(s: State, i: int, s': State, k: int)
    requires Inv(s) && Enabled(s, Exit(i)) && s' == Step(s, Exit(i)).0 && 0 <= k < |s.ps|
    ensures EachOk(s', k)
  {
    hide Inv, HasZombie, HasKids, Step;
    InitIn(s);
    ExitShape(s, i, s', k);
    ExitParent(s, i, s', k);
    ExitSleep(s, i, s', k);
    Show(s, k);
    Show(s, i);
    if s.ps[k].place.Forking? { ExitShape(s, i, s', s.ps[k].place.np); }
  }

  lemma ExitParent(s: State, i: int, s': State, k: int)
    requires Inv(s) && Enabled(s, Exit(i)) && s' == Step(s, Exit(i)).0 && 0 <= k < |s.ps| && |s'.ps| == |s.ps|
    ensures ParentOk(s', k)
  {
    hide Inv, HasZombie, HasKids, Step;
    InitIn(s);
    Show(s, k);
    Show(s, i);
    Show(s, s.init);
    ExitShape(s, i, s', k);
    ExitShape(s, i, s', s.init);
    if 0 <= s.ps[k].parent < |s.ps| { ExitShape(s, i, s', s.ps[k].parent); }
  }

  lemma ExitSleep(s: State, i: int, s': State, k: int)
    requires Inv(s) && Enabled(s, Exit(i)) && s' == Step(s, Exit(i)).0 && 0 <= k < |s.ps| && |s'.ps| == |s.ps|
    ensures SleepOk(s', k)
  {
    hide Inv, HasZombie, HasKids, Step;
    Show(s, k);
    Show(s, i);
    ExitShape(s, i, s', k);
    if k != i {
      ExitKids(s, i, s', k);
      assert s.ps[k].place == Waiting ==> s.ps[k].chan == OfProc(k);
    }
  }

  /** Who has children and zombie children after exit. */
  lemma ExitKids(s: State, i: int, s': State, k: int)
    requires Inv(s) && Enabled(s, Exit(i)) && s' == Step(s, Exit(i)).0 && 0 <= k < |s.ps| && k != i
    ensures HasKids(s.ps, k) ==> HasKids(s'.ps, k)
    ensures HasZombie(s'.ps, k) ==> HasZombie(s.ps, k) || k == s.ps[i].parent || (k == s.init && HasZombie(s.ps, i))
  {
    Show(s, i);
    if c :| 0 <= c < |s.ps| && s.ps[c].parent == k { assert s'.ps[c].parent == k; }
    if c :| 0 <= c < |s.ps| && ZombieOf(s'.ps[c], k) {
      assert s'.ps[c] == ExitOne(s.ps, i, s.init, c);
      assert c != i ==> ZombieOf(s.ps[c], k) || ZombieOf(s.ps[c], i);
    }
  }

  lemma WaitInv(s: State, i: int)
    requires Inv(s) && Enabled(s, Wait(i))
    ensures Inv(Step(s, Wait(i)).0)
  {
    hide EachOk, PairOk, HasKids, FirstZombie;
    var z := FirstZombie(s.ps, i, 0);
    if z < |s.ps| {
      ReapInv(s, i, z);
      assert Step(s, Wait(i)).0.ps == s.ps[z := Free(s.ps[z])];
    } else if !HasKids(s.ps, i) || s.ps[i].killed {
      assert Step(s, Wait(i)).0.ps == s.ps;
    } else {
      NoZombie(s.ps, i);
      WaitSleepInv(s, i);
    }
  }

  lemma ReapInv(s: State, i: int, z: int)
    requires Inv(s) && At(s, i, Out) && 0 <= z < |s.ps| && ZombieOf(s.ps[z], i)
    ensures Inv(s.(ps := s.ps[z := Free(s.ps[z])]))
  {
    var s' := s.(ps := s.ps[z := Free(s.ps[z])]);
    hide EachOk, PairOk;
    forall k | 0 <= k < |s.ps| ensures EachOk(s', k) { ReapEach(s, i, z, k); }
    forall j, k | 0 <= j < |s.ps| && 0 <= k < |s.ps| && j != k ensures PairOk(s', j, k) {
      ShowPair(s, j, k);
      ReapPair(s, z, j, k);
    }
  }

  lemma ReapPair(s: State, z: int, j: int, k: int)
    requires 0 <= j < |s.ps| && 0 <= k < |s.ps| && 0 <= z < |s.ps| && PairOk(s, j, k)
    ensures PairOk(s.(ps := s.ps[z := Free(s.ps[z])]), j, k)
  {}

  lemma ReapEach(s: State, i: int, z: int, k: int)
    requires Inv(s) && At(s, i, Out) && 0 <= z < |s.ps| && ZombieOf(s.ps[z], i) && 0 <= k < |s.ps|
    ensures EachOk(s.(ps := s.ps[z := Free(s.ps[z])]), k)
  {
    hide Inv, HasZombie, HasKids;
    InitIn(s);
    Show(s, k);
    Show(s, i);
    Show(s, z);
    if k != i { SameKids(s.ps, s.ps[z := Free(s.ps[z])], k); }
  }

  lemma WaitSleepInv(s: State, i: int)
    requires Inv(s) && At(s, i, Out) && HasKids(s.ps, i) && !HasZombie(s.ps, i)
    ensures Inv(s.(ps := s.ps[i := s.ps[i].(state := SLEEPING, chan := OfProc(i), place := Waiting)]))
  {
    var s' := s.(ps := s.ps[i := s.ps[i].(state := SLEEPING, chan := OfProc(i), place := Waiting)]);
    Show(s, i);
    forall k | 0 <= k < |s.ps| ensures EachOk(s', k) {
      Show(s, k);
      SameKids(s.ps, s'.ps, k);
    }
    forall j, k | 0 <= j < |s.ps| && 0 <= k < |s.ps| && j != k ensures PairOk(s', j, k) { ShowPair(s, j, k); }
  }

  lemma NoZombie(ps: seq<Proc>, i: int)
    requires FirstZombie(ps, i, 0) == |ps|
    ensures !HasZombie(ps, i)
  {}

  lemma DispatchInv(s: State, i: int)
    requires Inv(s) && Enabled(s, Dispatch(i))
    ensures Inv(Step(s, Dispatch(i)).0)
  {
    hide Inv, HasKids, HasZombie, WaitOn;
    var s1 := s.(ps := s.ps[i := s.ps[i].(state := RUNNING, chan := Nowhere, place := if s.ps[i].place == Waiting then Out else s.ps[i].place)]);
    RunningInv(s, i);
    if s.ps[i].place == Waiting {
      WaitInv(s1, i);
      WaitSame(s.ps[i := s.ps[i].(state := RUNNING, chan := Nowhere)], s1.ps, i);
    }
  }

  lemma RunningInv(s: State, i: int)
    requires Inv(s) && Enabled(s, Dispatch(i))
    ensures Inv(s.(ps := s.ps[i := s.ps[i].(state := RUNNING, chan := Nowhere, place := if s.ps[i].place == Waiting then Out else s.ps[i].place)]))
  {
    var s1 := s.(ps := s.ps[i := s.ps[i].(state := RUNNING, chan := Nowhere, place := if s.ps[i].place == Waiting then Out else s.ps[i].place)]);
    hide EachOk, PairOk;
    forall k | 0 <= k < |s.ps| ensures EachOk(s1, k) { RunningEach(s, i, s1, k); }
    forall j, k | 0 <= j < |s.ps| && 0 <= k < |s.ps| && j != k ensures PairOk(s1, j, k) { RunningPair(s, i, s1, j, k); }
  }

  lemma RunningEach(s: State, i: int, s1: State, k: int)
    requires Inv(s) && Enabled(s, Dispatch(i)) && 0 <= k < |s.ps|
    requires s1 == s.(ps := s.ps[i := s.ps[i].(state := RUNNING, chan := Nowhere, place := if s.ps[i].place == Waiting then Out else s.ps[i].place)])
    ensures EachOk(s1, k)
  {
    hide Inv, HasKids, HasZombie;
    InitIn(s);
    Show(s, i);
    Show(s, k);
    SameKids(s.ps, s1.ps, k);
  }

  lemma RunningPair(s: State, i: int, s1: State, j: int, k: int)
    requires Inv(s) && Enabled(s, Dispatch(i)) && 0 <= j < |s.ps| && 0 <= k < |s.ps| && j != k
    requires s1 == s.(ps := s.ps[i := s.ps[i].(state := RUNNING, chan := Nowhere, place := if s.ps[i].place == Waiting then Out else s.ps[i].place)])
    ensures PairOk(s1, j, k)
  {
    ShowPair(s, j, k);
    hide Inv;
  }

  /** Where process i was makes no difference to a round of wait. */
  lemma WaitSame(ps: seq<Proc>, ps': seq<Proc>, i: int)
    requires 0 <= i < |ps| && ps' == ps[i := ps[i].(place := Out)]
    ensures WaitOn(ps, i) == WaitOn(ps', i)
  {
    SameKids(ps, ps', i);
    var z := FirstZombie(ps, i, 0);
    assert ZombieOf(ps[i], i) <==> ZombieOf(ps'[i], i);
    assert forall c :: 0 <= c < |ps| ==> (ZombieOf(ps[c], i) <==> ZombieOf(ps'[c], i));
    assert FirstZombie(ps', i, 0) == z;
    var sleep := ps[i].(state := SLEEPING, chan := OfProc(i), place := Waiting);
    assert ps[i := ps[i].(place := Out)] == ps'[i := ps'[i].(place := Out)] && ps[i := sleep] == ps'[i := sleep];
  }

  lemma StepInv(s: State, e: Event)
    requires Inv(s) && Enabled(s, e)
    ensures Inv(Step(s, e).0)
  {
    hide Inv, Enabled, Step;
    match e
    case Alloc(i) => AllocInv(s, i);
    case Fail(i) => FailInv(s, i);
    case Link(i, pgdir) => LinkInv(s, i, pgdir);
    case Publish(i) => PublishInv(s, i);
    case Exit(i) => ExitInv(s, i);
    case Wait(i) => WaitInv(s, i);
    case Dispatch(i) => DispatchInv(s, i);
    case Yield(i) => YieldInv(s, i);
    case Block(i, x) => BlockInv(s, i, x);
    case Wakeup(x) => WakeupInv(s, x);
    case Kill(pid) => KillInv(s, pid);
    case Exec(i, pgdir) => ExecInv(s, i, pgdir);
  }

  /** The events of a run from boot with n slots. */
  ghost predicate Possible(n: nat, pgdir: int, es: seq<Event>)
    requires n > 0
    decreases |es|, 0
  {
    es == [] || (Possible(n, pgdir, es[..|es| - 1]) && Enabled(After(n, pgdir, es[..|es| - 1]), es[|es| - 1]))
  }

  ghost function After(n: nat, pgdir: int, es: seq<Event>): State
    requires n > 0 && Possible(n, pgdir, es)
    decreases |es|, 1
  {
    if es == [] then Boot(n, pgdir) else Step(After(n, pgdir, es[..|es| - 1]), es[|es| - 1]).0
  }

  lemma {:induction false} RunInv(n: nat, pgdir: int, es: seq<Event>)
    requires n > 0 && Possible(n, pgdir, es)
    ensures Inv(After(n, pgdir, es))
    decreases |es|
  {
    hide Inv, Enabled, Step;
    if es == [] {
      BootInv(n, pgdir);
    } else {
      RunInv(n, pgdir, es[..|es| - 1]);
      StepInv(After(n, pgdir, es[..|es| - 1]), es[|es| - 1]);
    }
  }

  /** Whoever sleeps in wait has no zombie child. */
  lemma NoLostWakeup(n: nat, pgdir: int, es: seq<Event>, k: int, c: int)
    requires n > 0 && Possible(n, pgdir, es)
    requires var ps := After(n, pgdir, es).ps; 0 <= k < |ps| && 0 <= c < |ps| && ps[k].state == SLEEPING && ps[k].place == Waiting
    ensures var ps := After(n, pgdir, es).ps; !ZombieOf(ps[c], k)
  {
    RunInv(n, pgdir, es);
    Show(After(n, pgdir, es), k);
  }

  /** The first process never exits, and every other one has a live parent. */
  lemma LiveParents(n: nat, pgdir: int, es: seq<Event>, k: int)
    requires n > 0 && Possible(n, pgdir, es)
    requires var ps := After(n, pgdir, es).ps; 0 <= k < |ps| && Made(ps[k])
    ensures var s := After(n, pgdir, es);
            if k == s.init then Live(s.ps[k]) else 0 <= s.ps[k].parent < |s.ps| && s.ps[k].parent != k && Live(s.ps[s.ps[k].parent])
  {
    RunInv(n, pgdir, es);
    Show(After(n, pgdir, es), k);
  }

  /** A process calling wait with a zombie child gets the pid of one and frees its slot. */
  lemma WaitReaps(s: State, i: int)
    requires Inv(s) && At(s, i, Out) && HasZombie(s.ps, i)
    ensures var (s', r) := Step(s, Wait(i));
            exists z :: 0 <= z < |s.ps| && ZombieOf(s.ps[z], i) && r == Waited(s.ps[z].pid) && s'.ps == s.ps[z := Free(s.ps[z])]
  {
    hide Inv;
    var z := FirstZombie(s.ps, i, 0);
    assert ZombieOf(s.ps[z], i);
    assert Step(s, Wait(i)).0.ps == s.ps[z := Free(s.ps[z])];
  }

  /** wait, called or woken: -1 exactly without a zombie child when there is no child at all or the
      caller was killed; asleep exactly when there are children, no zombie, and it was not killed. */
  lemma WaitAnswers(s: State, i: int, e: Event)
    requires Inv(s) && Enabled(s, e) && (e == Wait(i) || (e == Dispatch(i) && s.ps[i].place == Waiting))
    ensures var (s', r) := Step(s, e);
            var kids := exists c :: 0 <= c < |s.ps| && s.ps[c].parent == i;
            var zombie := exists c :: 0 <= c < |s.ps| && s.ps[c].parent == i && s.ps[c].state == ZOMBIE;
            && r.Waited? && |s'.ps| == |s.ps|
            && (r.pid > 0 <==> zombie)
            && (r.pid == -1 <==> !zombie && (!kids || s.ps[i].killed))
            && (r.pid == 0 <==> kids && !zombie && !s.ps[i].killed)
            && s'.ps[i] == (if r.pid == 0 then s.ps[i].(state := SLEEPING, chan := OfProc(i), place := Waiting)
                            else s.ps[i].(state := RUNNING, chan := Nowhere, place := Out))
            && forall k :: 0 <= k < |s.ps| && k != i ==>
                 s'.ps[k] == s.ps[k] || (s.ps[k].parent == i && s.ps[k].state == ZOMBIE && r.pid == s.ps[k].pid && s'.ps[k].state == UNUSED)
  {
    Show(s, i);
    var ps1 := s.ps[i := s.ps[i].(state := RUNNING, chan := Nowhere)];
    forall c | 0 <= c < |s.ps| && ZombieOf(ps1[c], i) ensures ps1[c].pid > 0 { Show(s, c); }
    hide Inv, WaitOn;
    assert e.Wait? ==> ps1 == s.ps;
    WaitRound(ps1, i);
    SameKids(s.ps, ps1, i);
  }

  lemma WaitRound(ps: seq<Proc>, i: int)
    requires 0 <= i < |ps| && ps[i].state == RUNNING && forall c :: 0 <= c < |ps| && ZombieOf(ps[c], i) ==> ps[c].pid > 0
    ensures var (ps', r) := WaitOn(ps, i);
            && (r > 0 <==> HasZombie(ps, i)) && (r == -1 <==> !HasZombie(ps, i) && (!HasKids(ps, i) || ps[i].killed))
            && (r == 0 <==> HasKids(ps, i) && !HasZombie(ps, i) && !ps[i].killed)
            && ps'[i] == (if r == 0 then ps[i].(state := SLEEPING, chan := OfProc(i), place := Waiting) else ps[i].(place := Out))
            && forall k :: 0 <= k < |ps| && k != i ==> ps'[k] == ps[k] || (ZombieOf(ps[k], i) && r == ps[k].pid && ps'[k].state == UNUSED)
  {
    hide FirstZombie;
    var z := FirstZombie(ps, i, 0);
    if z < |ps| { assert ZombieOf(ps[z], i); }
  }

  /** fork: the child is runnable with the caller as its parent and a pid of its own; nothing else changes. */
  lemma ForkMakes(s: State, i: int, pgdir: int)
    requires Inv(s) && At(s, i, Out) && Unused(s, pgdir) && exists k :: 0 <= k < |s.ps| && s.ps[k].state == UNUSED
    ensures var s1 := Step(s, Alloc(i)).0;
            Enabled(s1, Link(i, pgdir)) && Enabled(Step(s1, Link(i, pgdir)).0, Publish(i))
    ensures var s1 := Step(s, Alloc(i)).0;
            var s2 := Step(s1, Link(i, pgdir)).0;
            var s3 := Step(s2, Publish(i)).0;
            && |s3.ps| == |s.ps| && s3.init == s.init && s3.nextpid == s.nextpid + 1
            && exists np :: 0 <= np < |s.ps| && s.ps[np].state == UNUSED
                 && s3.ps == s.ps[np := s.ps[np].(state := RUNNABLE, pid := s.nextpid, parent := i, pgdir := pgdir, isThread := false)]
  {
    Show(s, i);
    var np := FirstFree(s.ps, 0);
    Show(s, np);
    hide Inv, FirstFree;
    AllocShape(s, i);
    var s1 := Step(s, Alloc(i)).0;
    var s2 := Step(s1, Link(i, pgdir)).0;
    var s3 := Step(s2, Publish(i)).0;
    assert s3.ps == s.ps[np := s.ps[np].(state := RUNNABLE, pid := s.nextpid, parent := i, pgdir := pgdir, isThread := false)];
  }

  /** A fork that fails for want of memory gives its slot back. */
  lemma ForkFails(s: State, i: int)
    requires Inv(s) && At(s, i, Out) && exists k :: 0 <= k < |s.ps| && s.ps[k].state == UNUSED
    ensures var s1 := Step(s, Alloc(i)).0; Enabled(s1, Fail(i))
    ensures var s2 := Step(Step(s, Alloc(i)).0, Fail(i)).0;
            && |s2.ps| == |s.ps| && s2.init == s.init && s2.nextpid == s.nextpid + 1
            && exists np :: 0 <= np < |s.ps| && s.ps[np].state == UNUSED && s2.ps == s.ps[np := s.ps[np].(pid := s.nextpid)]
  {
    Show(s, i);
    var np := FirstFree(s.ps, 0);
    Show(s, np);
    hide Inv, FirstFree;
    AllocShape(s, i);
    var s2 := Step(Step(s, Alloc(i)).0, Fail(i)).0;
    assert s2.ps == s.ps[np := s.ps[np].(pid := s.nextpid)];
  }

  /** The pids of processes that have exited, and the pids wait has returned. */
  ghost function Exits(n: nat, pgdir: int, es: seq<Event>): set<int>
    requires n > 0 && Possible(n, pgdir, es)
    decreases |es|
  {
    if es == [] then {}
    else
      var s, e := After(n, pgdir, es[..|es| - 1]), es[|es| - 1];
      Exits(n, pgdir, es[..|es| - 1]) + ExitPid(s, e)
  }

  ghost function Reaps(n: nat, pgdir: int, es: seq<Event>): seq<int>
    requires n > 0 && Possible(n, pgdir, es)
    decreases |es|
  {
    if es == [] then []
    else
      Reaps(n, pgdir, es[..|es| - 1]) + ReapPid(After(n, pgdir, es[..|es| - 1]), es[|es| - 1])
  }

  /** The slot that a step frees through wait, or -1. */
  ghost function Victim(s: State, e: Event): int
    requires Enabled(s, e)
  {
    if e.Wait? || (e.Dispatch? && s.ps[e.i].place == Waiting) then
      var z := FirstZombie(s.ps, e.i, 0);
      if z < |s.ps| then z else -1
    else -1
  }

  ghost predicate SameSlot(p: Proc, p': Proc) {
    p'.pid == p.pid && (p'.state == ZOMBIE <==> p.state == ZOMBIE) && (p'.state == UNUSED <==> p.state == UNUSED)
  }

  lemma WaitVictim(s: State, e: Event)
    requires Inv(s) && Enabled(s, e)
    ensures var (s', r) := Step(s, e);
            if Victim(s, e) >= 0 then
              && Victim(s, e) < |s.ps| && s.ps[Victim(s, e)].state == ZOMBIE && r == Waited(s.ps[Victim(s, e)].pid) && r.pid > 0
              && s'.ps[Victim(s, e)] == Free(s.ps[Victim(s, e)])
              && |s'.ps| == |s.ps| && s'.nextpid == s.nextpid
              && forall k :: 0 <= k < |s.ps| && k != Victim(s, e) ==> SameSlot(s.ps[k], s'.ps[k])
            else !(r.Waited? && r.pid > 0)
  {
    hide Inv, HasKids, HasZombie;
    if e.Wait? || e.Dispatch? {
      Show(s, e.i);
      var ps1 := s.ps[e.i := s.ps[e.i].(state := RUNNING, chan := Nowhere)];
      SameZombie(s.ps, ps1, e.i);
      if Victim(s, e) >= 0 { Show(s, Victim(s, e)); }
    }
  }

  lemma SameZombie(ps: seq<Proc>, ps': seq<Proc>, i: int)
    requires |ps'| == |ps| && forall c :: 0 <= c < |ps| ==> (ZombieOf(ps'[c], i) <==> ZombieOf(ps[c], i))
    ensures FirstZombie(ps', i, 0) == FirstZombie(ps, i, 0)
  {
  }

  /** Process p becomes p' in slot k by a step that frees nothing through wait. */
  ghost predicate Changed(e: Event, k: int, p: Proc, p': Proc, next: int, next': int) {
    && (p'.state == ZOMBIE <==> p.state == ZOMBIE || e == Exit(k))
    && (p'.state != UNUSED && p.state != UNUSED ==> p'.pid == p.pid)
    && (p'.state != UNUSED && p.state == UNUSED ==> p'.pid == next < next')
  }

  lemma SlotChange(s: State, e: Event, k: int)
    requires Inv(s) && Enabled(s, e) && Victim(s, e) < 0 && 0 <= k < |s.ps|
    ensures var s' := Step(s, e).0; |s'.ps| == |s.ps| && s'.nextpid >= s.nextpid && Changed(e, k, s.ps[k], s'.ps[k], s.nextpid, s'.nextpid)
  {
    hide Inv, HasKids, HasZombie;
    match e
    case Alloc(i) => if FirstFree(s.ps, 0) < |s.ps| { AllocShape(s, i); }
    case Exit(i) => ExitShape(s, i, Step(s, e).0, k);
    case Dispatch(i) => SlotDispatch(s, i, k);
    case _ => SlotOther(s, e, k);
  }

  lemma SlotDispatch(s: State, i: int, k: int)
    requires Inv(s) && Enabled(s, Dispatch(i)) && Victim(s, Dispatch(i)) < 0 && 0 <= k < |s.ps|
    ensures var s' := Step(s, Dispatch(i)).0; |s'.ps| == |s.ps| && s'.nextpid == s.nextpid && SameSlot(s.ps[k], s'.ps[k])
  {
    hide Inv, HasKids, HasZombie, FirstZombie;
    SameZombie(s.ps, s.ps[i := s.ps[i].(state := RUNNING, chan := Nowhere)], i);
  }

  lemma SlotOther(s: State, e: Event, k: int)
    requires Inv(s) && Enabled(s, e) && Victim(s, e) < 0 && 0 <= k < |s.ps| && !e.Alloc? && !e.Exit? && !e.Dispatch?
    ensures var s' := Step(s, e).0; |s'.ps| == |s.ps| && s'.nextpid == s.nextpid && Changed(e, k, s.ps[k], s'.ps[k], s.nextpid, s'.nextpid)
  {
    hide Inv, HasKids, HasZombie, FirstZombie;
    if e.Fail? || e.Publish? {
      Show(s, e.i);
    }
  }

  ghost predicate Present(s: State, pid: int) {
    exists k :: 0 <= k < |s.ps| && s.ps[k].state != UNUSED && s.ps[k].pid == pid
  }

  ghost predicate ZombiePid(s: State, pid: int) {
    exists k :: 0 <= k < |s.ps| && s.ps[k].state == ZOMBIE && s.ps[k].pid == pid
  }

  /** What is known of the pids ex that exited and the pids re that wait returned. */
  ghost predicate History(s: State, ex: set<int>, re: seq<int>) {
    && (forall i, j :: 0 <= i < j < |re| ==> re[i] != re[j])
    && (forall pid :: pid in re ==> pid < s.nextpid && !Present(s, pid))
    && (forall pid :: pid in ex <==> pid in re || ZombiePid(s, pid))
  }

  ghost function ExitPid(s: State, e: Event): set<int>
    requires Enabled(s, e)
  {
    if e.Exit? then {s.ps[e.i].pid} else {}
  }

  ghost function ReapPid(s: State, e: Event): seq<int>
    requires Enabled(s, e)
  {
    var r := Step(s, e).1;
    if r.Waited? && r.pid > 0 then [r.pid] else []
  }

  lemma HistoryReap(s: State, e: Event, ex: set<int>, re: seq<int>)
    requires Inv(s) && Enabled(s, e) && History(s, ex, re) && Victim(s, e) >= 0
    ensures History(Step(s, e).0, ex + ExitPid(s, e), re + ReapPid(s, e))
  {
    var v := Victim(s, e);
    WaitVictim(s, e);
    hide Step, Victim, Enabled, Inv;
    var s' := Step(s, e).0;
    var pid := s.ps[v].pid;
    Show(s, v);
    assert Present(s, pid) && ZombiePid(s, pid);
    forall q ensures Present(s', q) <==> Present(s, q) && q != pid { ReapPresent(s, s', v, q); }
    forall q ensures ZombiePid(s', q) <==> ZombiePid(s, q) && q != pid { ReapPresent(s, s', v, q); }
  }

  lemma ReapPresent(s: State, s': State, v: int, q: int)
    requires Inv(s) && |s'.ps| == |s.ps| && 0 <= v < |s.ps| && s.ps[v].state == ZOMBIE && s'.ps[v] == Free(s.ps[v])
    requires forall k :: 0 <= k < |s.ps| && k != v ==> SameSlot(s.ps[k], s'.ps[k])
    ensures Present(s', q) <==> Present(s, q) && q != s.ps[v].pid
    ensures ZombiePid(s', q) <==> ZombiePid(s, q) && q != s.ps[v].pid
  {
    if k :| 0 <= k < |s.ps| && s.ps[k].state != UNUSED && s.ps[k].pid == q && q != s.ps[v].pid { assert s'.ps[k].state != UNUSED; }
    if k :| 0 <= k < |s.ps| && s.ps[k].state == ZOMBIE && s.ps[k].pid == q && q != s.ps[v].pid { assert s'.ps[k].state == ZOMBIE; }
    if k :| 0 <= k < |s.ps| && s'.ps[k].state != UNUSED && s'.ps[k].pid == q { ShowPair(s, v, k); assert s.ps[k].state != UNUSED; }
    if k :| 0 <= k < |s.ps| && s'.ps[k].state == ZOMBIE && s'.ps[k].pid == q { ShowPair(s, v, k); assert s.ps[k].state == ZOMBIE; }
  }

  lemma HistoryOther(s: State, e: Event, ex: set<int>, re: seq<int>)
    requires Inv(s) && Enabled(s, e) && History(s, ex, re) && Victim(s, e) < 0
    ensures History(Step(s, e).0, ex + ExitPid(s, e), re + ReapPid(s, e))
  {
    WaitVictim(s, e);
    SlotChange(s, e, 0);
    var s' := Step(s, e).0;
    assert re + ReapPid(s, e) == re;
    forall q | q in re ensures !Present(s', q) { OtherPresent(s, e, q); }
    forall q ensures ZombiePid(s', q) <==> ZombiePid(s, q) || q in ExitPid(s, e) { OtherZombie(s, e, q); }
  }

  lemma OtherPresent(s: State, e: Event, q: int)
    requires Inv(s) && Enabled(s, e) && Victim(s, e) < 0 && q < s.nextpid && !Present(s, q)
    ensures !Present(Step(s, e).0, q)
  {
    hide Inv, Enabled, Step, Victim;
    var s' := Step(s, e).0;
    if k :| 0 <= k < |s'.ps| && s'.ps[k].state != UNUSED && s'.ps[k].pid == q {
      InitIn(s);
      SlotChange(s, e, 0);
      SlotChange(s, e, k);
    }
  }

  lemma OtherZombie(s: State, e: Event, q: int)
    requires Inv(s) && Enabled(s, e) && Victim(s, e) < 0
    ensures ZombiePid(Step(s, e).0, q) <==> ZombiePid(s, q) || q in ExitPid(s, e)
  {
    hide Inv, Step, Victim;
    var s' := Step(s, e).0;
    InitIn(s);
    SlotChange(s, e, 0);
    if k :| 0 <= k < |s'.ps| && s'.ps[k].state == ZOMBIE && s'.ps[k].pid == q {
      SlotChange(s, e, k);
    }
    if k :| 0 <= k < |s.ps| && s.ps[k].state == ZOMBIE && s.ps[k].pid == q {
      SlotChange(s, e, k);
      assert s'.ps[k].state == ZOMBIE;
    }
    if e.Exit? {
      SlotChange(s, e, e.i);
      assert s'.ps[e.i].state == ZOMBIE;
    }
  }

  /** Each process exits and is reaped at most once; the exited ones not yet reaped are
      exactly the zombies in the table. */
  lemma {:induction false} ReapedOnce(n: nat, pgdir: int, es: seq<Event>)
    requires n > 0 && Possible(n, pgdir, es)
    ensures History(After(n, pgdir, es), Exits(n, pgdir, es), Reaps(n, pgdir, es))
    decreases |es|
  {
    hide Inv, Enabled, Step, Victim, History, ExitPid, ReapPid;
    if es == [] {
      HistoryBoot(n, pgdir);
    } else {
      var fs, e := es[..|es| - 1], es[|es| - 1];
      ReapedOnce(n, pgdir, fs);
      RunInv(n, pgdir, fs);
      if Victim(After(n, pgdir, fs), e) >= 0 {
        HistoryReap(After(n, pgdir, fs), e, Exits(n, pgdir, fs), Reaps(n, pgdir, fs));
      } else {
        HistoryOther(After(n, pgdir, fs), e, Exits(n, pgdir, fs), Reaps(n, pgdir, fs));
      }
    }
  }

  lemma HistoryBoot(n: nat, pgdir: int)
    requires n > 0
    ensures History(Boot(n, pgdir), {}, [])
  {}
}
