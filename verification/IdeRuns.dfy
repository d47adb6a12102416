/** ide.c under any interleaving: processes calling iderw, the controller finishing
    commands, interrupts.  Every run is a sequential run of memide.c's iderw. */
module IdeRuns {
  import opened Blocks
  import opened MemDisk
  import opened Options
  import opened Ide

  /** One request served: before/after the buffer, d/d' the disk. */
  datatype Entry = Entry(before: Buf, d: Disk, after: Buf, d': Disk)

  /** mine: the buffers in processes' hands, by id.  calls, log: the buffers passed to all calls
      of iderw and all served requests, in order.  waiting: for a buffer whose call has not
      returned, the number of that call. */
  datatype State = State(drv: Driver, mine: map<int, Buf>, waiting: map<int, nat>, calls: seq<Buf>, log: seq<Entry>)

  datatype Event =
    | Change(b: Buf)      // the holder of a buffer changes it
    | Call(id: int)       // iderw, down to its wait loop
    | Device              // the controller finishes its command
    | Interrupt           // ideintr
    | Return(id: int)     // the wait loop of iderw ends

  function Step(s: State, e: Event): (r: Option<State>) {
    match e
    case Change(b) =>
      if b.id in s.mine && b.id !in s.waiting then Some(s.(mine := s.mine[b.id := b])) else None
    case Call(id) =>
      if id in s.mine && id !in s.waiting && Iderw(s.mine[id], s.drv.disk).Some? then
        var b := s.mine[id];
        Some(s.(drv := Enqueue(s.drv, b), mine := s.mine - {id}, waiting := s.waiting[id := |s.calls|], calls := s.calls + [b]))
      else None
    case Device =>
      if s.drv.dev.Active? && s.drv.dev.cmd.a in s.drv.disk && s.drv.queue != [] then
        var t := Complete(s.drv);
        var b := s.drv.queue[0];
        Some(s.(drv := t, log := s.log + [Entry(b, s.drv.disk, Served(b, t.dev), t.disk)]))
      else None
    case Interrupt =>
      if s.drv.queue == [] then Some(s)
      else if !s.drv.dev.Finished? then None
      else
        var (t, b) := Intr(s.drv).value;
        Some(s.(drv := t, mine := s.mine[b.id := b]))
    case Return(id) =>
      if id in s.waiting && id in s.mine && s.mine[id].valid && !s.mine[id].dirty then Some(s.(waiting := s.waiting - {id}))
      else None
  }

  /** log is a run of the synchronous iderw from disk d0 to disk d. */
  ghost predicate Sequential(d0: Disk, log: seq<Entry>, d: Disk) {
    if log == [] then d == d0
    else
      var e := log[|log| - 1];
      e.d' == d && Iderw(e.before, e.d) == Some((e.after, e.d')) && Sequential(d0, log[..|log| - 1], e.d)
  }

  function Befores(log: seq<Entry>): seq<Buf> {
    if log == [] then [] else Befores(log[..|log| - 1]) + [log[|log| - 1].before]
  }

  /** The requests not served yet. */
  function Unserved(s: Driver): seq<Buf> {
    if s.dev.Finished? && s.queue != [] then s.queue[1..] else s.queue
  }

  /** The head of the queue is the one active request. */
  ghost predicate DeviceOk(s: Driver) {
    && (s.queue == [] <==> s.dev.Idle?)
    && (s.queue != [] ==> s.dev.cmd == Start(s.queue[0]).cmd)
  }

  /** How many requests have left the queue. */
  function Gone(s: State): int {
    |s.calls| - |s.drv.queue|
  }

  /** The queue holds the last calls, in order, each waiting, with its buffer taken away. */
  ghost predicate QueueOk(s: State) {
    && Gone(s) >= 0
    && (forall i :: 0 <= i < |s.drv.queue| ==>
          var b := s.drv.queue[i];
          b.id !in s.mine && b.id in s.waiting && s.waiting[b.id] == Gone(s) + i && Iderw(b, s.drv.disk).Some?)
  }

  /** The call of a waiting buffer is queued, or its request was served and the buffer is back
      as the service left it. */
  ghost predicate CallOk(s: State, id: int)
    requires id in s.waiting
  {
    var k := s.waiting[id];
    && k < |s.calls| && s.calls[k].id == id
    && (k < Gone(s) ==> k < |s.log| && id in s.mine && s.mine[id] == s.log[k].after && s.mine[id].valid && !s.mine[id].dirty)
  }

  ghost predicate DoneOk(s: State) {
    && (forall id :: id in s.mine ==> s.mine[id].id == id)
    && (forall id :: id in s.waiting ==> CallOk(s, id))
    && |s.log| == (if s.drv.dev.Finished? && s.drv.queue != [] then Gone(s) + 1 else Gone(s))
    && (s.drv.dev.Finished? && s.drv.queue != [] ==> s.log != [] && s.log[|s.log| - 1].before == s.drv.queue[0] && s.log[|s.log| - 1].after == Served(s.drv.queue[0], s.drv.dev))
  }

  ghost predicate Inv(d0: Disk, s: State) {
    && DeviceOk(s.drv) && QueueOk(s) && DoneOk(s)
    && Sequential(d0, s.log, s.drv.disk)
    && s.calls == Befores(s.log) + Unserved(s.drv)
  }

  lemma CallDone(s: State, id: int)
    requires QueueOk(s) && DoneOk(s) && DeviceOk(s.drv) && Step(s, Call(id)).Some?
    ensures DoneOk(Step(s, Call(id)).value)
  {
    hide Iderw;
    var t := Step(s, Call(id)).value;
    forall i | i in t.waiting ensures CallOk(t, i) { if i != id { assert CallOk(s, i); } }
  }

  lemma CallQueue(s: State, id: int)
    requires QueueOk(s) && DoneOk(s) && Step(s, Call(id)).Some?
    ensures QueueOk(Step(s, Call(id)).value)
  {
    hide Iderw, CallOk;
  }

  lemma CallInv(d0: Disk, s: State, id: int)
    requires Inv(d0, s) && Step(s, Call(id)).Some?
    ensures Inv(d0, Step(s, Call(id)).value)
  {
    hide Sequential, Befores, QueueOk, DoneOk, Iderw;
    CallQueue(s, id);
    CallDone(s, id);
    var t := Step(s, Call(id)).value;
    assert Unserved(t.drv) == Unserved(s.drv) + [s.mine[id]];
  }

  lemma SequentialSnoc(d0: Disk, log: seq<Entry>, e: Entry)
    requires Sequential(d0, log, e.d) && Iderw(e.before, e.d) == Some((e.after, e.d'))
    ensures Sequential(d0, log + [e], e.d') && Befores(log + [e]) == Befores(log) + [e.before]
  {
    assert (log + [e])[..|log|] == log;
  }

  /** The controller does to the head request what the synchronous iderw does. */
  lemma HeadServed(d0: Disk, s: State)
    requires Inv(d0, s) && Step(s, Device).Some?
    ensures var t := Complete(s.drv); Iderw(s.drv.queue[0], s.drv.disk) == Some((Served(s.drv.queue[0], t.dev), t.disk))
  {
    hide Sequential, Befores, DoneOk, Unserved;
  }

  lemma DeviceSequential(d0: Disk, s: State)
    requires Inv(d0, s) && Step(s, Device).Some?
    ensures var t := Step(s, Device).value;
            Sequential(d0, t.log, t.drv.disk) && t.calls == Befores(t.log) + Unserved(t.drv)
  {
    hide Sequential, Befores, DoneOk, QueueOk, Iderw;
    HeadServed(d0, s);
    var t := Step(s, Device).value;
    SequentialSnoc(d0, s.log, t.log[|s.log|]);
    assert Unserved(s.drv) == [s.drv.queue[0]] + Unserved(t.drv);
  }

  lemma DeviceDone(d0: Disk, s: State)
    requires Inv(d0, s) && Step(s, Device).Some?
    ensures DoneOk(Step(s, Device).value)
  {
    hide Sequential, Befores, Iderw, QueueOk;
    var t := Step(s, Device).value;
    forall id | id in t.waiting ensures CallOk(t, id) { assert CallOk(s, id); }
  }

  lemma DeviceInv(d0: Disk, s: State)
    requires Inv(d0, s) && Step(s, Device).Some?
    ensures Inv(d0, Step(s, Device).value)
  {
    hide Sequential, Befores, DoneOk, Unserved;
    DeviceSequential(d0, s);
    DeviceDone(d0, s);
  }

  lemma InterruptInv(d0: Disk, s: State)
    requires Inv(d0, s) && Step(s, Interrupt).Some?
    ensures Inv(d0, Step(s, Interrupt).value)
  {
    hide Sequential, Befores, QueueOk, DoneOk, Iderw;
    InterruptQueue(s);
    InterruptDone(s);
    var t := Step(s, Interrupt).value;
    assert Unserved(t.drv) == Unserved(s.drv);
  }

  lemma InterruptQueue(s: State)
    requires QueueOk(s) && Step(s, Interrupt).Some?
    ensures QueueOk(Step(s, Interrupt).value)
  {
    hide Iderw;
    if s.drv.queue != [] {
      var t := Step(s, Interrupt).value;
      var q := s.drv.queue;
      forall i | 0 <= i < |t.drv.queue| ensures t.drv.queue[i].id != q[0].id { assert t.drv.queue[i] == q[i + 1]; }
    }
  }

  lemma InterruptDone(s: State)
    requires QueueOk(s) && DoneOk(s) && Step(s, Interrupt).Some?
    ensures DoneOk(Step(s, Interrupt).value)
  {
    hide Iderw;
    if s.drv.queue != [] {
      var t := Step(s, Interrupt).value;
      var b := s.drv.queue[0];
      assert b.id in s.waiting && s.waiting[b.id] == Gone(s);
      forall id | id in t.waiting ensures CallOk(t, id) { assert CallOk(s, id) && CallOk(s, b.id); }
    }
  }

  lemma StepInv(d0: Disk, s: State, e: Event)
    requires Inv(d0, s) && Step(s, e).Some?
    ensures Inv(d0, Step(s, e).value)
  {
    hide Inv, Step;
    match e
    case Change(b) => ChangeInv(d0, s, b);
    case Call(id) => CallInv(d0, s, id);
    case Device => DeviceInv(d0, s);
    case Interrupt => InterruptInv(d0, s);
    case Return(id) => ReturnInv(d0, s, id);
  }

  lemma ChangeInv(d0: Disk, s: State, b: Buf)
    requires Inv(d0, s) && Step(s, Change(b)).Some?
    ensures Inv(d0, Step(s, Change(b)).value)
  {
    hide Sequential, Befores, Iderw, Unserved;
  }

  lemma ReturnInv(d0: Disk, s: State, id: int)
    requires Inv(d0, s) && Step(s, Return(id)).Some?
    ensures Inv(d0, Step(s, Return(id)).value)
  {
    hide Sequential, Befores, Iderw, Unserved;
  }

  function Run(s: State, es: seq<Event>): (r: Option<State>)
    decreases |es|
  {
    if es == [] then Some(s)
    else match Step(s, es[0])
      case None => None
      case Some(t) => Run(t, es[1..])
  }

  lemma {:induction false} RunInv(d0: Disk, s: State, es: seq<Event>)
    requires Inv(d0, s) && Run(s, es).Some?
    ensures Inv(d0, Run(s, es).value)
    decreases |es|
  {
    if es != [] {
      StepInv(d0, s, es[0]);
      RunInv(d0, Step(s, es[0]).value, es[1..]);
    }
  }

  function Init(d: Disk, bufs: map<int, Buf>): State {
    State(Driver([], Idle, d), bufs, map[], [], [])
  }

  lemma {:induction false} BeforesAt(log: seq<Entry>, k: nat)
    requires k < |log|
    ensures |Befores(log)| == |log| && Befores(log)[k] == log[k].before
  {
    if |log| > 1 { BeforesAt(log[..|log| - 1], if k < |log| - 1 then k else 0); }
    assert log == log[..|log| - 1] + [log[|log| - 1]];
  }

  /** Refinement: along every run the disk is the result of serving the calls one after the
      other with the synchronous iderw, in the order they were made; and a call that returns,
      the k-th that was made, hands back what the k-th service made of the buffer it passed. */
  lemma RefinesSynchronous(d: Disk, bufs: map<int, Buf>, es: seq<Event>)
    requires (forall id :: id in bufs ==> bufs[id].id == id) && Run(Init(d, bufs), es).Some?
    ensures var s := Run(Init(d, bufs), es).value;
            && Sequential(d, s.log, s.drv.disk)
            && s.calls == Befores(s.log) + Unserved(s.drv)
            && forall id :: Step(s, Return(id)).Some? ==>
                 var k := s.waiting[id];
                 k < |s.log| && k < |s.calls| && s.calls[k].id == id && s.log[k].before == s.calls[k] && s.log[k].after == s.mine[id]
  {
    RunInv(d, Init(d, bufs), es);
    var s := Run(Init(d, bufs), es).value;
    hide Run, Sequential, Befores, Iderw;
    forall id | Step(s, Return(id)).Some?
      ensures var k := s.waiting[id];
              k < |s.log| && k < |s.calls| && s.calls[k].id == id && s.log[k].before == s.calls[k] && s.log[k].after == s.mine[id]
    {
      ReturnIs(d, s, id);
    }
  }

  lemma ReturnIs(d0: Disk, s: State, id: int)
    requires Inv(d0, s) && id in s.waiting && id in s.mine
    ensures var k := s.waiting[id];
            k < |s.log| && k < |s.calls| && s.calls[k].id == id && s.log[k].before == s.calls[k] && s.log[k].after == s.mine[id]
  {
    hide Sequential, Befores, Iderw, DeviceOk;
    var k := s.waiting[id];
    assert CallOk(s, id);
    if k >= Gone(s) { QueuedAway(d0, s, id); }
    BeforesAt(s.log, k);
  }

  /** The request of a call that has not been served is in the queue, at its place. */
  lemma QueuedAway(d0: Disk, s: State, id: int)
    requires Inv(d0, s) && id in s.waiting && s.waiting[id] >= Gone(s)
    ensures var i := s.waiting[id] - Gone(s); 0 <= i < |s.drv.queue| && s.drv.queue[i].id == id && id !in s.mine
  {
    hide Sequential, Befores, Iderw;
    assert CallOk(s, id);
    var i := s.waiting[id] - Gone(s);
    QueueIsCalls(d0, s, i);
  }

  lemma QueueIsCalls(d0: Disk, s: State, i: nat)
    requires Inv(d0, s) && i < |s.drv.queue|
    ensures s.calls[Gone(s) + i] == s.drv.queue[i]
  {
    hide Sequential, Iderw, CallOk, Befores;
    if s.log != [] { BeforesAt(s.log, |s.log| - 1); } else { BeforesNone(); }
  }

  lemma BeforesNone()
    ensures Befores([]) == []
  {}

  /** How many device and interrupt steps a waiting call is away from its return. */
  function Wait(s: State, id: int): int
    requires id in s.waiting
  {
    if s.waiting[id] < Gone(s) then 0
    else 2 * (s.waiting[id] - Gone(s)) + (if s.drv.dev.Finished? then 1 else 2)
  }

  /** The step the hardware owes. */
  function Owed(s: State): Event {
    if s.drv.dev.Active? then Device else Interrupt
  }

  /** Every waiting call can return at once, or the step the hardware owes is possible and
      brings it one step closer. */
  lemma Progress(d0: Disk, s: State, id: int)
    requires Inv(d0, s) && id in s.waiting
    ensures Wait(s, id) >= 0
    ensures Wait(s, id) == 0 ==> Step(s, Return(id)).Some?
    ensures Wait(s, id) > 0 ==> Step(s, Owed(s)).Some?
    ensures Wait(s, id) > 0 ==> var t := Step(s, Owed(s)).value; id in t.waiting && Wait(t, id) == Wait(s, id) - 1
  {
    hide Sequential, Befores;
    assert CallOk(s, id);
    if s.waiting[id] >= Gone(s) { QueuedAway(d0, s, id); }
  }

  predicate Hardware(es: seq<Event>) {
    forall i :: 0 <= i < |es| ==> es[i].Device? || es[i].Interrupt?
  }

  lemma {:induction false} Returns(d0: Disk, s: State, id: int)
    requires Inv(d0, s) && id in s.waiting
    ensures exists es :: |es| == Wait(s, id) && Hardware(es) && Run(s, es).Some? && Step(Run(s, es).value, Return(id)).Some?
    decreases Wait(s, id)
  {
    hide Sequential, Befores, Inv, Step, Wait;
    Progress(d0, s, id);
    if Wait(s, id) == 0 {
      assert Run(s, []) == Some(s) && Hardware([]);
    } else {
      var e := Owed(s);
      var t := Step(s, e).value;
      StepInv(d0, s, e);
      Returns(d0, t, id);
      var es :| |es| == Wait(t, id) && Hardware(es) && Run(t, es).Some? && Step(Run(t, es).value, Return(id)).Some?;
      assert ([e] + es)[1..] == es && Hardware([e] + es);
      assert Run(s, [e] + es) == Run(t, es);
    }
  }

  /** No call waits for ever: in every state of every run, a waiting call returns after as many
      steps of the device and the interrupt handler as it is away from its return, at most two
      for each request that was in the queue no later than its own. */
  lemma NoStall(d: Disk, bufs: map<int, Buf>, es: seq<Event>, id: int)
    requires (forall i :: i in bufs ==> bufs[i].id == i) && Run(Init(d, bufs), es).Some? && id in Run(Init(d, bufs), es).value.waiting
    ensures var s := Run(Init(d, bufs), es).value;
            && Wait(s, id) <= 2 * |s.drv.queue|
            && exists more :: |more| == Wait(s, id) && Hardware(more) && Run(s, more).Some? && Step(Run(s, more).value, Return(id)).Some?
  {
    RunInv(d, Init(d, bufs), es);
    var s := Run(Init(d, bufs), es).value;
    hide Run, Step;
    Returns(d, s, id);
    assert CallOk(s, id);
  }
}
