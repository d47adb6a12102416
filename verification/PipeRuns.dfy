/** Pipes as a state machine.  A step is one stretch of pipewrite or piperead under the
    pipe's lock, from entry or from waking up to the next sleep or the return. */
module PipeRuns {
  import opened Blocks

  const PIPESIZE := 512

  /** A process inside pipewrite, with bytes 0..i of addr[..n] deposited, or inside piperead. */
  datatype Call = Write(addr: seq<Byte>, n: int, i: nat, asleep: bool) | Read(n: int, asleep: bool)

  /** buf: the bytes deposited and not yet read. */
  datatype State = State(buf: seq<Byte>, readopen: bool, writeopen: bool, calls: map<int, Call>, killed: set<int>)

  /** What a stretch deposits or hands to the caller, and the value returned, if it returns. */
  datatype Effect = Effect(put: seq<Byte>, got: seq<Byte>, done: bool, r: int)

  datatype Event =
    | StartWrite(p: int, addr: seq<Byte>, n: int)
    | StartRead(p: int, n: int)
    | Resume(p: int)
    | Close(writable: bool)
    | Kill(p: int)

  function Init(): State {
    State([], true, true, map[], {})
  }

  function Min(a: int, b: int): int {
    if a < b then a else b
  }

  /** wakeup on nread or nwrite. */
  function Wake(calls: map<int, Call>, readers: bool): map<int, Call> {
    map p | p in calls :: if calls[p].Read? == readers then calls[p].(asleep := false) else calls[p]
  }

  /** pipewrite from byte i on: fill the buffer, then sleep, fail or finish. */
  function WriteOn(s: State, p: int, addr: seq<Byte>, n: int, i: nat): (State, Effect)
    requires (n > i ==> n <= |addr|) && |s.buf| <= PIPESIZE
  {
    var k := if n <= i then 0 else Min(n - i, PIPESIZE - |s.buf|);
    var put := if k == 0 then [] else addr[i..i + k];
    var s1 := s.(buf := s.buf + put);
    if i + k >= n then
      (s1.(calls := Wake(s.calls, true) - {p}), Effect(put, [], true, n))
    else if !s.readopen || p in s.killed then
      (s1.(calls := s.calls - {p}), Effect(put, [], true, -1))
    else
      (s1.(calls := Wake(s.calls, true)[p := Write(addr, n, i + k, true)]), Effect(put, [], false, 0))
  }

  function ReadOn(s: State, p: int, n: int): (State, Effect) {
    if s.buf == [] && s.writeopen then
      if p in s.killed then (s.(calls := s.calls - {p}), Effect([], [], true, -1))
      else (s.(calls := s.calls[p := Read(n, true)]), Effect([], [], false, 0))
    else
      var k := if n <= 0 then 0 else Min(n, |s.buf|);
      (s.(buf := s.buf[k..], calls := Wake(s.calls, false) - {p}), Effect([], s.buf[..k], true, k))
  }

  /** A process starts a call through an open end when it is in none; only a call that is not
      asleep goes on; an end is closed when no call through it is left. */
  predicate Enabled(s: State, e: Event) {
    match e
    case StartWrite(p, addr, n) => p !in s.calls && s.writeopen && n <= |addr|
    case StartRead(p, n) => p !in s.calls && s.readopen
    case Resume(p) => p in s.calls && !s.calls[p].asleep
    case Close(writable) =>
      && (if writable then s.writeopen else s.readopen)
      && forall p :: p in s.calls ==> s.calls[p].Write? != writable
    case Kill(p) => true
  }

  predicate Ok(s: State) {
    && |s.buf| <= PIPESIZE
    && (forall p :: p in s.calls && s.calls[p].Write? ==> s.calls[p].i <= s.calls[p].n <= |s.calls[p].addr|)
    && (!s.readopen ==> forall p :: p in s.calls ==> s.calls[p].Write?)
    && (!s.writeopen ==> forall p :: p in s.calls ==> s.calls[p].Read?)
  }

  function Step(s: State, e: Event): (State, Effect)
    requires Ok(s) && Enabled(s, e)
  {
    match e
    case StartWrite(p, addr, n) => WriteOn(s, p, addr, n, 0)
    case StartRead(p, n) => ReadOn(s, p, n)
    case Resume(p) =>
      var c := s.calls[p];
      if c.Write? then WriteOn(s, p, c.addr, c.n, c.i) else ReadOn(s, p, c.n)
    case Close(writable) =>
      (if writable then s.(writeopen := false, calls := Wake(s.calls, true))
       else s.(readopen := false, calls := Wake(s.calls, false)),
       Effect([], [], true, 0))
    case Kill(p) =>
      (s.(killed := s.killed + {p}, calls := if p in s.calls then s.calls[p := s.calls[p].(asleep := false)] else s.calls),
       Effect([], [], true, 0))
  }

  lemma WriteOk(s: State, p: int, addr: seq<Byte>, n: int, i: nat)
    requires Ok(s) && s.writeopen && n <= |addr| && (p in s.calls ==> s.calls[p].Write?)
    ensures Ok(WriteOn(s, p, addr, n, i).0)
  {}

  lemma ReadOk(s: State, p: int, n: int)
    requires Ok(s) && s.readopen && (p in s.calls ==> s.calls[p].Read?)
    ensures Ok(ReadOn(s, p, n).0)
  {}

  lemma StepOk(s: State, e: Event)
    requires Ok(s) && Enabled(s, e)
    ensures Ok(Step(s, e).0)
  {
    hide WriteOn, ReadOn;
    match e
    case StartWrite(p, addr, n) => WriteOk(s, p, addr, n, 0);
    case StartRead(p, n) => ReadOk(s, p, n);
    case Resume(p) =>
      var c := s.calls[p];
      if c.Write? { WriteOk(s, p, c.addr, c.n, c.i); } else { ReadOk(s, p, c.n); }
    case Close(writable) =>
    case Kill(p) =>
  }

  /** Every deposited byte is read once or still in the buffer, in order. */
  lemma StepConserves(s: State, e: Event)
    requires Ok(s) && Enabled(s, e)
    ensures s.buf + Step(s, e).1.put == Step(s, e).1.got + Step(s, e).0.buf
  {
    hide Enabled, Wake;
    if e.StartRead? || e.Resume? { assert forall k :: 0 <= k <= |s.buf| ==> s.buf[..k] + s.buf[k..] == s.buf; }
  }

  /** Where process p's call stands after a step, if it is in pipewrite. */
  lemma StepCall(s: State, e: Event, p: int)
    requires Ok(s) && Enabled(s, e) && p in Step(s, e).0.calls && Step(s, e).0.calls[p].Write?
    ensures var (c', f) := (Step(s, e).0.calls[p], Step(s, e).1);
            if e.StartWrite? && e.p == p then c'.addr == e.addr && c'.n == e.n && c'.i <= |e.addr| && f.put == c'.addr[..c'.i]
            else p in s.calls && s.calls[p].Write? && var c := s.calls[p];
              c'.addr == c.addr && c'.n == c.n && c.i <= c'.i <= |c.addr| &&
              (if e == Resume(p) then f.put == c.addr[c.i..c'.i] else c'.i == c.i)
  {
    if p in s.calls && s.calls[p].Write? { OkCall(s, p); }
    hide Ok;
  }

  lemma OkCall(s: State, p: int)
    requires Ok(s) && p in s.calls && s.calls[p].Write?
    ensures s.calls[p].i <= s.calls[p].n <= |s.calls[p].addr|
  {}

  /** A reader sleeps only on an empty pipe open for writing, a writer only on a full one open
      for reading. */
  predicate SleepOk(s: State) {
    forall p :: p in s.calls && s.calls[p].asleep ==>
      if s.calls[p].Read? then s.buf == [] && s.writeopen else |s.buf| == PIPESIZE && s.readopen
  }

  predicate ReaderAsleep(s: State) {
    exists p :: p in s.calls && s.calls[p].Read? && s.calls[p].asleep
  }

  /** A killed writer with more than a pipeful left returns without waking a sleeping reader. */
  predicate Strands(s: State, e: Event)
    requires Enabled(s, e)
  {
    && ReaderAsleep(s)
    && match e
       case StartWrite(p, addr, n) => p in s.killed && n > PIPESIZE
       case Resume(p) => s.calls[p].Write? && p in s.killed && s.calls[p].n - s.calls[p].i > PIPESIZE
       case _ => false
  }

  lemma WriteSleepOk(s: State, p: int, addr: seq<Byte>, n: int, i: nat)
    requires Ok(s) && SleepOk(s) && s.writeopen && (p in s.calls ==> s.calls[p].Write? && !s.calls[p].asleep) && (n > i ==> n <= |addr|)
    ensures SleepOk(WriteOn(s, p, addr, n, i).0) <==> !(ReaderAsleep(s) && p in s.killed && n - i > PIPESIZE)
  {
    var s' := WriteOn(s, p, addr, n, i).0;
    if ReaderAsleep(s) && p in s.killed && n - i > PIPESIZE {
      var q :| q in s.calls && s.calls[q].Read? && s.calls[q].asleep;
      assert q in s'.calls && s'.calls[q] == s.calls[q];
    }
  }

  lemma ReadSleepOk(s: State, p: int, n: int)
    requires Ok(s) && SleepOk(s) && (p in s.calls ==> s.calls[p].Read? && !s.calls[p].asleep)
    ensures SleepOk(ReadOn(s, p, n).0)
  {}

  /** Sleeping is justified after a step exactly when the step strands no reader. */
  lemma StepSleepIff(s: State, e: Event)
    requires Ok(s) && SleepOk(s) && Enabled(s, e)
    ensures SleepOk(Step(s, e).0) <==> !Strands(s, e)
  {
    hide WriteOn, ReadOn, Ok, SleepOk;
    match e
    case StartWrite(p, addr, n) => WriteSleepOk(s, p, addr, n, 0);
    case StartRead(p, n) => ReadSleepOk(s, p, n);
    case Resume(p) => ResumeSleepOk(s, p);
    case Close(w) => CloseSleepOk(s, w);
    case Kill(p) => KillSleepOk(s, p);
  }

  lemma ResumeSleepOk(s: State, p: int)
    requires Ok(s) && SleepOk(s) && Enabled(s, Resume(p))
    ensures SleepOk(Step(s, Resume(p)).0) <==> !Strands(s, Resume(p))
  {
    hide WriteOn, ReadOn;
    var c := s.calls[p];
    if c.Write? { WriteSleepOk(s, p, c.addr, c.n, c.i); } else { ReadSleepOk(s, p, c.n); }
  }

  lemma CloseSleepOk(s: State, writable: bool)
    requires Ok(s) && SleepOk(s) && Enabled(s, Close(writable))
    ensures SleepOk(Step(s, Close(writable)).0)
  {}

  lemma KillSleepOk(s: State, p: int)
    requires Ok(s) && SleepOk(s)
    ensures SleepOk(Step(s, Kill(p)).0)
  {}

  /** The events of a run from a new pipe. */
  ghost predicate Possible(es: seq<Event>)
    decreases |es|, 0
  {
    es == [] || (Possible(es[..|es| - 1]) && Enabled(After(es[..|es| - 1]), es[|es| - 1]))
  }

  ghost function After(es: seq<Event>): (s: State)
    requires Possible(es)
    ensures Ok(s)
    decreases |es|, 1
  {
    if es == [] then Init()
    else
      var s := After(es[..|es| - 1]);
      StepOk(s, es[|es| - 1]);
      Step(s, es[|es| - 1]).0
  }

  /** The effect of the last event. */
  ghost function Last(es: seq<Event>): Effect
    requires Possible(es) && es != []
  {
    Step(After(es[..|es| - 1]), es[|es| - 1]).1
  }

  /** All bytes deposited, and all bytes read, in the order of the run. */
  ghost function Puts(es: seq<Event>): seq<Byte>
    requires Possible(es)
    decreases |es|
  {
    if es == [] then [] else Puts(es[..|es| - 1]) + Last(es).put
  }

  ghost function Gots(es: seq<Event>): seq<Byte>
    requires Possible(es)
    decreases |es|
  {
    if es == [] then [] else Gots(es[..|es| - 1]) + Last(es).got
  }

  /** What is read is what was deposited, in order; the buffer holds the rest. */
  lemma {:induction false} Conservation(es: seq<Event>)
    requires Possible(es)
    ensures Puts(es) == Gots(es) + After(es).buf
    decreases |es|
  {
    hide Step, Ok, Enabled;
    if es != [] {
      var fs := es[..|es| - 1];
      Conservation(fs);
      StepConserves(After(fs), es[|es| - 1]);
      calc {
        Puts(fs) + Last(es).put;
        Gots(fs) + (After(fs).buf + Last(es).put);
        Gots(fs) + Last(es).got + After(es).buf;
      }
    }
  }

  /** The bytes process p has deposited since it last entered pipewrite. */
  ghost function Own(es: seq<Event>, p: int): seq<Byte>
    requires Possible(es)
    decreases |es|
  {
    if es == [] then []
    else match es[|es| - 1]
      case StartWrite(q, _, _) => if q == p then Last(es).put else Own(es[..|es| - 1], p)
      case Resume(q) => if q == p then Own(es[..|es| - 1], p) + Last(es).put else Own(es[..|es| - 1], p)
      case _ => Own(es[..|es| - 1], p)
  }

  /** A writer in the middle has deposited a beginning of its bytes, in order. */
  lemma {:induction false} OwnIs(es: seq<Event>, p: int)
    requires Possible(es) && p in After(es).calls && After(es).calls[p].Write?
    ensures var c := After(es).calls[p]; 0 <= c.i <= c.n <= |c.addr| && Own(es, p) == c.addr[..c.i]
    decreases |es|
  {
    if es != [] {
      var fs := es[..|es| - 1];
      var s := After(fs);
      hide Step, Ok, Enabled;
      StepCall(s, es[|es| - 1], p);
      OkCall(After(es), p);
      if p in s.calls && s.calls[p].Write? { OwnIs(fs, p); }
    }
  }

  /** pipewrite returns n with all bytes deposited, or -1 on a full pipe with some left, when
      no reader is left or the writer was killed. */
  lemma WriteReturns(es: seq<Event>, p: int, addr: seq<Byte>, n: int)
    requires Possible(es) && es != [] && Last(es).done
    requires var s := After(es[..|es| - 1]);
             es[|es| - 1] == StartWrite(p, addr, n) ||
             (es[|es| - 1] == Resume(p) && s.calls[p].Write? && s.calls[p].addr == addr && s.calls[p].n == n)
    ensures var s := After(es);
            || (Last(es).r == n && Own(es, p) == if n <= 0 then [] else addr[..n])
            || (Last(es).r == -1 && |s.buf| == PIPESIZE && (!s.readopen || p in s.killed) && |Own(es, p)| < n && Own(es, p) <= addr)
  {
    var fs := es[..|es| - 1];
    var s := After(fs);
    if es[|es| - 1] == Resume(p) {
      OwnIs(fs, p);
      WriteDone(s, p, addr, n, s.calls[p].i);
      hide Ok, Enabled, WriteOn;
      assert Own(es, p) == addr[..s.calls[p].i] + Last(es).put;
    } else {
      WriteDone(s, p, addr, n, 0);
      hide Ok, Enabled, WriteOn;
      assert Own(es, p) == Last(es).put;
    }
  }

  /** A stretch of pipewrite that returns. */
  lemma WriteDone(s: State, p: int, addr: seq<Byte>, n: int, i: nat)
    requires Ok(s) && n <= |addr| && i <= |addr| && (i <= n || (i == 0 && n < 0)) && WriteOn(s, p, addr, n, i).1.done
    ensures var (s', f) := WriteOn(s, p, addr, n, i);
            || (f.r == n && addr[..i] + f.put == if n <= 0 then [] else addr[..n])
            || (f.r == -1 && |s'.buf| == PIPESIZE && (!s'.readopen || p in s'.killed) && |addr[..i] + f.put| < n && addr[..i] + f.put <= addr)
  {
    hide Wake;
  }

  /** piperead sleeps exactly on an empty pipe open for writing, unless its caller was killed, when it
      returns -1; otherwise it returns the number of bytes it hands over, the smaller of n and what
      the pipe held, from the front. */
  lemma ReadReturns(es: seq<Event>, p: int, n: int)
    requires Possible(es) && es != []
    requires var s := After(es[..|es| - 1]);
             es[|es| - 1] == StartRead(p, n) || (es[|es| - 1] == Resume(p) && s.calls[p].Read? && s.calls[p].n == n)
    ensures var (s, s', f) := (After(es[..|es| - 1]), After(es), Last(es));
            var want := if n < 0 then 0 else n;
            if s.buf == [] && s.writeopen then
              f.got == [] && if p in s.killed then f.done && f.r == -1 else !f.done && p in s'.calls && s'.calls[p] == Read(n, true)
            else
              && f.done && f.r == |f.got| && f.got <= s.buf && |f.got| <= want
              && (|f.got| < want ==> |f.got| == |s.buf|)
  {
    hide Ok, Wake;
  }

  /** A step changes the call of its own process only, except that it may wake others; the call is over
      exactly when it returns; only a close closes an end. */
  lemma StepFrame(s: State, e: Event, q: int)
    requires Ok(s) && Enabled(s, e)
    ensures var (s', f) := Step(s, e);
            && (if (e.StartWrite? || e.StartRead? || e.Resume?) && e.p == q then q in s'.calls <==> !f.done
                else (q in s'.calls <==> q in s.calls) && (q in s.calls ==> s'.calls[q] == s.calls[q] || s'.calls[q] == s.calls[q].(asleep := false)))
            && (s'.readopen <==> s.readopen && e != Close(false)) && (s'.writeopen <==> s.writeopen && e != Close(true))
            && (q in s'.killed <==> q in s.killed || e == Kill(q))
  {
    hide Ok;
  }

  /** No process is killed, or only ones that strand nobody. */
  ghost predicate Harmless(es: seq<Event>)
    requires Possible(es)
    decreases |es|
  {
    es == [] || (Harmless(es[..|es| - 1]) && !Strands(After(es[..|es| - 1]), es[|es| - 1]))
  }

  /** Every sleeper sleeps for a reason throughout a run, and readers and writers never
      sleep at once. */
  lemma {:induction false} RunSleepOk(es: seq<Event>)
    requires Possible(es) && Harmless(es)
    ensures SleepOk(After(es))
    ensures var s := After(es);
            !exists p, q :: p in s.calls && q in s.calls && s.calls[p].asleep && s.calls[q].asleep && s.calls[p].Read? && s.calls[q].Write?
    decreases |es|
  {
    hide Step, Ok, Enabled, Strands;
    if es != [] {
      RunSleepOk(es[..|es| - 1]);
      StepSleepIff(After(es[..|es| - 1]), es[|es| - 1]);
    }
  }

  /** Without kills a run is harmless. */
  lemma {:induction false} NoKills(es: seq<Event>)
    requires Possible(es) && forall i :: 0 <= i < |es| ==> !es[i].Kill?
    ensures After(es).killed == {} && Harmless(es)
    decreases |es|
  {
    hide Ok, Enabled, WriteOn, ReadOn;
    if es != [] {
      NoKills(es[..|es| - 1]);
      StepKilled(After(es[..|es| - 1]), es[|es| - 1]);
    }
  }

  lemma StepKilled(s: State, e: Event)
    requires Ok(s) && Enabled(s, e) && !e.Kill?
    ensures Step(s, e).0.killed == s.killed
  {
    hide Ok, Wake;
  }

  /** A killed writer of 513 bytes fills the pipe and returns; the reader sleeps on. */
  lemma KillStrands(addr: seq<Byte>)
    requires |addr| == PIPESIZE + 1
    ensures var es := [StartRead(1, 1), Kill(2), StartWrite(2, addr, PIPESIZE + 1)];
            Possible(es) && !SleepOk(After(es))
  {
    var e1, e2, e3 := StartRead(1, 1), Kill(2), StartWrite(2, addr, PIPESIZE + 1);
    Extend([], e1);
    assert [] + [e1] == [e1];
    Extend([e1], e2);
    assert [e1] + [e2] == [e1, e2];
    var s := After([e1, e2]);
    assert 1 in s.calls;
    assert ReaderAsleep(s);
    StepSleepIff(s, e3);
    Extend([e1, e2], e3);
    assert [e1, e2] + [e3] == [e1, e2, e3];
  }

  lemma Extend(es: seq<Event>, e: Event)
    requires Possible(es) && Enabled(After(es), e)
    ensures Possible(es + [e]) && After(es + [e]) == Step(After(es), e).0
  {
    assert (es + [e])[..|es|] == es;
  }
}
