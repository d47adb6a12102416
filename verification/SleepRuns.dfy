/** sleep and wakeup with their two locks, lock by lock, for any number of processes that
    consume and produce under a lock lk.  sleep1.p checks the same for two of each. */
module SleepRuns {
  /** Where a process is.  Consumers: acquire lk, test, sleep or take, release.  In sleep: take
      ptable.lock, release lk, set the state, be woken, be dispatched with ptable.lock held,
      release it, acquire lk again.  Producers: acquire lk, add, wake with lk held or after
      releasing it. */
  datatype Pc =
    | Idle
    | WantLk | Test | WantPt | Both | Commit | Asleep | Woken | Back | Took
    | WantPut | Put | Unlock | WantWake(held: bool) | Wake(held: bool) | Done

  /** lk and pt hold the index of the holder, or -1. */
  datatype State = State(lk: int, pt: int, value: nat, pcs: seq<Pc>)

  predicate HoldsLk(pc: Pc) {
    match pc
    case Test => true
    case WantPt => true
    case Both => true
    case Took => true
    case Put => true
    case Unlock => true
    case Done => true
    case WantWake(held) => held
    case Wake(held) => held
    case _ => false
  }

  predicate HoldsPt(pc: Pc) {
    pc == Both || pc == Commit || pc == Back || pc.Wake?
  }

  /** A producer has added and not yet woken the sleepers. */
  predicate Owes(pc: Pc) {
    pc == Unlock || pc.WantWake? || pc.Wake?
  }

  /** What an idle process starts, and in which order a producer wakes and unlocks. */
  datatype Choice = Consume | Produce(late: bool) | Killed

  predicate Can(s: State, p: int, c: Choice) {
    0 <= p < |s.pcs| &&
    match s.pcs[p]
    case Idle => !c.Killed?
    case WantLk => s.lk == -1
    case WantPut => s.lk == -1
    case WantPt => s.pt == -1
    case WantWake(_) => s.pt == -1
    case Asleep => c.Killed?
    case Woken => s.pt == -1
    case _ => true
  }

  function WakeAll(pcs: seq<Pc>): (r: seq<Pc>)
    ensures |r| == |pcs| && forall k :: 0 <= k < |pcs| ==> r[k] == if pcs[k] == Asleep then Woken else pcs[k]
  {
    seq(|pcs|, k requires 0 <= k < |pcs| => if pcs[k] == Asleep then Woken else pcs[k])
  }

  function Next(s: State, p: int, c: Choice): State
    requires Can(s, p, c)
  {
    var at := (pc: Pc) => s.pcs[p := pc];
    match s.pcs[p]
    case Idle => s.(pcs := at(if c.Consume? then WantLk else WantPut))
    case WantLk => s.(lk := p, pcs := at(Test))
    case Test => if s.value > 0 then s.(value := s.value - 1, pcs := at(Took)) else s.(pcs := at(WantPt))
    case WantPt => s.(pt := p, pcs := at(Both))
    case Both => s.(lk := -1, pcs := at(Commit))
    case Commit => s.(pt := -1, pcs := at(Asleep))
    case Asleep => s.(pcs := at(Woken))
    case Woken => s.(pt := p, pcs := at(Back))
    case Back => s.(pt := -1, pcs := at(WantLk))
    case Took => s.(lk := -1, pcs := at(Idle))
    case WantPut => s.(lk := p, pcs := at(Put))
    case Put => s.(value := s.value + 1, pcs := at(if c == Produce(true) then Unlock else WantWake(true)))
    case Unlock => s.(lk := -1, pcs := at(WantWake(false)))
    case WantWake(held) => s.(pt := p, pcs := at(Wake(held)))
    case Wake(held) => s.(pt := -1, pcs := WakeAll(s.pcs)[p := if held then Done else Idle])
    case Done => s.(lk := -1, pcs := at(Idle))
  }

  ghost predicate Pending(s: State) {
    exists q :: 0 <= q < |s.pcs| && Owes(s.pcs[q])
  }

  predicate LocksOk(s: State) {
    && -1 <= s.lk < |s.pcs| && -1 <= s.pt < |s.pcs|
    && forall k :: 0 <= k < |s.pcs| ==> (HoldsLk(s.pcs[k]) <==> s.lk == k) && (HoldsPt(s.pcs[k]) <==> s.pt == k)
  }

  /** A process going to sleep still holding lk has seen nothing to take; one asleep, or past
      the point of no return, has nothing to take or will yet be woken. */
  ghost predicate NoLost(s: State) {
    forall k :: 0 <= k < |s.pcs| ==>
      && (s.pcs[k] == WantPt || s.pcs[k] == Both ==> s.value == 0)
      && (s.pcs[k] == Commit || s.pcs[k] == Asleep ==> s.value == 0 || Pending(s))
  }

  ghost predicate Inv(s: State) {
    LocksOk(s) && NoLost(s)
  }

  lemma LocksStep(s: State, p: int, c: Choice)
    requires Can(s, p, c) && LocksOk(s)
    ensures LocksOk(Next(s, p, c))
  {
    hide WakeAll;
    var s' := Next(s, p, c);
    forall k | 0 <= k < |s.pcs| ensures (HoldsLk(s'.pcs[k]) <==> s'.lk == k) && (HoldsPt(s'.pcs[k]) <==> s'.pt == k) {}
  }

  /** Who owed a wakeup owes it still, unless the step is the wakeup itself. */
  lemma PendingStep(s: State, p: int, c: Choice)
    requires Can(s, p, c) && !s.pcs[p].Wake? && (Pending(s) || s.pcs[p] == Put)
    ensures Pending(Next(s, p, c))
  {
    var s' := Next(s, p, c);
    if s.pcs[p] == Put {
      assert Owes(s'.pcs[p]);
    } else {
      var q :| 0 <= q < |s.pcs| && Owes(s.pcs[q]);
      assert Owes(s'.pcs[q]);
    }
  }

  lemma StepInv(s: State, p: int, c: Choice)
    requires Can(s, p, c) && Inv(s)
    ensures Inv(Next(s, p, c))
  {
    LocksStep(s, p, c);
    var s' := Next(s, p, c);
    if !s.pcs[p].Wake? && (Pending(s) || s.pcs[p] == Put) { PendingStep(s, p, c); }
    hide Pending;
    forall k | 0 <= k < |s.pcs|
      ensures s'.pcs[k] == WantPt || s'.pcs[k] == Both ==> s'.value == 0
      ensures s'.pcs[k] == Commit || s'.pcs[k] == Asleep ==> s'.value == 0 || Pending(s')
    {
      assert (HoldsLk(s.pcs[k]) <==> s.lk == k) && (HoldsLk(s.pcs[p]) <==> s.lk == p);
      assert (HoldsPt(s.pcs[k]) <==> s.pt == k) && (HoldsPt(s.pcs[p]) <==> s.pt == p);
    }
  }

  function Init(n: nat, value: nat): State {
    State(-1, -1, value, seq(n, _ => Idle))
  }

  ghost predicate Possible(n: nat, value: nat, es: seq<(int, Choice)>)
    decreases |es|, 0
  {
    es == [] || (Possible(n, value, es[..|es| - 1]) && Can(After(n, value, es[..|es| - 1]), es[|es| - 1].0, es[|es| - 1].1))
  }

  ghost function After(n: nat, value: nat, es: seq<(int, Choice)>): State
    requires Possible(n, value, es)
    decreases |es|, 1
  {
    if es == [] then Init(n, value) else Next(After(n, value, es[..|es| - 1]), es[|es| - 1].0, es[|es| - 1].1)
  }

  lemma {:induction false} RunInv(n: nat, value: nat, es: seq<(int, Choice)>)
    requires Possible(n, value, es)
    ensures Inv(After(n, value, es))
    decreases |es|
  {
    hide Inv, Can, Next;
    if es == [] {
      InitInv(n, value);
    } else {
      RunInv(n, value, es[..|es| - 1]);
      StepInv(After(n, value, es[..|es| - 1]), es[|es| - 1].0, es[|es| - 1].1);
    }
  }

  lemma InitInv(n: nat, value: nat)
    ensures Inv(Init(n, value))
  {}

  /** Whenever both locks are free, a sleeper has nothing to take or a producer that has
      unlocked is about to wake it. */
  lemma NoLostWakeup(n: nat, value: nat, es: seq<(int, Choice)>, k: int)
    requires Possible(n, value, es) && 0 <= k < |After(n, value, es).pcs| && After(n, value, es).pcs[k] == Asleep
    requires After(n, value, es).lk == -1 && After(n, value, es).pt == -1
    ensures var s := After(n, value, es); s.value > 0 ==> exists q :: 0 <= q < |s.pcs| && s.pcs[q] == WantWake(false)
  {
    RunInv(n, value, es);
    var s := After(n, value, es);
    if s.value > 0 {
      var q :| 0 <= q < |s.pcs| && Owes(s.pcs[q]);
      assert (HoldsLk(s.pcs[q]) <==> s.lk == q) && (HoldsPt(s.pcs[q]) <==> s.pt == q);
    }
  }

  /** No run is stuck with something to take and a process asleep: some process that is
      neither idle nor asleep can go on. */
  lemma NeverStuck(n: nat, value: nat, es: seq<(int, Choice)>, k: int)
    requires Possible(n, value, es) && 0 <= k < |After(n, value, es).pcs| && After(n, value, es).pcs[k] == Asleep
    requires After(n, value, es).value > 0
    ensures var s := After(n, value, es);
            exists q :: 0 <= q < |s.pcs| && s.pcs[q] != Idle && s.pcs[q] != Asleep && Can(s, q, Consume)
  {
    RunInv(n, value, es);
    var s := After(n, value, es);
    var q :| 0 <= q < |s.pcs| && Owes(s.pcs[q]);
    if s.pcs[q].WantWake? && s.pt != -1 {
      assert HoldsPt(s.pcs[s.pt]);
      assert Can(s, s.pt, Consume);
    } else {
      assert Can(s, q, Consume);
    }
  }
}
