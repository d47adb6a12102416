/** proc.c's loops over the process table, in place; each runs under ptable.lock. */
module ProcTable {
  import opened ProcRuns

  class Ptable {
    const proc: array<Proc>
    const initproc: nat
    var nextpid: int

    ghost function View(): State
      reads this, proc
    {
      State(proc[..], nextpid, initproc)
    }

    /** The table after userinit. */
    constructor (n: nat, pgdir: int)
      requires n > 0
      ensures fresh(proc) && View() == Boot(n, pgdir)
    {
      var free := Proc(UNUSED, 0, -1, Nowhere, false, false, 0, Out);
      proc := new Proc[n](_ => free);
      initproc := 0;
      nextpid := 2;
      new;
      proc[0] := free.(state := RUNNABLE, pid := 1, pgdir := pgdir);
    }

    method Wakeup1(chan: Chan)
      modifies proc
      ensures proc[..] == WakeAll(old(proc[..]), chan)
      ensures forall k :: 0 <= k < proc.Length ==>
                proc[k] == if old(proc[k]).state == SLEEPING && old(proc[k]).chan == chan then old(proc[k]).(state := RUNNABLE) else old(proc[k])
    {
      var p := 0;
      while p < proc.Length
        invariant 0 <= p <= proc.Length
        invariant forall k :: 0 <= k < proc.Length ==> proc[k] == if k < p then WakeOne(old(proc[k]), chan) else old(proc[k])
      {
        if proc[p].state == SLEEPING && proc[p].chan == chan {
          proc[p] := proc[p].(state := RUNNABLE);
        }
        p := p + 1;
      }
    }

    /** allocproc's search by process i; -1 when there is no free slot. */
    method Allocproc(i: int) returns (np: int)
      requires Enabled(View(), Alloc(i))
      modifies this`nextpid, proc
      ensures View() == Step(old(View()), Alloc(i)).0
      ensures np == -1 <==> forall k :: 0 <= k < proc.Length ==> old(proc[k]).state != UNUSED
      ensures np != -1 ==> 0 <= np < proc.Length && old(proc[np]).state == UNUSED && forall k :: 0 <= k < np ==> old(proc[k]).state != UNUSED
      ensures np != -1 ==> proc[np].state == EMBRYO && proc[np].pid == old(nextpid) && nextpid == old(nextpid) + 1
      ensures forall k :: 0 <= k < proc.Length && k != np && k != i ==> proc[k] == old(proc[k])
    {
      var p := 0;
      while p < proc.Length
        invariant 0 <= p <= proc.Length && forall k :: 0 <= k < p ==> proc[k].state != UNUSED
      {
        if proc[p].state == UNUSED {
          break;
        }
        p := p + 1;
      }
      assert FirstFree(proc[..], 0) == p;
      if p == proc.Length {
        return -1;
      }
      proc[p] := proc[p].(state := EMBRYO, pid := nextpid, isThread := false);
      nextpid := nextpid + 1;
      proc[i] := proc[i].(place := Forking(p, false));
      np := p;
    }

    /** exit by process i, from taking the lock to the call of sched; true for "init exiting". */
    method Exit(i: int) returns (panic: bool)
      requires Inv(View()) && At(View(), i, Out)
      modifies proc
      ensures panic <==> i == initproc
      ensures View() == if panic then old(View()) else Step(old(View()), Event.Exit(i)).0
    {
      if i == initproc {
        return true;
      }
      hide Inv, ZombieBelow, HasZombie;
      ghost var s0 := View();
      ghost var ps0 := proc[..];
      Wakeup1(OfProc(proc[i].parent));
      NoneBelow(ps0, i);
      var p := 0;
      while p < proc.Length
        invariant 0 <= p <= proc.Length
        invariant forall k :: 0 <= k < proc.Length ==> proc[k] == Half(ps0, i, initproc, k, p)
      {
        Adopt(i, p, s0);
        p := p + 1;
      }
      hide Half;
      HalfEnd(s0, i);
      proc[i] := proc[i].(state := ZOMBIE);
      assert proc[..] == ExitOn(ps0, i, initproc);
      panic := false;
    }

    /** exit's treatment of slot p. */
    method Adopt(i: int, p: nat, ghost s0: State)
      requires Inv(s0) && At(s0, i, Out) && |s0.ps| == proc.Length && s0.init == initproc && p < proc.Length && i != initproc
      requires forall k :: 0 <= k < proc.Length ==> proc[k] == Half(s0.ps, i, initproc, k, p)
      modifies proc
      ensures forall k :: 0 <= k < proc.Length ==> proc[k] == Half(s0.ps, i, initproc, k, p + 1)
    {
      hide Inv, ZombieBelow;
      ZombieStep(s0.ps, i, p);
      if proc[p].parent == i {
        ChildPages(s0, i, p);
        var q := proc[p];
        var own := q.pgdir != proc[i].pgdir;
        proc[p] := if own then q.(parent := initproc) else q.(parent := -1, state := ZOMBIE);
        if own && q.state == ZOMBIE {
          Wakeup1(OfProc(initproc));
        }
      }
    }

    /** One round of wait by process i: a child's pid, -1, or 0 when it goes to sleep. */
    method Wait(i: int) returns (pid: int)
      requires 0 <= i < proc.Length && proc[i].state == RUNNING
      modifies proc
      ensures (proc[..], pid) == WaitOn(old(proc[..]), i)
      ensures forall z :: 0 <= z < proc.Length && ZombieOf(old(proc[z]), i) && (forall c :: 0 <= c < z ==> !ZombieOf(old(proc[c]), i)) ==>
                pid == old(proc[z]).pid && proc[z].state == UNUSED && forall k :: 0 <= k < proc.Length && k != z && k != i ==> proc[k] == old(proc[k])
      ensures (forall c :: 0 <= c < proc.Length ==> !ZombieOf(old(proc[c]), i)) ==>
                if (forall c :: 0 <= c < proc.Length ==> old(proc[c]).parent != i) || old(proc[i]).killed
                then pid == -1 && proc[..] == old(proc[..])[i := old(proc[i]).(place := Out)]
                else pid == 0 && proc[..] == old(proc[..])[i := old(proc[i]).(state := SLEEPING, chan := OfProc(i), place := Waiting)]
    {
      ghost var ps0 := proc[..];
      var havekids := false;
      var p := 0;
      while p < proc.Length
        invariant 0 <= p <= proc.Length && proc[..] == ps0
        invariant forall k :: 0 <= k < p ==> !ZombieOf(ps0[k], i)
        invariant havekids <==> exists k :: 0 <= k < p && ps0[k].parent == i
      {
        if proc[p].parent == i {
          havekids := true;
          if proc[p].state == ZOMBIE {
            assert FirstZombie(ps0, i, 0) == p;
            pid := proc[p].pid;
            proc[p] := proc[p].(state := UNUSED, pid := 0, parent := -1, killed := false);
            proc[i] := proc[i].(place := Out);
            assert proc[..] == ps0[i := ps0[i].(place := Out)][p := Free(ps0[p])];
            return;
          }
        }
        p := p + 1;
      }
      assert FirstZombie(ps0, i, 0) == |ps0|;
      if !havekids || proc[i].killed {
        proc[i] := proc[i].(place := Out);
        return -1;
      }
      proc[i] := proc[i].(state := SLEEPING, chan := OfProc(i), place := Waiting);
      return 0;
    }

    method Kill(pid: int) returns (r: int)
      modifies proc
      ensures View() == Step(old(View()), Event.Kill(pid)).0
      ensures r == 0 <==> exists k :: 0 <= k < proc.Length && old(proc[k]).pid == pid
      ensures r == 0 || r == -1
      ensures forall k :: 0 <= k < proc.Length ==>
                if old(proc[k]).pid == pid && (forall j :: 0 <= j < k ==> old(proc[j]).pid != pid)
                then proc[k] == old(proc[k]).(killed := true, state := if old(proc[k]).state == SLEEPING then RUNNABLE else old(proc[k]).state)
                else proc[k] == old(proc[k])
    {
      var p := 0;
      while p < proc.Length
        invariant 0 <= p <= proc.Length && forall k :: 0 <= k < p ==> proc[k].pid != pid
        invariant proc[..] == old(proc[..])
      {
        if proc[p].pid == pid {
          assert FirstPid(old(proc[..]), pid, 0) == p;
          proc[p] := proc[p].(killed := true, state := if proc[p].state == SLEEPING then RUNNABLE else proc[p].state);
          return 0;
        }
        p := p + 1;
      }
      assert FirstPid(proc[..], pid, 0) == p;
      return -1;
    }
  }

  /** Some slot below c holds a zombie child of i. */
  ghost predicate ZombieBelow(ps: seq<Proc>, i: int, c: int) {
    exists k :: 0 <= k < c && k < |ps| && ZombieOf(ps[k], i)
  }

  /** Process k in exit's loop, with the slots below c done. */
  ghost function Half(ps: seq<Proc>, i: int, init: int, k: int, c: int): Proc
    requires 0 <= i < |ps| && 0 <= k < |ps|
  {
    var p := ps[k];
    var p1 := if k < c && p.parent == i then p.(parent := init) else p;
    var p2 := WakeOne(p1, OfProc(ps[i].parent));
    if ZombieBelow(ps, i, c) then WakeOne(p2, OfProc(init)) else p2
  }

  lemma NoneBelow(ps: seq<Proc>, i: int)
    ensures !ZombieBelow(ps, i, 0)
  {}

  lemma ZombieStep(ps: seq<Proc>, i: int, c: int)
    requires 0 <= c < |ps|
    ensures ZombieBelow(ps, i, c + 1) <==> ZombieBelow(ps, i, c) || ZombieOf(ps[c], i)
  {}

  lemma HalfEnd(s: State, i: int)
    requires Inv(s) && At(s, i, Out) && i != s.init
    ensures forall k :: 0 <= k < |s.ps| ==> ExitOne(s.ps, i, s.init, k) == if k == i then Half(s.ps, i, s.init, k, |s.ps|).(state := ZOMBIE) else Half(s.ps, i, s.init, k, |s.ps|)
  {
    Show(s, i);
    ZombieAll(s.ps, i);
    hide Inv, HasZombie, ZombieBelow;
  }

  lemma ZombieAll(ps: seq<Proc>, i: int)
    ensures ZombieBelow(ps, i, |ps|) <==> HasZombie(ps, i)
  {}

  /** A child of a process in exit has pages of its own. */
  lemma ChildPages(s: State, i: int, k: int)
    requires Inv(s) && At(s, i, Out) && 0 <= k < |s.ps| && s.ps[k].parent == i
    ensures k != i && s.ps[k].pgdir != s.ps[i].pgdir && (i != s.init ==> k != s.init)
  {
    Show(s, k);
    Show(s, i);
    if k != i { ShowPair(s, i, k); }
  }
}
