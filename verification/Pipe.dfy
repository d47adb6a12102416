/** pipe.c in place: a ring of bytes addressed by two wrapping 32-bit counters. */
module Pipe {
  import opened Blocks
  import opened PipeRuns

  class Pipe {
    const data: array<Byte>
    var nread: Uint
    var nwrite: Uint
    var readopen: bool
    var writeopen: bool
    // The process table, as far as this pipe is concerned.
    var calls: map<int, Call>
    var killed: set<int>
    // Bytes read so far and the bytes not yet read.
    ghost var total: nat
    ghost var buf: seq<Byte>

    ghost predicate Valid()
      reads this, data
    {
      && data.Length == PIPESIZE && |buf| <= PIPESIZE
      && nread == total % UINT && nwrite == (total + |buf|) % UINT
      && forall k :: 0 <= k < |buf| ==> data[Place(total, k)] == buf[k]
    }

    ghost function View(): State
      reads this
    {
      State(buf, readopen, writeopen, calls, killed)
    }

    /** The part of pipealloc that sets up a pipe. */
    constructor ()
      ensures Valid() && View() == Init() && fresh(data)
    {
      data := new Byte[PIPESIZE](i => 0);
      nread, nwrite, readopen, writeopen, calls, killed := 0, 0, true, true, map[], {};
      total, buf := 0, [];
    }

    method Put(b: Byte)
      requires Valid() && |buf| < PIPESIZE
      modifies this`nwrite, this`buf, data
      ensures Valid() && buf == old(buf) + [b]
    {
      SlotOf(total + |buf|);
      NextCount(total + |buf|);
      data[nwrite % PIPESIZE] := b;
      nwrite := (nwrite + 1) % UINT;
      Apart(total, |buf|);
      buf := buf + [b];
    }

    method Take() returns (b: Byte)
      requires Valid() && buf != []
      modifies this`nread, this`buf, this`total
      ensures Valid() && b == old(buf)[0] && buf == old(buf)[1..]
    {
      SlotOf(total);
      NextCount(total);
      b := data[nread % PIPESIZE];
      nread := (nread + 1) % UINT;
      total, buf := total + 1, buf[1..];
      assert forall k {:trigger buf[k]} :: 0 <= k < |buf| ==> buf[k] == old(buf)[k + 1] && Place(total, k) == Place(old(total), k + 1);
    }

    method Wakeup(readers: bool)
      modifies this`calls
      ensures calls == Wake(old(calls), readers)
    {
      calls := map p | p in calls :: if calls[p].Read? == readers then calls[p].(asleep := false) else calls[p];
    }

    /** pipewrite by process p, from byte i on until it sleeps or returns. */
    method Pipewrite(p: int, addr: seq<Byte>, n: int, i0: nat) returns (done: bool, r: int)
      requires Valid() && (n > i0 ==> n <= |addr|)
      modifies this`nwrite, this`buf, this`calls, data
      ensures Valid()
      ensures var (s, f) := WriteOn(old(View()), p, addr, n, i0);
              View() == s && done == f.done && r == f.r && buf == old(buf) + f.put
      ensures done && r == n && n > i0 ==> buf == old(buf) + addr[i0..n]
      ensures !done || r != n ==> |buf| == PIPESIZE && if done then r == -1 && (!readopen || p in killed) else readopen && p !in killed
    {
      hide Wake, Place;
      var i := i0;
      while i < n
        invariant i0 <= i && Valid() && calls == old(calls) && (i == i0 || i <= n)
        invariant buf == old(buf) + (if i == i0 then [] else addr[i0..i])
      {
        FullTest(total, |buf|);
        if nwrite == (nread + PIPESIZE) % UINT {
          if !readopen || p in killed {
            calls := calls - {p};
            return true, -1;
          }
          Wakeup(true);
          calls := calls[p := Write(addr, n, i, true)];
          return false, 0;
        }
        Put(addr[i]);
        i := i + 1;
      }
      Wakeup(true);
      calls := calls - {p};
      return true, n;
    }

    /** piperead by process p until it sleeps or returns. */
    method Piperead(p: int, n: int) returns (done: bool, r: int, addr: seq<Byte>)
      requires Valid()
      modifies this`nread, this`buf, this`total, this`calls
      ensures Valid()
      ensures var (s, f) := ReadOn(old(View()), p, n);
              View() == s && done == f.done && r == f.r && addr == f.got
      ensures done <==> old(buf) != [] || !writeopen || p in killed
      ensures done && old(buf) == [] && writeopen ==> r == -1 && addr == []
      ensures done && (old(buf) != [] || !writeopen) ==> r == |addr| && |addr| == Min(if n < 0 then 0 else n, |old(buf)|)
      ensures old(buf) == addr + buf
    {
      hide Wake, Place;
      addr := [];
      EmptyTest(total, |buf|);
      if nread == nwrite && writeopen {
        if p in killed {
          calls := calls - {p};
          return true, -1, addr;
        }
        calls := calls[p := Read(n, true)];
        return false, 0, addr;
      }
      var i := 0;
      while i < n
        invariant 0 <= i <= |old(buf)| && (i <= n || i == 0) && Valid() && calls == old(calls)
        invariant addr == old(buf)[..i] && buf == old(buf)[i..]
      {
        EmptyTest(total, |buf|);
        if nread == nwrite {
          break;
        }
        var b := Take();
        addr := addr + [b];
        i := i + 1;
      }
      Wakeup(false);
      calls := calls - {p};
      return true, i, addr;
    }

    /** pipeclose; freed: both ends are closed and the page is given back. */
    method Pipeclose(writable: bool) returns (freed: bool)
      requires Valid() && Ok(View()) && Enabled(View(), Close(writable))
      modifies this`readopen, this`writeopen, this`calls
      ensures Valid() && View() == Step(old(View()), Close(writable)).0
      ensures freed <==> !readopen && !writeopen
      ensures readopen == (old(readopen) && writable) && writeopen == (old(writeopen) && !writable)
    {
      if writable {
        writeopen := false;
        Wakeup(true);
      } else {
        readopen := false;
        Wakeup(false);
      }
      freed := !readopen && !writeopen;
    }
  }

  /** Where byte t + k of the stream goes. */
  function Place(t: nat, k: nat): (x: nat)
    ensures x < PIPESIZE
  {
    (t + k) % PIPESIZE
  }

  /** The counters are taken modulo a multiple of the ring's size. */
  lemma SlotOf(t: nat)
    ensures t % UINT % PIPESIZE == t % PIPESIZE
  {
    var q := t / UINT;
    assert t == UINT * q + t % UINT;
    assert t == PIPESIZE * (UINT / PIPESIZE * q) + t % UINT;
  }

  lemma NextCount(t: nat)
    ensures (t % UINT + 1) % UINT == (t + 1) % UINT
  {}

  lemma Apart(t: nat, n: nat)
    requires n < PIPESIZE
    ensures forall k :: 0 <= k < n ==> Place(t, k) != Place(t, n)
  {
    forall k | 0 <= k < n ensures Place(t, k) != Place(t, n) {}
  }

  lemma FullTest(t: nat, n: nat)
    requires n <= PIPESIZE
    ensures (t + n) % UINT == (t % UINT + PIPESIZE) % UINT <==> n == PIPESIZE
  {}

  lemma EmptyTest(t: nat, n: nat)
    requires n <= PIPESIZE
    ensures t % UINT == (t + n) % UINT <==> n == 0
  {}
}
