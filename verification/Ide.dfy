/** ide.c: the request queue and its interrupt handler, with the controller as a
    device that works on one command at a time.  `Driver` is the state as a value;
    the class below is the linked list the C code keeps. */
module Ide {
  import opened Blocks
  import opened MemDisk
  import opened Options

  /** What idestart tells the controller; a write carries the data outsl sent. */
  datatype Cmd = ReadCmd(a: Addr) | WriteCmd(a: Addr, data: Block)

  /** Finished holds what insl will read (for a read command). */
  datatype Device = Idle | Active(cmd: Cmd) | Finished(cmd: Cmd, input: Block)

  datatype Driver = Driver(queue: seq<Buf>, dev: Device, disk: Disk)

  /** idestart */
  function Start(b: Buf): Device {
    Active(if b.dirty then WriteCmd(Key(b), b.data) else ReadCmd(Key(b)))
  }

  /** The part of iderw before its wait loop: append, and start the disk if the queue was empty. */
  function Enqueue(s: Driver, b: Buf): (t: Driver) {
    s.(queue := s.queue + [b], dev := if s.queue == [] then Start(b) else s.dev)
  }

  /** The controller finishes its command and raises the interrupt. */
  function Complete(s: Driver): (t: Driver)
    requires s.dev.Active? && s.dev.cmd.a in s.disk
  {
    match s.dev.cmd
    case ReadCmd(a) => s.(dev := Finished(s.dev.cmd, s.disk[a]))
    case WriteCmd(a, data) => s.(dev := Finished(s.dev.cmd, data), disk := s.disk[a := data])
  }

  /** What ideintr makes of the head buffer. */
  function Served(b: Buf, dev: Device): Buf
    requires dev.Finished?
  {
    b.(data := if b.dirty then b.data else dev.input, valid := true, dirty := false)
  }

  /** ideintr: None for a spurious interrupt, else the buffer given back to its process. */
  function Intr(s: Driver): (r: Option<(Driver, Buf)>)
    requires s.queue != [] ==> s.dev.Finished?
  {
    if s.queue == [] then None
    else
      var rest := s.queue[1..];
      Some((s.(queue := rest, dev := if rest == [] then Idle else Start(rest[0])), Served(s.queue[0], s.dev)))
  }

  /** The tests of iderw. */
  predicate Accepts(b: Buf, havedisk1: bool) {
    b.busy && !(b.valid && !b.dirty) && (b.dev == 0 || havedisk1)
  }

  /** With the disks there that its address names, a request passes these tests and the one for
      its block exactly when the synchronous disk serves it. */
  lemma AcceptsIff(b: Buf, havedisk1: bool, d: Disk)
    requires forall a :: a in d && a.0 != 0 ==> havedisk1
    ensures Accepts(b, havedisk1) && Key(b) in d <==> Iderw(b, d).Some?
  {}

  // ----- the code -----

  class Request {
    var buf: Buf
    var qnext: Request?

    constructor (b: Buf)
      ensures buf == b && qnext == null
    {
      buf, qnext := b, null;
    }
  }

  ghost predicate Linked(q: Request?, s: seq<Request>)
    reads s`qnext
  {
    && (forall i, j :: 0 <= i < j < |s| ==> s[i] != s[j])
    && (forall i, j :: 0 <= i < j < |s| && j == i + 1 ==> s[i].qnext == s[j])
    && (if s == [] then q == null else q == s[0] && s[|s| - 1].qnext == null)
  }

  ghost predicate Shows(s: seq<Request>, v: seq<Buf>)
    reads s`buf
  {
    |v| == |s| && forall k :: 0 <= k < |s| ==> s[k].buf == v[k]
  }

  class IdeDriver {
    var idequeue: Request?
    var dev: Device
    var disk: Disk
    const havedisk1: bool
    ghost var reqs: seq<Request>
    ghost var vals: seq<Buf>

    ghost predicate Valid()
      reads this`idequeue, this`reqs, this`vals, reqs`qnext, reqs`buf
    {
      Linked(idequeue, reqs) && Shows(reqs, vals)
    }

    ghost function Abs(): Driver
      reads this`vals, this`dev, this`disk
    {
      Driver(vals, dev, disk)
    }

    /** iderw down to its wait loop.  false stands for a panic: the flags, the missing second
        disk, or, if the request is started at once, a block out of range. */
    method Append(b: Request) returns (ok: bool)
      requires Valid() && b !in reqs
      modifies this`idequeue, this`dev, this`reqs, this`vals, b`qnext, reqs`qnext
      ensures Valid() && b.buf == old(b.buf)
      ensures ok <==> Accepts(b.buf, havedisk1) && (old(reqs) == [] ==> Key(b.buf) in disk)
      ensures ok ==> reqs == old(reqs) + [b] && Abs() == Enqueue(old(Abs()), b.buf)
      ensures !Accepts(b.buf, havedisk1) ==> reqs == old(reqs) && Abs() == old(Abs())
    {
      if !b.buf.busy || (b.buf.valid && !b.buf.dirty) || (b.buf.dev != 0 && !havedisk1) {
        return false;
      }
      b.qnext := null;
      if idequeue == null {
        idequeue := b;
      } else {
        var pp := idequeue;
        ghost var k := 0;
        while pp.qnext != null
          invariant 0 <= k < |reqs| && pp == reqs[k]
          invariant pp.qnext == if k + 1 < |reqs| then reqs[k + 1] else null
          decreases |reqs| - k
        {
          pp := pp.qnext;
          k := k + 1;
        }
        pp.qnext := b;
      }
      reqs, vals := reqs + [b], vals + [b.buf];
      if idequeue == b {
        if Key(b.buf) !in disk {
          return false;
        }
        dev := Start(b.buf);
      }
      return true;
    }

    /** ideintr.  panic: the next request is for a block out of range. */
    method Interrupt() returns (b: Request?, panic: bool)
      requires Valid() && (reqs != [] ==> dev.Finished?)
      modifies this`idequeue, this`dev, this`reqs, this`vals, reqs`buf
      ensures Valid()
      ensures panic <==> |old(reqs)| > 1 && Key(old(vals)[1]) !in disk
      ensures !panic ==>
                match Intr(old(Abs()))
                case None => b == null && Abs() == old(Abs())
                case Some((s, v)) => b == old(reqs[0]) && reqs == old(reqs[1..]) && b.buf == v && Abs() == s
    {
      panic := false;
      b := idequeue;
      if b == null {
        return;
      }
      idequeue := b.qnext;
      if !b.buf.dirty {
        b.buf := b.buf.(data := dev.input);
      }
      b.buf := b.buf.(valid := true, dirty := false);
      reqs, vals := reqs[1..], vals[1..];
      if idequeue != null {
        if Key(idequeue.buf) !in disk {
          panic := true;
          return;
        }
        dev := Start(idequeue.buf);
      } else {
        dev := Idle;
      }
    }
  }
}
