/** log.c as written: the in-memory header, the counters, and the loops that move
    blocks between cache, log and home through the buffer cache.  The ghost `trace`
    records the disk after every single-block write: the places a crash can fall. */
module Log {
  import opened Blocks
  import opened MemDisk
  import opened BufferCache
  import opened LogSpec
  import CacheRuns
  import LogRuns

  /** The buffer cache c, seen from above. */
  ghost predicate Shows(c: Cache, d: Disk, v: Disk, pinned: set<Addr>, held: set<Addr>) {
    Inv(c) && |c.bufs| == NBUF && c.disk == d && View(c) == v && Pinned(c) == pinned && Held(c) == held
  }

  ghost function Homes(bs: seq<int>): set<Addr> {
    if bs == [] then {} else Homes(bs[..|bs| - 1]) + {HomeAddr(bs[|bs| - 1])}
  }

  lemma {:induction false} InHomes(bs: seq<int>, x: Addr)
    ensures x in Homes(bs) <==> exists i :: 0 <= i < |bs| && HomeAddr(bs[i]) == x
  {
    if bs != [] { InHomes(bs[..|bs| - 1], x); }
  }

  lemma {:induction false} HomesCount(bs: seq<int>)
    requires LogRuns.Distinct(bs)
    ensures |Homes(bs)| == |bs|
  {
    if bs != [] {
      HomesCount(bs[..|bs| - 1]);
      InHomes(bs[..|bs| - 1], HomeAddr(bs[|bs| - 1]));
    }
  }

  /** An unpinned block is on disk as it is seen. */
  lemma Clean(c: Cache, a: Addr)
    requires Inv(c) && a in c.disk && a !in Pinned(c)
    ensures Latest(c, a) == c.disk[a]
  {
    if k :| 0 <= k < |c.bufs| && Key(c.bufs[k]) == a && c.bufs[k].valid {
      LatestAt(c, k);
    } else {
      LatestMiss(c, a);
    }
  }

  lemma AllClean(c: Cache, d: Disk, v: Disk)
    requires Shows(c, d, v, {}, {})
    ensures v == d
  {
    forall a | a in d ensures v[a] == d[a] { Clean(c, a); }
  }

  /** bread succeeds exactly when nobody holds the block and there is room for it. */
  lemma ReadOk(c: Cache, a: Addr)
    requires Inv(c) && |c.bufs| == NBUF && a in c.disk && a.0 != NODEV
    requires a !in Held(c) && (a in Pinned(c) || |Pinned(c) + Held(c)| < NBUF)
    ensures Bread(c, a).Got?
  {
    BreadSpec(c, a);
    if Bread(c, a).NoBuffers? { CacheRuns.NoBuffersMeansFull(c, a); }
  }

  lemma CopyFacts(g: Geo, d: Disk, v: Disk, w: Disk, bs: seq<int>, t: nat)
    requires Formatted(g, d) && Fits(g, d, bs) && t < |bs|
    requires v.Keys == d.Keys == w.Keys && Home(g, w) == Home(g, v)
    ensures var to, home := LogAddr(g, t), HomeAddr(bs[t]);
            && to in d && home in d && to !in Homes(bs) && home in Homes(bs) && home != to
            && Homes(bs) - {to} == Homes(bs) && {} + {to} == {to} && {to} + {home} == {to, home}
            && w[home] == v[home]
            && PutLog(g, d, v, bs, t + 1) == PutLog(g, d, v, bs, t)[to := v[home]]
            && Home(g, w[to := v[home]]) == Home(g, v)
  {
    var to, home := LogAddr(g, t), HomeAddr(bs[t]);
    assert InLog(g, to);
    InHomes(bs, to);
    InHomes(bs, home);
    assert home in Home(g, w);
  }

  /** The blocks still pinned before iteration t of install_trans: the uninstalled ones, or none. */
  ghost predicate ToInstall(bs: seq<int>, t: nat, q: set<Addr>) {
    t <= |bs| && (q == {} || (|q| < NBUF && LogRuns.Distinct(bs) && forall x :: x in q <==> exists i :: t <= i < |bs| && HomeAddr(bs[i]) == x))
  }

  lemma LeftToInstall(bs: seq<int>, p: set<Addr>)
    requires p == {} || (p == Homes(bs) && LogRuns.Distinct(bs) && |bs| < NBUF)
    ensures ToInstall(bs, 0, p)
  {
    if p != {} {
      HomesCount(bs);
      forall x ensures x in p <==> exists i :: 0 <= i < |bs| && HomeAddr(bs[i]) == x { InHomes(bs, x); }
    }
  }

  lemma NothingLeft(bs: seq<int>, q: set<Addr>)
    requires ToInstall(bs, |bs|, q)
    ensures q == {}
  {}

  lemma InstallFacts(g: Geo, d: Disk, bs: seq<int>, t: nat, q: set<Addr>)
    requires Formatted(g, d) && Fits(g, d, bs) && t < |bs| && ToInstall(bs, t, q)
    ensures var lbuf, home := LogAddr(g, t), HomeAddr(bs[t]); var e := Install(g, d, bs, t);
            && lbuf in d && home in d && home != lbuf && lbuf !in q && |q| < NBUF && (home in q || |q + {lbuf}| < NBUF)
            && q + {} == q && {} + {lbuf} == {lbuf} && {lbuf} + {home} == {lbuf, home}
            && Install(g, d, bs, t + 1) == e[home := e[lbuf]] && ToInstall(bs, t + 1, q - {home})
  {
    var lbuf, home := LogAddr(g, t), HomeAddr(bs[t]);
    assert InLog(g, lbuf);
    StillToInstall(bs, t, q);
  }

  lemma StillToInstall(bs: seq<int>, t: nat, q: set<Addr>)
    requires t < |bs| && ToInstall(bs, t, q)
    ensures ToInstall(bs, t + 1, q - {HomeAddr(bs[t])})
  {
    if q != {} {
      var q' := q - {HomeAddr(bs[t])};
      forall x ensures x in q' <==> exists i :: t + 1 <= i < |bs| && HomeAddr(bs[i]) == x {
        if x in q' {
          var i :| t <= i < |bs| && HomeAddr(bs[i]) == x;
          assert i != t;
        }
      }
    }
  }

  lemma CleanShown(c: Cache, d: Disk, v: Disk, p: set<Addr>, h: set<Addr>, a: Addr)
    requires Shows(c, d, v, p, h) && a in d && a !in p
    ensures v[a] == d[a]
  {
    Clean(c, a);
  }

  lemma FillSteps(b: Block, bs: seq<int>)
    requires |bs| <= LOGSIZE && forall i :: 0 <= i < |bs| ==> 0 <= bs[i] < UINT
    ensures Filled(b, bs, 0) == SetWord(b, 0, |bs|)
    ensures forall i :: 0 <= i < |bs| ==> Filled(b, bs, i + 1) == SetWord(Filled(b, bs, i), i + 1, bs[i])
  {}

  lemma CommitFacts(g: Geo, d: Disk, v: Disk, bs: seq<int>)
    requires Formatted(g, d) && Fits(g, d, bs) && v.Keys == d.Keys
    ensures var n, e, h := |bs|, PutLog(g, d, v, bs, |bs|), PutHead(g, d, v, bs); var a := HeadAddr(g);
            && a in d && a !in Homes(bs) && (bs == [] ==> Homes(bs) == {})
            && (forall i :: 0 <= i < n ==> 0 <= bs[i] < UINT) && n <= LOGSIZE
            && Formatted(g, e) && e.Keys == d.Keys == h.Keys && h == e[a := Filled(e[a], bs, n)]
            && Formatted(g, h) && Fits(g, h, bs) && Install(g, h, bs, n).Keys == d.Keys && Formatted(g, Install(g, h, bs, n))
  {
    hide Install, PutLog, Filled;
    PutHeadReadable(g, d, v, bs);
    InHomes(bs, HeadAddr(g));
    assert InLog(g, HeadAddr(g));
  }

  /** The disks of write_log, of install_trans, of commit and of recovery, write by write. */
  ghost function Puts(g: Geo, d: Disk, v: Disk, bs: seq<int>, k: nat): (s: seq<Disk>)
    requires Formatted(g, d) && Fits(g, d, bs) && v.Keys == d.Keys && k <= |bs|
    ensures |s| == k && forall j :: 0 <= j < k ==> s[j] == PutLog(g, d, v, bs, j + 1)
  {
    if k == 0 then [] else Puts(g, d, v, bs, k - 1) + [PutLog(g, d, v, bs, k)]
  }

  ghost function Installs(g: Geo, d: Disk, bs: seq<int>, k: nat): (s: seq<Disk>)
    requires Formatted(g, d) && Fits(g, d, bs) && k <= |bs|
    ensures |s| == k && forall j :: 0 <= j < k ==> s[j] == Install(g, d, bs, j + 1)
  {
    if k == 0 then [] else Installs(g, d, bs, k - 1) + [Install(g, d, bs, k)]
  }

  ghost function Boots(g: Geo, d: Disk, bs: seq<int>): (s: seq<Disk>)
    requires Formatted(g, d) && Fits(g, d, bs)
    ensures |s| == |bs| + 1 && forall j :: 0 <= j <= |bs| ==> s[j] == Boot(g, d, bs, j + 1)
  {
    Installs(g, d, bs, |bs|) + [Boot(g, d, bs, |bs| + 1)]
  }

  ghost function Commits(g: Geo, d: Disk, v: Disk, bs: seq<int>): (s: seq<Disk>)
    requires Formatted(g, d) && Fits(g, d, bs) && v.Keys == d.Keys
    ensures |s| == 2 * |bs| + 2
    ensures forall j :: 0 <= j < |s| ==> s[j] == LogSpec.Commit(g, d, v, bs, j + 1)
  {
    PutHeadReadable(g, d, v, bs);
    NoInstall(g, PutHead(g, d, v, bs), bs);
    Puts(g, d, v, bs, |bs|) + [PutHead(g, d, v, bs)] + Boots(g, PutHead(g, d, v, bs), bs)
  }

  lemma CommitEnds(g: Geo, d: Disk, v: Disk, bs: seq<int>, t: seq<Disk>)
    requires Formatted(g, d) && Fits(g, d, bs) && v.Keys == d.Keys
    requires Formatted(g, PutHead(g, d, v, bs)) && Fits(g, PutHead(g, d, v, bs), bs)
    ensures var n, h := |bs|, PutHead(g, d, v, bs); var a := HeadAddr(g); var k := Install(g, h, bs, n);
            && a in k && LogSpec.Commit(g, d, v, bs, 2 * n + 2) == k[a := Filled(k[a], [], 0)]
            && t + Commits(g, d, v, bs) == t + Puts(g, d, v, bs, n) + [h] + Installs(g, h, bs, n) + [k[a := Filled(k[a], [], 0)]]
  {
    hide Puts, Installs, Install, PutLog, PutHead, Filled, Formatted, Fits;
    var n, h := |bs|, PutHead(g, d, v, bs);
    HeadIn(g, h);
    Concat(t, Puts(g, d, v, bs, n), h, Installs(g, h, bs, n), Boot(g, h, bs, n + 1));
  }

  lemma Concat(t: seq<Disk>, a: seq<Disk>, h: Disk, b: seq<Disk>, c: Disk)
    ensures t + (a + [h] + (b + [c])) == t + a + [h] + b + [c]
  {}

  lemma HeadIn(g: Geo, d: Disk)
    requires Formatted(g, d)
    ensures HeadAddr(g) in d
  {}

  lemma BootFacts(g: Geo, d: Disk)
    requires Readable(g, d)
    ensures var bs := Head(g, d); var n := |bs|; var k := Install(g, d, bs, n); var a := HeadAddr(g);
            && Formatted(g, d) && Fits(g, d, bs) && n <= LOGSIZE && a in d
            && Formatted(g, k) && k.Keys == d.Keys
            && (forall j :: 0 <= j <= n ==> Boot(g, d, bs, j) == Install(g, d, bs, j))
            && Boot(g, d, bs, n + 1) == k[a := Filled(k[a], [], 0)]
            && (forall j :: 0 <= j <= n + 1 ==> Readable(g, Boot(g, d, bs, j)) && Recovered(g, Boot(g, d, bs, j)) == Recovered(g, d))
            && Head(g, Boot(g, d, bs, n + 1)) == [] && Home(g, Boot(g, d, bs, n + 1)) == Recovered(g, d)
  {
    forall j | 0 <= j <= |Head(g, d)| + 1
      ensures Readable(g, Boot(g, d, Head(g, d), j)) && Recovered(g, Boot(g, d, Head(g, d), j)) == Recovered(g, d)
    {
      BootCrash(g, d, j);
    }
    BootCrash(g, d, |Head(g, d)| + 1);
  }

  class Log {
    const geo: Geo
    var n: nat
    const block: array<int>
    var outstanding: int
    var committing: bool
    var bc: Cache
    ghost var trace: seq<Disk>

    /** The header as a list. */
    ghost function Lh(): seq<int>
      reads this`n, block
      requires n <= block.Length
    {
      block[..n]
    }

    method Read(a: Addr, ghost d: Disk, ghost v: Disk, ghost p: set<Addr>, ghost h: set<Addr>) returns (data: Block)
      requires Shows(bc, d, v, p, h) && a in d && a.0 != NODEV && a !in h && (a in p || |p + h| < NBUF)
      modifies this`bc
      ensures Shows(bc, d, v, p, h + {a}) && data == v[a]
    {
      ReadOk(bc, a);
      BreadSpec(bc, a);
      var r := Bread(bc, a);
      bc := r.c;
      data := bc.bufs[r.i].data;
    }

    /** memmove into a held buffer and bwrite it. */
    method Write(a: Addr, data: Block, ghost d: Disk, ghost v: Disk, ghost p: set<Addr>, ghost h: set<Addr>)
      requires Shows(bc, d, v, p, h) && a in d && a in h
      modifies this`bc, this`trace
      ensures Shows(bc, d[a := data], v[a := data], p - {a}, h)
      ensures trace == old(trace) + [d[a := data]]
    {
      var i := Find(bc.bufs, a);
      HeldAt(bc, a);
      BwriteSpec(bc, i, data);
      bc := Bwrite(bc, i, data).value;
      trace := trace + [bc.disk];
    }

    method Release(a: Addr, ghost d: Disk, ghost v: Disk, ghost p: set<Addr>, ghost h: set<Addr>)
      requires Shows(bc, d, v, p, h) && a in h
      modifies this`bc
      ensures Shows(bc, d, v, p, h - {a})
    {
      var i := Find(bc.bufs, a);
      HeldAt(bc, a);
      BrelseSpec(bc, i);
      bc := Brelse(bc, i);
    }

    method WriteLog(ghost d: Disk, ghost v: Disk) returns (ghost w: Disk)
      requires n <= block.Length && Formatted(geo, d) && Fits(geo, d, Lh()) && LogRuns.Distinct(Lh()) && n < NBUF
      requires v.Keys == d.Keys && Shows(bc, d, v, Homes(Lh()), {})
      modifies this`bc, this`trace
      ensures Shows(bc, PutLog(geo, d, v, Lh(), n), w, Homes(Lh()), {}) && w.Keys == d.Keys && Home(geo, w) == Home(geo, v)
      ensures trace == old(trace) + Puts(geo, d, v, Lh(), n)
    {
      hide Shows, PutLog, Formatted, Fits, Homes, Home;
      ghost var bs, p := Lh(), Homes(Lh());
      HomesCount(bs);
      var tail := 0;
      w := v;
      assert PutLog(geo, d, v, bs, 0) == d by { PutNone(geo, d, v, bs); }
      while tail < n
        invariant 0 <= tail <= n && bs == Lh()
        invariant Shows(bc, PutLog(geo, d, v, bs, tail), w, p, {}) && Home(geo, w) == Home(geo, v) && w.Keys == d.Keys
        invariant trace == old(trace) + Puts(geo, d, v, bs, tail)
      {
        w := CopyToLog(tail, d, v, w);
        tail := tail + 1;
      }
    }

    /** One iteration of write_log. */
    method CopyToLog(tail: nat, ghost d: Disk, ghost v: Disk, ghost w: Disk) returns (ghost w': Disk)
      requires n <= block.Length && Formatted(geo, d) && Fits(geo, d, Lh()) && |Homes(Lh())| < NBUF && tail < n
      requires v.Keys == d.Keys == w.Keys && Home(geo, w) == Home(geo, v)
      requires Shows(bc, PutLog(geo, d, v, Lh(), tail), w, Homes(Lh()), {})
      modifies this`bc, this`trace
      ensures Shows(bc, PutLog(geo, d, v, Lh(), tail + 1), w', Homes(Lh()), {})
      ensures w'.Keys == d.Keys && Home(geo, w') == Home(geo, v)
      ensures trace == old(trace) + [PutLog(geo, d, v, Lh(), tail + 1)]
    {
      hide Shows, PutLog, Formatted, Fits, Homes, Home, InLog;
      ghost var p, e := Homes(Lh()), PutLog(geo, d, v, Lh(), tail);
      var to, home := LogAddr(geo, tail), HomeAddr(block[tail]);
      CopyFacts(geo, d, v, w, Lh(), tail);
      var was := Read(to, e, w, p, {});
      var data := Read(home, e, w, p, {to});
      Write(to, data, e, w, p, {to, home});
      w' := w[to := data];
      Release(home, e[to := data], w', p, {to, home});
      assert {to, home} - {home} == {to} && {to} - {to} == {};
      Release(to, e[to := data], w', p, {to});
    }

    method InstallTrans(ghost d: Disk, ghost v: Disk, ghost p: set<Addr>) returns (ghost w: Disk)
      requires n <= block.Length && Formatted(geo, d) && Fits(geo, d, Lh()) && v.Keys == d.Keys && Shows(bc, d, v, p, {})
      requires p == {} || (p == Homes(Lh()) && LogRuns.Distinct(Lh()) && n < NBUF)
      modifies this`bc, this`trace
      ensures Shows(bc, Install(geo, d, Lh(), n), Install(geo, d, Lh(), n), {}, {})
      ensures trace == old(trace) + Installs(geo, d, Lh(), n)
    {
      hide Shows, Install, Formatted, Fits, Homes;
      ghost var bs, q := Lh(), p;
      var tail := 0;
      w := v;
      LeftToInstall(bs, p);
      NoInstall(geo, d, bs);
      while tail < n
        invariant 0 <= tail <= n && bs == Lh() && ToInstall(bs, tail, q)
        invariant Shows(bc, Install(geo, d, bs, tail), w, q, {}) && w.Keys == d.Keys
        invariant trace == old(trace) + Installs(geo, d, bs, tail)
      {
        w, q := InstallOne(tail, d, w, q);
        tail := tail + 1;
      }
      NothingLeft(bs, q);
      AllClean(bc, Install(geo, d, bs, n), w);
    }

    /** One iteration of install_trans. */
    method InstallOne(tail: nat, ghost d: Disk, ghost w: Disk, ghost q: set<Addr>) returns (ghost w': Disk, ghost q': set<Addr>)
      requires n <= block.Length && Formatted(geo, d) && Fits(geo, d, Lh()) && w.Keys == d.Keys && tail < n
      requires Shows(bc, Install(geo, d, Lh(), tail), w, q, {}) && ToInstall(Lh(), tail, q)
      modifies this`bc, this`trace
      ensures Shows(bc, Install(geo, d, Lh(), tail + 1), w', q', {}) && w'.Keys == d.Keys && ToInstall(Lh(), tail + 1, q')
      ensures trace == old(trace) + [Install(geo, d, Lh(), tail + 1)]
    {
      hide Shows, Install, Formatted, Fits, ToInstall, InLog;
      ghost var e := Install(geo, d, Lh(), tail);
      var lbuf, home := LogAddr(geo, tail), HomeAddr(block[tail]);
      InstallFacts(geo, d, Lh(), tail, q);
      CleanShown(bc, e, w, q, {}, lbuf);
      var data := Read(lbuf, e, w, q, {});
      var was := Read(home, e, w, q, {lbuf});
      Write(home, data, e, w, q, {lbuf, home});
      w', q' := w[home := data], q - {home};
      assert {lbuf, home} - {lbuf} == {home} && {home} - {home} == {};
      Release(lbuf, e[home := data], w', q', {lbuf, home});
      Release(home, e[home := data], w', q', {home});
    }

    method WriteHead(ghost d: Disk, ghost v: Disk, ghost p: set<Addr>)
      requires n <= block.Length && n <= LOGSIZE && Formatted(geo, d) && v.Keys == d.Keys && Shows(bc, d, v, p, {})
      requires |p| < NBUF && HeadAddr(geo) !in p && forall i :: 0 <= i < n ==> 0 <= block[i] < UINT
      modifies this`bc, this`trace
      ensures var h := Filled(d[HeadAddr(geo)], Lh(), n);
              && Shows(bc, d[HeadAddr(geo) := h], v[HeadAddr(geo) := h], p, {})
              && trace == old(trace) + [d[HeadAddr(geo) := h]]
    {
      hide Shows, Filled;
      ghost var bs := Lh();
      var a := HeadAddr(geo);
      assert p + {} == p && {} + {a} == {a} && p - {a} == p && {a} - {a} == {};
      CleanShown(bc, d, v, p, {}, a);
      var hb := Read(a, d, v, p, {});
      ghost var was := hb;
      FillSteps(was, bs);
      hb := SetWord(hb, 0, n);
      var i := 0;
      while i < n
        invariant 0 <= i <= n && hb == Filled(was, bs, i)
      {
        hb := SetWord(hb, i + 1, block[i]);
        i := i + 1;
      }
      Write(a, hb, d, v, p, {a});
      Release(a, d[a := hb], v[a := hb], p, {a});
    }

    method ReadHead(ghost d: Disk)
      requires block.Length == LOGSIZE && Readable(geo, d) && Shows(bc, d, d, {}, {})
      modifies this`bc, this`n, block
      ensures n <= LOGSIZE && Lh() == Head(geo, d) && Shows(bc, d, d, {}, {})
    {
      hide Shows;
      var a := HeadAddr(geo);
      assert {} + {a} == {a} && {a} - {a} == {};
      var lh := Read(a, d, d, {}, {});
      n := Word(lh, 0);
      var i := 0;
      while i < n
        invariant 0 <= i <= n <= LOGSIZE && n == Word(lh, 0) && Shows(bc, d, d, {}, {a})
        invariant forall k :: 0 <= k < i ==> block[k] == Word(lh, k + 1)
      {
        block[i] := Word(lh, i + 1);
        i := i + 1;
      }
      Release(a, d, d, {}, {a});
    }

    method Commit(ghost d: Disk, ghost v: Disk)
      requires n <= block.Length && Formatted(geo, d) && Fits(geo, d, Lh()) && LogRuns.Distinct(Lh()) && n < NBUF
      requires v.Keys == d.Keys && Shows(bc, d, v, Homes(Lh()), {})
      modifies this`bc, this`n, this`trace
      ensures n == 0
      ensures old(n) == 0 ==> Shows(bc, d, v, {}, {}) && trace == old(trace)
      ensures old(n) > 0 ==>
                var e := LogSpec.Commit(geo, d, v, old(Lh()), 2 * old(n) + 2);
                Shows(bc, e, e, {}, {}) && trace == old(trace) + Commits(geo, d, v, old(Lh()))
    {
      hide Shows, LogSpec.Commit, PutLog, PutHead, Install, Formatted, Fits, Homes, Filled, LogRuns.Distinct, Puts, Installs, Boots, Boot;
      ghost var bs, p := Lh(), Homes(Lh());
      CommitFacts(geo, d, v, bs);
      HomesCount(bs);
      if n > 0 {
        ghost var w := WriteLog(d, v);
        ghost var e := PutLog(geo, d, v, bs, |bs|);
        WriteHead(e, w, p);
        ghost var h := PutHead(geo, d, v, bs);
        w := InstallTrans(h, w[HeadAddr(geo) := h[HeadAddr(geo)]], p);
        ghost var k := Install(geo, h, bs, |bs|);
        n := 0;
        assert Lh() == [];
        WriteHead(k, k, {});
        CommitEnds(geo, d, v, bs, old(trace));
      }
    }

    method RecoverFromLog(ghost d: Disk)
      requires block.Length == LOGSIZE && Readable(geo, d) && Shows(bc, d, d, {}, {})
      modifies this`bc, this`n, this`trace, block
      ensures var bs := Head(geo, d); var e := Boot(geo, d, bs, |bs| + 1);
              && n == 0 && Shows(bc, e, e, {}, {}) && trace == old(trace) + Boots(geo, d, bs)
              && Readable(geo, e) && Head(geo, e) == [] && Home(geo, e) == Recovered(geo, d)
      ensures forall j :: 0 <= j <= |Head(geo, d)| ==>
                var e := Boots(geo, d, Head(geo, d))[j]; Readable(geo, e) && Recovered(geo, e) == Recovered(geo, d)
    {
      hide Shows, Install, Boot, Recovered, Fits, Formatted, Filled, Installs;
      ghost var bs := Head(geo, d);
      BootFacts(geo, d);
      ReadHead(d);
      ghost var w := InstallTrans(d, d, {});
      ghost var e := Install(geo, d, bs, |bs|);
      n := 0;
      assert Lh() == [];
      WriteHead(e, e, {});
      assert trace == old(trace) + Boots(geo, d, bs);
    }

    /** Between file-system calls and inside them: the on-disk log is empty, and exactly the
        logged blocks are pinned in the cache. */
    ghost predicate Valid()
      reads this, block
    {
      && block.Length == LOGSIZE && n <= LOGSIZE && outstanding >= 0
      && Inv(bc) && |bc.bufs| == NBUF && Readable(geo, bc.disk) && Head(geo, bc.disk) == []
      && Fits(geo, bc.disk, Lh()) && LogRuns.Distinct(Lh()) && Pinned(bc) == Homes(Lh())
    }

    /** initlog: recovery on the cache binit set up. */
    constructor (geo: Geo, c: Cache)
      requires Shows(c, c.disk, c.disk, {}, {}) && Readable(geo, c.disk)
      ensures Valid() && fresh(block) && this.geo == geo && n == 0 && outstanding == 0 && !committing
      ensures Held(bc) == {} && Home(geo, View(bc)) == Recovered(geo, c.disk) && Recovered(geo, bc.disk) == Recovered(geo, c.disk)
    {
      this.geo := geo;
      block := new int[LOGSIZE];
      n, outstanding, committing, bc, trace := 0, 0, false, c, [];
      new;
      hide Shows, Boots, Boot, Home, Recovered, Inv, Pinned, Held, View, Install, Formatted, Fits, Head;
      RecoverFromLog(c.disk);
      Started(geo, c.disk, bc);
      assert Lh() == [];
    }

    /** One round of begin_op's loop under log.lock; false means it went to sleep. */
    method BeginOp() returns (admitted: bool)
      requires Valid()
      modifies this`outstanding
      ensures Valid()
      ensures admitted <==> !committing && n + (old(outstanding) + 1) * MAXOPBLOCKS <= LOGSIZE
      ensures outstanding == old(outstanding) + if admitted then 1 else 0
    {
      if committing {
        return false;
      } else if n + (outstanding + 1) * MAXOPBLOCKS > LOGSIZE {
        return false;
      }
      outstanding := outstanding + 1;
      return true;
    }

    /** log_write of block b, whose held buffer now contains data. */
    method LogWrite(b: int, data: Block) returns (panic: bool)
      requires Valid() && IsHome(geo, bc.disk, b) && HomeAddr(b) in Held(bc)
      requires bc.bufs[Find(bc.bufs, HomeAddr(b))].valid
      modifies this`bc, this`n, block
      ensures Valid()
      ensures panic <==> old(n) >= LOGSIZE || old(n) >= geo.size - 1 || outstanding < 1
      ensures panic ==> bc == old(bc) && Lh() == old(Lh())
      ensures !panic ==>
                && View(bc) == old(View(bc))[HomeAddr(b) := data] && bc.disk == old(bc.disk) && Held(bc) == old(Held(bc))
                && Lh() == if b in old(Lh()) then old(Lh()) else old(Lh()) + [b]
    {
      if n >= LOGSIZE || n >= geo.size - 1 {
        return true;
      }
      if outstanding < 1 {
        return true;
      }
      ghost var bs := Lh();
      var i := 0;
      while i < n && block[i] != b
        invariant 0 <= i <= n && forall k :: 0 <= k < i ==> block[k] != b
      {
        i := i + 1;
      }
      block[i] := b;
      if i == n {
        n := n + 1;
      }
      assert Lh() == if b in bs then bs else bs + [b];
      HeldAt(bc, HomeAddr(b));
      PinSpec(bc, Find(bc.bufs, HomeAddr(b)), data);
      bc := Pin(bc, Find(bc.bufs, HomeAddr(b)), data);
      Absorbed(geo, bc.disk, bs, b);
      return false;
    }

    /** end_op; the last outstanding call commits.  No process holds a buffer while it does. */
    method EndOp() returns (panic: bool)
      requires Valid() && outstanding >= 1 && geo.size <= NBUF && (outstanding == 1 ==> Held(bc) == {})
      modifies this`outstanding, this`committing, this`bc, this`n, this`trace
      ensures panic == old(committing) && outstanding == old(outstanding) - 1
      ensures !panic ==> Valid() && !committing && (outstanding == 0 ==> Held(bc) == {})
      ensures panic || outstanding > 0 ==> n == old(n) && bc == old(bc) && trace == old(trace)
      ensures !panic && outstanding == 0 ==>
                && n == 0
                && Home(geo, View(bc)) == Home(geo, old(View(bc)))
                && Recovered(geo, bc.disk) == Home(geo, old(View(bc)))
                && trace == old(trace) + (if old(n) == 0 then [] else Commits(geo, old(bc.disk), old(View(bc)), old(Lh())))
      ensures Switches(geo, Commits(geo, old(bc.disk), old(View(bc)), old(Lh())), old(n),
                       Home(geo, old(bc.disk)), Home(geo, old(View(bc))))
    {
      hide Home, Recovered, Readable, View, Commits, Pending, Fits, Formatted, LogSpec.Commit, Homes, Switches, Head, Inv, Pinned, Held, LogRuns.Distinct;
      ghost var d, v, bs := bc.disk, View(bc), Lh();
      PendingShown(bc, geo, bs);
      CommitsPre(bc, geo, bs);
      CommitsCrash(geo, d, v, bs);
      HomesNone();
      Fitted(geo, d, bs);
      outstanding := outstanding - 1;
      if committing {
        return true;
      }
      if outstanding == 0 {
        committing := true;
        ShowsNow(bc, bs);
        Commit(d, v);
        committing := false;
        if bs == [] { NothingLogged(geo, bc, d, v); }
        else { Committed(bc, geo, d, v, bs); }
        assert Lh() == [];
      }
      return false;
    }
  }

  /** The cache after recovery. */
  lemma Started(g: Geo, d: Disk, c: Cache)
    requires Readable(g, d)
    requires var e := Boot(g, d, Head(g, d), |Head(g, d)| + 1);
             Shows(c, e, e, {}, {}) && Readable(g, e) && Head(g, e) == [] && Home(g, e) == Recovered(g, d)
    ensures Inv(c) && |c.bufs| == NBUF && Readable(g, c.disk) && Head(g, c.disk) == [] && Fits(g, c.disk, [])
    ensures LogRuns.Distinct([]) && Pinned(c) == Homes([]) && Held(c) == {}
    ensures Home(g, View(c)) == Recovered(g, d) && Recovered(g, c.disk) == Recovered(g, d)
  {
    hide Boot, Home, Recovered, Inv, Pinned, Held, View, Install;
    NothingToInstall(g, c.disk);
  }

  lemma NothingToInstall(g: Geo, d: Disk)
    requires Readable(g, d) && Head(g, d) == []
    ensures Recovered(g, d) == Home(g, d)
  {}

  /** Log absorption keeps the list of distinct home blocks, and adds exactly b. */
  lemma Absorbed(g: Geo, d: Disk, bs: seq<int>, b: int)
    requires Fits(g, d, bs) && LogRuns.Distinct(bs) && IsHome(g, d, b) && |bs| < LOGSIZE && |bs| < g.size - 1
    ensures var bs' := if b in bs then bs else bs + [b];
            Fits(g, d, bs') && LogRuns.Distinct(bs') && Homes(bs') == Homes(bs) + {HomeAddr(b)}
  {
    if b in bs {
      InHomes(bs, HomeAddr(b));
    } else {
      assert (bs + [b])[..|bs|] == bs;
    }
  }

  lemma PendingShown(c: Cache, g: Geo, bs: seq<int>)
    requires Inv(c) && Pinned(c) == Homes(bs)
    ensures Pending(g, c.disk, View(c), bs)
  {
    forall a | a in c.disk && (forall i :: 0 <= i < |bs| ==> HomeAddr(bs[i]) != a) ensures View(c)[a] == c.disk[a] {
      InHomes(bs, a);
      Clean(c, a);
    }
  }

  /** Recovery from any of the disks es yields `before` for the first n of them, `after` from then on. */
  ghost predicate Switches(g: Geo, es: seq<Disk>, n: nat, before: Disk, after: Disk) {
    forall j :: 0 <= j < |es| ==> Readable(g, es[j]) && Recovered(g, es[j]) == if j < n then before else after
  }

  lemma CommitsCrash(g: Geo, d: Disk, v: Disk, bs: seq<int>)
    requires Readable(g, d) && Head(g, d) == [] && Fits(g, d, bs) && Pending(g, d, v, bs)
    ensures Switches(g, Commits(g, d, v, bs), |bs|, Home(g, d), Home(g, v))
  {
    hide Home, Recovered, Readable, Commits, Pending, Fits, Formatted, LogSpec.Commit, Head;
    CommitDefined(g, d, v, bs);
    var es := Commits(g, d, v, bs);
    forall j | 0 <= j < |es| ensures Readable(g, es[j]) && Recovered(g, es[j]) == if j < |bs| then Home(g, d) else Home(g, v) {
      CommitCrash(g, d, v, bs, j + 1);
    }
  }

  lemma ShowsNow(c: Cache, bs: seq<int>)
    requires Inv(c) && |c.bufs| == NBUF && Pinned(c) == Homes(bs) && Held(c) == {}
    ensures Shows(c, c.disk, View(c), Homes(bs), {})
  {}

  lemma HomesNone()
    ensures Homes([]) == {} && LogRuns.Distinct([])
  {}

  lemma Fitted(g: Geo, d: Disk, bs: seq<int>)
    requires Fits(g, d, bs)
    ensures |bs| <= g.size - 1
  {}

  lemma CommitsPre(c: Cache, g: Geo, bs: seq<int>)
    requires Readable(g, c.disk)
    ensures Formatted(g, c.disk) && View(c).Keys == c.disk.Keys
  {}

  lemma Committed(c: Cache, g: Geo, d: Disk, v: Disk, bs: seq<int>)
    requires Readable(g, d) && Head(g, d) == [] && Fits(g, d, bs) && Pending(g, d, v, bs)
    requires var e := LogSpec.Commit(g, d, v, bs, 2 * |bs| + 2); Shows(c, e, e, {}, {})
    ensures Readable(g, c.disk) && Head(g, c.disk) == [] && Recovered(g, c.disk) == Home(g, v) && Home(g, View(c)) == Home(g, v)
    ensures Fits(g, c.disk, []) && Inv(c) && |c.bufs| == NBUF && Pinned(c) == {} && Held(c) == {}
  {
    FitsNone(g, LogSpec.Commit(g, d, v, bs, 2 * |bs| + 2));
    hide Home, Recovered, Readable, LogSpec.Commit, Pending, Fits, Formatted, Inv, View;
    CommitCrash(g, d, v, bs, 2 * |bs| + 2);
  }

  lemma FitsNone(g: Geo, d: Disk)
    requires g.size >= 1
    ensures Fits(g, d, [])
  {}

  lemma NothingLogged(g: Geo, c: Cache, d: Disk, v: Disk)
    requires Shows(c, d, v, {}, {}) && Readable(g, c.disk) && Head(g, c.disk) == []
    ensures Recovered(g, c.disk) == Home(g, View(c)) && View(c) == v && c.disk == d
    ensures Fits(g, c.disk, []) && Inv(c) && |c.bufs| == NBUF && Pinned(c) == {} && Held(c) == {}
  {
    forall a | a in c.disk ensures View(c)[a] == c.disk[a] { Clean(c, a); }
  }

  lemma PutNone(g: Geo, d: Disk, v: Disk, bs: seq<int>)
    requires Formatted(g, d) && Fits(g, d, bs) && v.Keys == d.Keys
    ensures PutLog(g, d, v, bs, 0) == d
  {}

  lemma HeldAt(c: Cache, a: Addr)
    requires Inv(c) && a in Held(c)
    ensures var i := Find(c.bufs, a); i < |c.bufs| && c.bufs[i].busy && Key(c.bufs[i]) == a
  {
    var k :| 0 <= k < |c.bufs| && c.bufs[k].busy && Key(c.bufs[k]) == a;
    FindUnique(c.bufs, k);
  }
}
