/** The on-disk log of log.c: what each single-block write of commit and of
    recovery leaves on the disk, and what recovery would make of it. */
module LogSpec {
  import opened Blocks

  /** log.start and log.size. */
  datatype Geo = Geo(start: nat, size: nat)

  function HeadAddr(g: Geo): Addr {
    (ROOTDEV, g.start)
  }

  function LogAddr(g: Geo, i: int): Addr {
    (ROOTDEV, g.start + 1 + i)
  }

  function HomeAddr(b: int): Addr {
    (ROOTDEV, b)
  }

  predicate InLog(g: Geo, a: Addr) {
    a.0 == ROOTDEV && g.start <= a.1 < g.start + g.size
  }

  /** The file system proper: everything outside the log region. */
  function Home(g: Geo, d: Disk): (h: Disk) {
    map a | a in d && !InLog(g, a) :: d[a]
  }

  predicate Formatted(g: Geo, d: Disk) {
    g.size >= 1 && forall i :: g.start <= i < g.start + g.size ==> (ROOTDEV, i) in d
  }

  /** b names a block of the file system proper, as an unsigned 32-bit number. */
  predicate IsHome(g: Geo, d: Disk, b: int) {
    0 <= b < UINT && HomeAddr(b) in d && !InLog(g, HomeAddr(b))
  }

  /** A list of block numbers that fits the log and names home blocks. */
  predicate Fits(g: Geo, d: Disk, bs: seq<int>) {
    |bs| <= LOGSIZE && |bs| <= g.size - 1 && forall i :: 0 <= i < |bs| ==> IsHome(g, d, bs[i])
  }

  // ----- the header block -----

  /** The block numbers a header block lists, as read_head takes them. */
  function Listed(b: Block, k: nat): (bs: seq<int>)
    requires k < NWORDS
    ensures |bs| == k && forall i :: 0 <= i < k ==> bs[i] == Word(b, i + 1)
  {
    if k == 0 then [] else Listed(b, k - 1) + [Word(b, k)]
  }

  function Head(g: Geo, d: Disk): (bs: seq<int>)
    requires Formatted(g, d) && Word(d[HeadAddr(g)], 0) <= LOGSIZE
  {
    Listed(d[HeadAddr(g)], Word(d[HeadAddr(g)], 0))
  }

  /** write_head: store the count, then the first k block numbers. */
  function Filled(b: Block, bs: seq<int>, k: nat): (r: Block)
    requires k <= |bs| <= LOGSIZE && forall i :: 0 <= i < |bs| ==> 0 <= bs[i] < UINT
  {
    if k == 0 then SetWord(b, 0, |bs|) else SetWord(Filled(b, bs, k - 1), k, bs[k - 1])
  }

  lemma {:induction false} FilledWord(b: Block, bs: seq<int>, k: nat, j: nat)
    requires k <= |bs| <= LOGSIZE && j < NWORDS && forall i :: 0 <= i < |bs| ==> 0 <= bs[i] < UINT
    ensures Word(Filled(b, bs, k), j) == if j == 0 then |bs| else if j <= k then bs[j - 1] else Word(b, j)
  {
    if k == 0 {
      WordSetWord(b, 0, |bs|, j);
    } else {
      FilledWord(b, bs, k - 1, j);
      WordSetWord(Filled(b, bs, k - 1), k, bs[k - 1], j);
    }
  }

  /** read_head undoes write_head, whatever the header block held before. */
  lemma HeaderRoundTrip(b: Block, bs: seq<int>)
    requires |bs| <= LOGSIZE && forall i :: 0 <= i < |bs| ==> 0 <= bs[i] < UINT
    ensures Word(Filled(b, bs, |bs|), 0) == |bs| && Listed(Filled(b, bs, |bs|), |bs|) == bs
  {
    forall j | 0 <= j <= |bs| ensures Word(Filled(b, bs, |bs|), j) == if j == 0 then |bs| else bs[j - 1] {
      FilledWord(b, bs, |bs|, j);
    }
  }

  // ----- install and recover -----

  /** The disk after the first k iterations of install_trans. */
  function Install(g: Geo, d: Disk, bs: seq<int>, k: nat): (r: Disk)
    requires Formatted(g, d) && Fits(g, d, bs) && k <= |bs|
    ensures r.Keys == d.Keys && forall a :: a in d && InLog(g, a) ==> r[a] == d[a]
  {
    if k == 0 then d
    else
      var e := Install(g, d, bs, k - 1);
      e[HomeAddr(bs[k - 1]) := e[LogAddr(g, k - 1)]]
  }

  /** A disk whose log recovery can read. */
  ghost predicate Readable(g: Geo, d: Disk) {
    Formatted(g, d) && Word(d[HeadAddr(g)], 0) <= LOGSIZE && Fits(g, d, Head(g, d))
  }

  /** The file system recover_from_log would make of disk d. */
  ghost function Recovered(g: Geo, d: Disk): Disk
    requires Readable(g, d)
  {
    Home(g, Install(g, d, Head(g, d), |Head(g, d)|))
  }

  /** The disk after the first j writes of recover_from_log: the installs, then the cleared header. */
  function Boot(g: Geo, d: Disk, bs: seq<int>, j: nat): (r: Disk)
    requires Formatted(g, d) && Fits(g, d, bs) && j <= |bs| + 1
  {
    if j <= |bs| then Install(g, d, bs, j)
    else
      var e := Install(g, d, bs, |bs|);
      e[HeadAddr(g) := Filled(e[HeadAddr(g)], [], 0)]
  }

  /** Installing on a partly installed disk: a listed block gets its logged copy, the others keep theirs. */
  lemma {:induction false} InstallAgain(g: Geo, d: Disk, e: Disk, bs: seq<int>, j: nat, a: Addr)
    requires Formatted(g, d) && Fits(g, d, bs) && j <= |bs|
    requires e.Keys == d.Keys && (forall x :: x in d && InLog(g, x) ==> e[x] == d[x])
    requires a in d && !InLog(g, a)
    ensures Formatted(g, e) && Fits(g, e, bs)
    ensures Install(g, e, bs, j)[a] ==
            if exists i :: 0 <= i < j && HomeAddr(bs[i]) == a then Install(g, d, bs, j)[a] else e[a]
  {
    hide Install, Fits, Formatted, InLog;
    FitsToo(g, d, e, bs);
    if j == 0 {
      NoInstall(g, e, bs);
    } else {
      InstallAgain(g, d, e, bs, j - 1, a);
      InstallLast(g, d, e, bs, j, a);
    }
  }

  lemma FitsToo(g: Geo, d: Disk, e: Disk, bs: seq<int>)
    requires Formatted(g, d) && Fits(g, d, bs) && e.Keys == d.Keys
    ensures Formatted(g, e) && Fits(g, e, bs)
  {}

  lemma NoInstall(g: Geo, d: Disk, bs: seq<int>)
    requires Formatted(g, d) && Fits(g, d, bs)
    ensures Install(g, d, bs, 0) == d
  {}

  /** The last of j installs puts a logged block in its place. */
  lemma InstallLast(g: Geo, d: Disk, e: Disk, bs: seq<int>, j: nat, a: Addr)
    requires Formatted(g, d) && Fits(g, d, bs) && 0 < j <= |bs| && Formatted(g, e) && Fits(g, e, bs)
    requires e.Keys == d.Keys && (forall x :: x in d && InLog(g, x) ==> e[x] == d[x]) && a in d && !InLog(g, a)
    ensures HomeAddr(bs[j - 1]) == a ==> Install(g, e, bs, j)[a] == Install(g, d, bs, j)[a]
    ensures HomeAddr(bs[j - 1]) != a ==> Install(g, e, bs, j)[a] == Install(g, e, bs, j - 1)[a] && Install(g, d, bs, j)[a] == Install(g, d, bs, j - 1)[a]
  {
    assert InLog(g, LogAddr(g, j - 1));
  }

  lemma InstallIdempotent(g: Geo, d: Disk, bs: seq<int>, k: nat)
    requires Formatted(g, d) && Fits(g, d, bs) && k <= |bs|
    ensures var e := Install(g, d, bs, k);
            Fits(g, e, bs) && Formatted(g, e) && Home(g, Install(g, e, bs, |bs|)) == Home(g, Install(g, d, bs, |bs|))
  {
    var e := Install(g, d, bs, k);
    assert Fits(g, e, bs) && Formatted(g, e);
    hide Install, Fits, Formatted;
    forall a | a in d && !InLog(g, a) ensures Install(g, e, bs, |bs|)[a] == Install(g, d, bs, |bs|)[a] {
      InstallAgain(g, d, e, bs, |bs|, a);
      InstallAgain(g, d, d, bs, |bs|, a);
      InstallAgain(g, d, d, bs, k, a);
    }
  }

  lemma SameHead(g: Geo, d: Disk, e: Disk)
    requires Readable(g, d) && e.Keys == d.Keys && e[HeadAddr(g)] == d[HeadAddr(g)]
    ensures Readable(g, e) && Head(g, e) == Head(g, d)
  {}

  lemma ClearedHead(g: Geo, d: Disk)
    requires Formatted(g, d)
    ensures var e := d[HeadAddr(g) := Filled(d[HeadAddr(g)], [], 0)];
            Readable(g, e) && Head(g, e) == [] && Recovered(g, e) == Home(g, d)
  {
    var e := d[HeadAddr(g) := Filled(d[HeadAddr(g)], [], 0)];
    HeaderRoundTrip(d[HeadAddr(g)], []);
    assert Head(g, e) == [];
    assert InLog(g, HeadAddr(g));
  }

  /** A crash anywhere in recovery loses nothing: recovery started over gives the same file
      system, and completed recovery leaves that file system in place with an empty log. */
  lemma BootCrash(g: Geo, d: Disk, j: nat)
    requires Readable(g, d) && j <= |Head(g, d)| + 1
    ensures var e := Boot(g, d, Head(g, d), j);
            && Readable(g, e) && Recovered(g, e) == Recovered(g, d)
            && (j == |Head(g, d)| + 1 ==> Head(g, e) == [] && Home(g, e) == Recovered(g, d))
  {
    var bs := Head(g, d);
    assert InLog(g, HeadAddr(g));
    if j <= |bs| {
      SameHead(g, d, Install(g, d, bs, j));
      InstallIdempotent(g, d, bs, j);
    } else {
      ClearedHead(g, Install(g, d, bs, |bs|));
    }
  }

  /** The disk left by a sequence of recoveries, the i-th of which crashed after tries[i] writes. */
  ghost function Reboots(g: Geo, d: Disk, tries: seq<nat>): (e: Disk)
    requires Readable(g, d)
    ensures Readable(g, e)
    decreases |tries|
  {
    if tries == [] then d
    else
      var n := |Head(g, d)|;
      var j := if tries[0] <= n + 1 then tries[0] else n + 1;
      BootCrash(g, d, j);
      Reboots(g, Boot(g, d, Head(g, d), j), tries[1..])
  }

  /** However often recovery crashes, finally completing it gives what the first attempt would have. */
  lemma {:induction false} RebootsCrash(g: Geo, d: Disk, tries: seq<nat>)
    requires Readable(g, d)
    ensures Recovered(g, Reboots(g, d, tries)) == Recovered(g, d)
    decreases |tries|
  {
    if tries != [] {
      var n := |Head(g, d)|;
      var j := if tries[0] <= n + 1 then tries[0] else n + 1;
      BootCrash(g, d, j);
      RebootsCrash(g, Boot(g, d, Head(g, d), j), tries[1..]);
    }
  }

  // ----- commit -----

  /** The disk after the first k iterations of write_log, v being what the cache shows. */
  function PutLog(g: Geo, d: Disk, v: Disk, bs: seq<int>, k: nat): (r: Disk)
    requires Formatted(g, d) && Fits(g, d, bs) && k <= |bs| && v.Keys == d.Keys
    ensures r.Keys == d.Keys && r[HeadAddr(g)] == d[HeadAddr(g)] && Home(g, r) == Home(g, d)
    ensures forall i :: 0 <= i < k ==> r[LogAddr(g, i)] == v[HomeAddr(bs[i])]
  {
    if k == 0 then d
    else
      assert InLog(g, LogAddr(g, k - 1));
      PutLog(g, d, v, bs, k - 1)[LogAddr(g, k - 1) := v[HomeAddr(bs[k - 1])]]
  }

  /** write_log done and the header written: the commit point. */
  function PutHead(g: Geo, d: Disk, v: Disk, bs: seq<int>): (r: Disk)
    requires Formatted(g, d) && Fits(g, d, bs) && v.Keys == d.Keys
  {
    var e := PutLog(g, d, v, bs, |bs|);
    e[HeadAddr(g) := Filled(e[HeadAddr(g)], bs, |bs|)]
  }

  lemma PutHeadReadable(g: Geo, d: Disk, v: Disk, bs: seq<int>)
    requires Formatted(g, d) && Fits(g, d, bs) && v.Keys == d.Keys
    ensures var e := PutHead(g, d, v, bs);
            && e.Keys == d.Keys && Formatted(g, e) && Fits(g, e, bs) && Readable(g, e) && Head(g, e) == bs
            && Home(g, e) == Home(g, d)
            && forall i :: 0 <= i < |bs| ==> e[LogAddr(g, i)] == v[HomeAddr(bs[i])]
  {
    var e := PutHead(g, d, v, bs);
    HeaderRoundTrip(d[HeadAddr(g)], bs);
    assert InLog(g, HeadAddr(g));
    assert Head(g, e) == bs;
  }

  /** The disk after the first j of commit's 2n+2 single-block writes. */
  function Commit(g: Geo, d: Disk, v: Disk, bs: seq<int>, j: nat): (r: Disk)
    requires Formatted(g, d) && Fits(g, d, bs) && v.Keys == d.Keys && j <= 2 * |bs| + 2
  {
    if j <= |bs| then PutLog(g, d, v, bs, j)
    else
      PutHeadReadable(g, d, v, bs);
      Boot(g, PutHead(g, d, v, bs), bs, j - |bs| - 1)
  }

  /** v agrees with d on the file system except at the listed blocks. */
  ghost predicate Pending(g: Geo, d: Disk, v: Disk, bs: seq<int>) {
    && v.Keys == d.Keys
    && forall a :: a in d && !InLog(g, a) && (forall i :: 0 <= i < |bs| ==> HomeAddr(bs[i]) != a) ==> v[a] == d[a]
  }

  /** Installing the committed log gives exactly what the cache showed. */
  lemma {:induction false} InstallShows(g: Geo, d: Disk, v: Disk, bs: seq<int>, k: nat, a: Addr)
    requires Formatted(g, d) && Fits(g, d, bs) && k <= |bs| && v.Keys == d.Keys
    requires forall i :: 0 <= i < |bs| ==> d[LogAddr(g, i)] == v[HomeAddr(bs[i])]
    requires a in d && !InLog(g, a)
    ensures Install(g, d, bs, k)[a] == if exists i :: 0 <= i < k && HomeAddr(bs[i]) == a then v[a] else d[a]
  {
    if k > 0 {
      InstallShows(g, d, v, bs, k - 1, a);
      assert InLog(g, LogAddr(g, k - 1));
    }
  }

  /** The header write makes the new file system the recovered one. */
  lemma PutHeadCommits(g: Geo, d: Disk, v: Disk, bs: seq<int>)
    requires Formatted(g, d) && Fits(g, d, bs) && Pending(g, d, v, bs)
    ensures Readable(g, PutHead(g, d, v, bs)) && Recovered(g, PutHead(g, d, v, bs)) == Home(g, v)
  {
    var h := PutHead(g, d, v, bs);
    PutHeadReadable(g, d, v, bs);
    forall a | a in d && !InLog(g, a) ensures Install(g, h, bs, |bs|)[a] == v[a] {
      InstallShows(g, h, v, bs, |bs|, a);
      assert a in Home(g, h);
    }
  }

  /** Crash atomicity of commit.  After any number of its single-block writes, recovery yields
      the old file system up to the last log block and the new one, whole, from the header write on. */
  lemma CommitCrash(g: Geo, d: Disk, v: Disk, bs: seq<int>, j: nat)
    requires Readable(g, d) && Head(g, d) == [] && Fits(g, d, bs) && Pending(g, d, v, bs) && j <= 2 * |bs| + 2
    ensures var e := Commit(g, d, v, bs, j);
            && e.Keys == d.Keys && Readable(g, e)
            && Recovered(g, e) == (if j <= |bs| then Home(g, d) else Home(g, v))
            && (j == 2 * |bs| + 2 ==> Head(g, e) == [] && Home(g, e) == Home(g, v))
  {
    hide Readable, Recovered, Formatted, Fits, Pending, Home, Head, Install, PutLog, PutHead, Boot;
    CommitDefined(g, d, v, bs);
    if j <= |bs| {
      LogWritten(g, d, v, bs, j);
    } else {
      PutHeadReadable(g, d, v, bs);
      PutHeadCommits(g, d, v, bs);
      BootKeys(g, PutHead(g, d, v, bs), bs, j - |bs| - 1);
      BootCrash(g, PutHead(g, d, v, bs), j - |bs| - 1);
    }
  }

  lemma CommitDefined(g: Geo, d: Disk, v: Disk, bs: seq<int>)
    requires Readable(g, d) && Pending(g, d, v, bs)
    ensures Formatted(g, d) && v.Keys == d.Keys
  {}

  lemma BootKeys(g: Geo, d: Disk, bs: seq<int>, j: nat)
    requires Formatted(g, d) && Fits(g, d, bs) && j <= |bs| + 1
    ensures Boot(g, d, bs, j).Keys == d.Keys
  {
    assert HeadAddr(g) in d;
  }

  /** Writing the log region changes nothing that recovery sees. */
  lemma LogWritten(g: Geo, d: Disk, v: Disk, bs: seq<int>, j: nat)
    requires Readable(g, d) && Head(g, d) == [] && Fits(g, d, bs) && v.Keys == d.Keys && j <= |bs|
    ensures Readable(g, PutLog(g, d, v, bs, j)) && Recovered(g, PutLog(g, d, v, bs, j)) == Home(g, d)
  {
    hide Home, PutLog;
    var e := PutLog(g, d, v, bs, j);
    SameHead(g, d, e);
    assert Install(g, e, [], 0) == e;
  }
}
