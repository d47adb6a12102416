/** The file system's invariant across crashes. */
module FsCrash {
  import opened Blocks
  import opened FsSpec
  import opened LogSpec
  import LogRuns

  /** The ownership invariant of a disk, read by `files` as blocks and inodes. */
  ghost predicate Sound(g: Sb, files: Disk -> (Store, Inodes), d: Disk) {
    Base(g, files(d).0, files(d).1, {})
  }

  /** A machine switched on over a disk whose recovered file system has one owner per block and
      an exact bitmap, running calls that leave it so whenever none of them is outstanding: at
      every moment, with crashes anywhere, recovery yields such a file system again.  `files` is
      any way to read inodes from blocks. */
  lemma CrashKeepsBase(geo: Geo, g: Sb, files: Disk -> (Store, Inodes), d: Disk, es: seq<LogRuns.Event>)
    requires Readable(geo, d) && Sound(g, files, Recovered(geo, d))
    requires var s := LogRuns.State(d, d, [], map[], LogRuns.Booting(0), d);
             LogRuns.Run(geo, s, es).Some? && LogRuns.Inv(geo, s) && LogRuns.QuietlyHas(geo, s, es, x => Sound(g, files, x))
    ensures var t := LogRuns.Run(geo, LogRuns.State(d, d, [], map[], LogRuns.Booting(0), d), es).value;
            Readable(geo, t.disk) && Sound(g, files, Recovered(geo, t.disk))
  {
    hide LogRuns.Run, Sound, Recovered, LogRuns.Inv;
    var s := LogRuns.State(d, d, [], map[], LogRuns.Booting(0), d);
    LogRuns.AtBoot(geo, d);
    LogRuns.CrashKeeps(geo, s, es, x => Sound(g, files, x));
    LogRuns.Progress(geo, LogRuns.Run(geo, s, es).value);
  }
}
