/** A process in a directory that is removed, and whose parent is then removed and freed. */
module LinkStale {
  import opened Dirs
  import opened LinkRuns
  import opened Sysfile

  function Trio(root: Inode, a: Inode, b: Inode, calls: map<int, Call>): State {
    State(map[1 := root, 2 := a, 3 := b], calls)
  }

  function Free0(): Inode {
    Inode(0, 0, [])
  }

  function Under(x: int, parent: int): seq<Dirent> {
    [Dirent(x, "."), Dirent(parent, "..")]
  }

  /** Directory x with one more entry, or with that entry cleared. */
  function Holds(x: int, parent: int, child: int, name: string): seq<Dirent> {
    Under(x, parent) + [Dirent(child, name)]
  }

  lemma FreshIs()
    ensures Fresh(3) == Trio(Inode(T_DIR, 1, Under(1, 1)), Free0(), Free0(), map[])
  {}

  lemma MkdirA()
    ensures var s := Trio(Inode(T_DIR, 1, Under(1, 1)), Free0(), Free0(), map[]);
            var e := Create(1, "a", T_DIR, 2);
            && Enabled(s, e) && Proper(s, e)
            && Step(s, e) == Trio(Inode(T_DIR, 2, Holds(1, 1, 2, "a")), Inode(T_DIR, 1, Under(2, 1)), Free0(), map[])
  {
    assert FirstEmpty(Under(1, 1), 0) == 2;
  }

  lemma MkdirB()
    ensures var s := Trio(Inode(T_DIR, 2, Holds(1, 1, 2, "a")), Inode(T_DIR, 1, Under(2, 1)), Free0(), map[]);
            var e := Create(2, "b", T_DIR, 3);
            && Enabled(s, e) && Proper(s, e)
            && Step(s, e) == Trio(Inode(T_DIR, 2, Holds(1, 1, 2, "a")), Inode(T_DIR, 2, Holds(2, 1, 3, "b")), Inode(T_DIR, 1, Under(3, 2)), map[])
  {
    assert FirstEmpty(Under(2, 1), 0) == 2;
  }

  lemma UnlinkB()
    ensures var s := Trio(Inode(T_DIR, 2, Holds(1, 1, 2, "a")), Inode(T_DIR, 2, Holds(2, 1, 3, "b")), Inode(T_DIR, 1, Under(3, 2)), map[]);
            && Enabled(s, UnlinkStart(0, 2, 2)) && Proper(s, UnlinkStart(0, 2, 2))
            && var s1 := Step(s, UnlinkStart(0, 2, 2));
            && Enabled(s1, UnlinkDone(0)) && Proper(s1, UnlinkDone(0))
            && Step(s1, UnlinkDone(0)) ==
               Trio(Inode(T_DIR, 2, Holds(1, 1, 2, "a")), Inode(T_DIR, 1, Holds(2, 1, 0, "")), Inode(T_DIR, 0, Under(3, 2)), map[])
  {
    assert Clear(Holds(2, 1, 3, "b"), 2) == Holds(2, 1, 0, "");
    var calls: map<int, Call> := map[0 := Unlinking(3)];
    assert calls - {0} == map[];
  }

  lemma UnlinkA()
    ensures var s := Trio(Inode(T_DIR, 2, Holds(1, 1, 2, "a")), Inode(T_DIR, 1, Holds(2, 1, 0, "")), Inode(T_DIR, 0, Under(3, 2)), map[]);
            && Enabled(s, UnlinkStart(0, 1, 2)) && Proper(s, UnlinkStart(0, 1, 2))
            && var s1 := Step(s, UnlinkStart(0, 1, 2));
            && Enabled(s1, UnlinkDone(0)) && Proper(s1, UnlinkDone(0))
            && Step(s1, UnlinkDone(0)) ==
               Trio(Inode(T_DIR, 1, Holds(1, 1, 0, "")), Inode(T_DIR, 0, Holds(2, 1, 0, "")), Inode(T_DIR, 0, Under(3, 2)), map[])
  {
    assert Clear(Holds(1, 1, 2, "a"), 2) == Holds(1, 1, 0, "");
    var calls: map<int, Call> := map[0 := Unlinking(2)];
    assert calls - {0} == map[];
  }

  lemma FreeA()
    ensures var s := Trio(Inode(T_DIR, 1, Holds(1, 1, 0, "")), Inode(T_DIR, 0, Holds(2, 1, 0, "")), Inode(T_DIR, 0, Under(3, 2)), map[]);
            && Enabled(s, Free(2)) && Proper(s, Free(2))
            && Step(s, Free(2)) == Trio(Inode(T_DIR, 1, Holds(1, 1, 0, "")), Free0(), Inode(T_DIR, 0, Under(3, 2)), map[])
  {
    var s := Trio(Inode(T_DIR, 1, Holds(1, 1, 0, "")), Inode(T_DIR, 0, Holds(2, 1, 0, "")), Inode(T_DIR, 0, Under(3, 2)), map[]);
    NoCalls(s, 2);
  }

  lemma Proceed(s: State, es: seq<Event>, e: Event)
    requires Possible(s, es) && AllProper(s, es) && Enabled(After(s, es), e) && Proper(After(s, es), e)
    ensures Possible(s, es + [e]) && After(s, es + [e]) == Step(After(s, es), e) && AllProper(s, es + [e])
  {
    hide Enabled, Step, Proper;
    assert (es + [e])[..|es|] == es;
    Extend(s, es, e);
  }

  /** mkdir a, mkdir a/b, and with a process in a/b: unlink a/b, unlink a, and a is freed.
      Every step keeps the link counts right; yet ".." in b now names a free inode, and namex
      follows it; a path through it stops the kernel. */
  lemma ParentIsFree() returns (es: seq<Event>)
    ensures Possible(Fresh(3), es) && AllProper(Fresh(3), es) && Inv(After(Fresh(3), es))
    ensures var t := After(Fresh(3), es).inodes;
            && 3 in t && 2 in t && t[3].typ == T_DIR && Walk(t, 3, [".."]) == 2 && t[2].typ == 0
            && forall name :: WalkPanics(t, 3, ["..", name])
  {
    hide *;
    var s := Fresh(3);
    FreshIs();
    FreshInv(3);
    MkdirA();
    MkdirB();
    UnlinkB();
    UnlinkA();
    FreeA();
    NoRun(s);
    es := [];
    Proceed(s, es, Create(1, "a", T_DIR, 2));
    es := es + [Create(1, "a", T_DIR, 2)];
    Proceed(s, es, Create(2, "b", T_DIR, 3));
    es := es + [Create(2, "b", T_DIR, 3)];
    Proceed(s, es, UnlinkStart(0, 2, 2));
    es := es + [UnlinkStart(0, 2, 2)];
    Proceed(s, es, UnlinkDone(0));
    es := es + [UnlinkDone(0)];
    Proceed(s, es, UnlinkStart(0, 1, 2));
    es := es + [UnlinkStart(0, 1, 2)];
    Proceed(s, es, UnlinkDone(0));
    es := es + [UnlinkDone(0)];
    Proceed(s, es, Free(2));
    es := es + [Free(2)];
    RunInv(s, es);
    UpFromB(After(s, es));
  }

  lemma NoRun(s: State)
    ensures Possible(s, []) && After(s, []) == s && AllProper(s, [])
  {}

  lemma UpFromB(t: State)
    requires t == Trio(Inode(T_DIR, 1, Holds(1, 1, 0, "")), Free0(), Inode(T_DIR, 0, Under(3, 2)), map[])
    ensures 3 in t.inodes && 2 in t.inodes && t.inodes[3].typ == T_DIR && Walk(t.inodes, 3, [".."]) == 2 && t.inodes[2].typ == 0
    ensures forall name :: WalkPanics(t.inodes, 3, ["..", name])
  {
    hide AsMap, Walk, Unique, WalkPanics;
    UpIs();
    WalkOne(t.inodes, 3, "..");
    forall name ensures WalkPanics(t.inodes, 3, ["..", name]) { PanicNext(t.inodes, 3, "..", name); }
  }

  lemma PanicNext(inodes: map<int, Inode>, ip: int, a: string, b: string)
    requires ip in inodes && inodes[ip].typ == T_DIR && a in AsMap(inodes[ip].des)
    requires AsMap(inodes[ip].des)[a] in inodes && inodes[AsMap(inodes[ip].des)[a]].typ == 0
    ensures WalkPanics(inodes, ip, [a, b])
  {
    hide AsMap;
    assert [a, b][1..] == [b];
  }

  lemma UpIs()
    ensures ".." in AsMap(Under(3, 2)) && AsMap(Under(3, 2))[".."] == 2
  {
    hide AsMap;
    AsMapIs(Under(3, 2), 1);
  }

  lemma WalkOne(inodes: map<int, Inode>, ip: int, name: string)
    requires ip in inodes && inodes[ip].typ == T_DIR && name in AsMap(inodes[ip].des)
    ensures Walk(inodes, ip, [name]) == AsMap(inodes[ip].des)[name]
  {
    hide AsMap;
    assert [name][1..] == [];
  }
}
